/** The HTTP rendering of `AuthError` in auth-service/src/errors/error_response.rs:
    a status code per variant, and a JSON body `{"error": <display>}`. */
module ErrorResponse {
  import opened Common
  import opened AuthErrors

  /** `ResponseError::status_code`. */
  function StatusCode(e: AuthError): (code: nat)
    ensures code in {StatusUnauthorized, StatusNotFound, StatusInternalServerError}
    ensures code == StatusInternalServerError <==> e.DatabaseError? || e.InternalServerError?
    ensures code == StatusNotFound <==> e.UserNotFound?
    ensures code == StatusUnauthorized <==> e.InvalidCredentials?
  {
    match e
    case DatabaseError(_) => StatusInternalServerError
    case UserNotFound => StatusNotFound
    case InvalidCredentials => StatusUnauthorized
    case InternalServerError => StatusInternalServerError
  }

  /** Every one of the three codes is produced by some error, so the range
      of `StatusCode` is exactly {401, 404, 500}. */
  lemma StatusCodeRange()
    ensures (set e | e in {InvalidCredentials, UserNotFound, InternalServerError} :: StatusCode(e))
         == {StatusUnauthorized, StatusNotFound, StatusInternalServerError}
  {
    assert StatusCode(InvalidCredentials) == StatusUnauthorized;
    assert StatusCode(UserNotFound) == StatusNotFound;
    assert StatusCode(InternalServerError) == StatusInternalServerError;
  }

  /** `ResponseError::error_response`. */
  function ErrorResponse(e: AuthError): (r: HttpResponse)
    ensures r.status == StatusCode(e)
    ensures r.body.JsonBody? && r.body.json.JObject?
    ensures Keys(r.body.json.members) == ["error"]
    ensures Lookup(r.body.json.members, "error") == Some(JString(Display(e)))
  {
    HttpResponse(StatusCode(e), JsonBody(JObject([("error", JString(Display(e)))])))
  }

  /** The body alone tells every variant apart except for database errors
      with the same display, and its status agrees with that variant. */
  lemma ErrorResponseDeterminesVariant(a: AuthError, b: AuthError)
    requires ErrorResponse(a).body == ErrorResponse(b).body
    ensures a.DatabaseError? <==> b.DatabaseError?
    ensures !a.DatabaseError? ==> a == b
    ensures ErrorResponse(a) == ErrorResponse(b)
  {
    assert Lookup(ErrorResponse(a).body.json.members, "error") == Lookup(ErrorResponse(b).body.json.members, "error");
    DisplayDeterminesVariant(a, b);
  }
}
