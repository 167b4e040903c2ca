/** The `login` handler of auth-service/src/handlers/auth.rs: a token is
    answered 200 with the `LoginResponse` as JSON, every failure string 401
    with that string as the body. */
module AuthHandler {
  import opened Common
  import opened Database
  import opened AuthService

  /** The serde form of `LoginResponse`. */
  function LoginResponseJson(resp: LoginResponse): (j: Json)
    ensures j.JObject? && Keys(j.members) == ["token"]
    ensures Lookup(j.members, "token") == Some(JString(resp.token))
  {
    JObject([("token", JString(resp.token))])
  }

  /** The response for a result of `authenticate`. */
  function Login(outcome: Result<LoginResponse, string>): (r: HttpResponse)
    ensures r.status in {StatusOk, StatusUnauthorized}
    ensures r.status == StatusOk <==> outcome.Ok?
    ensures outcome.Ok? ==> r.body == JsonBody(LoginResponseJson(outcome.value))
    ensures outcome.Err? ==> r.body == Text(outcome.error)
  {
    match outcome
    case Ok(token) => HttpResponse(StatusOk, JsonBody(LoginResponseJson(token)))
    case Err(err) => HttpResponse(StatusUnauthorized, Text(err))
  }

  /** The login endpoint: authenticate, then answer. Only 200 and 401 occur,
      and a 401 carries the service's failure string as its body. */
  function LoginEndpoint(deps: AuthDeps, req: LoginRequest): (r: HttpResponse)
    ensures r.status in {StatusOk, StatusUnauthorized}
    ensures r.status == StatusOk <==> Authenticate(deps, req).Ok?
    ensures r.status == StatusUnauthorized ==> r.body == Text(Authenticate(deps, req).error)
  {
    Login(Authenticate(deps, req))
  }

  /** The endpoint answers 200 exactly when the credentials match and a token
      was made, and then the body carries the token minted for the matched user. */
  lemma LoginOkIffCredentialsMatch(deps: AuthDeps, req: LoginRequest)
    ensures LoginEndpoint(deps, req).status == StatusOk
        <==> CredentialsMatch(deps, req) && TokenFor(deps, deps.findByEmail(req.email).value).Ok?
    ensures LoginEndpoint(deps, req).status == StatusOk ==>
      LoginEndpoint(deps, req).body
        == JsonBody(LoginResponseJson(LoginResponse(TokenFor(deps, deps.findByEmail(req.email).value).value)))
  {
  }

  /** Every failure is 401, database and token failures included: the login
      endpoint never answers 404 or 500, and its 401 body is one of the four
      fixed failure strings. */
  lemma LoginFailuresAreUnauthorized(deps: AuthDeps, req: LoginRequest)
    ensures LoginEndpoint(deps, req).status != StatusNotFound
    ensures LoginEndpoint(deps, req).status != StatusInternalServerError
    ensures deps.findByEmail(req.email).Err? ==> LoginEndpoint(deps, req).status == StatusUnauthorized
    ensures LoginEndpoint(deps, req).status == StatusUnauthorized ==>
      LoginEndpoint(deps, req).body.Text? &&
      LoginEndpoint(deps, req).body.text in {TokenNotCreated, InvalidCredentialsMessage, UserNotFoundMessage, ErrorOccurred}
  {
  }

  /** An unknown email and a wrong password get the same status but different
      bodies ("User not found" and "Invalid Credentials"), so the endpoint
      tells a caller whether an account exists. */
  lemma LoginRevealsAccountExistence(deps1: AuthDeps, deps2: AuthDeps, req: LoginRequest)
    requires deps1.findByEmail(req.email) == Err(NotFound)
    requires deps2.findByEmail(req.email).Ok?
    requires !deps2.verifyPassword(deps2.findByEmail(req.email).value.password, req.password)
    ensures LoginEndpoint(deps1, req).status == LoginEndpoint(deps2, req).status == StatusUnauthorized
    ensures LoginEndpoint(deps1, req).body != LoginEndpoint(deps2, req).body
  {
    UnknownUserIsNotFound(deps1, req);
    WrongPasswordIsInvalidCredentials(deps2, req);
  }
}
