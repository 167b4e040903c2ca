/** The auth-service error type of auth-service/src/errors/error.rs: four
    variants with fixed display strings, one of which wraps a database
    error and is produced by the `From` conversion. */
module AuthErrors {
  import opened Common
  import opened Database

  datatype AuthError =
    | DatabaseError(source: DbError)
    | UserNotFound
    | InvalidCredentials
    | InternalServerError

  const DatabaseErrorPrefix: string := "Database error: "

  /** The `Display` strings given by the `#[error(...)]` attributes. */
  function Display(e: AuthError): (s: string)
    ensures e.DatabaseError? <==> StartsWith(s, DatabaseErrorPrefix)
    ensures e.DatabaseError? ==> s[|DatabaseErrorPrefix|..] == DbErrorDisplay(e.source)
    ensures e.UserNotFound? <==> s == "User not found"
    ensures e.InvalidCredentials? <==> s == "Invalid credentials"
    ensures e.InternalServerError? <==> s == "Internal server error"
  {
    match e
    case DatabaseError(d) =>
      var s := DatabaseErrorPrefix + DbErrorDisplay(d);
      assert s[..|DatabaseErrorPrefix|] == DatabaseErrorPrefix && s[|DatabaseErrorPrefix|..] == DbErrorDisplay(d);
      assert s[0] == 'D';
      s
    case UserNotFound => "User not found"
    case InvalidCredentials =>
      assert "Invalid credentials"[0] != DatabaseErrorPrefix[0];
      "Invalid credentials"
    case InternalServerError =>
      assert "Internal server error"[0] != DatabaseErrorPrefix[0];
      "Internal server error"
  }

  /** `impl From<diesel::result::Error> for AuthError`, derived by `#[from]`. */
  function FromDbError(d: DbError): (e: AuthError)
    ensures e == DatabaseError(d)
    ensures Display(e) == DatabaseErrorPrefix + DbErrorDisplay(d)
  {
    DatabaseError(d)
  }

  /** The display string tells the variant apart, and for a database error
      it carries the database error's own display. */
  lemma DisplayDeterminesVariant(a: AuthError, b: AuthError)
    requires Display(a) == Display(b)
    ensures a.DatabaseError? <==> b.DatabaseError?
    ensures !a.DatabaseError? ==> a == b
    ensures a.DatabaseError? ==> DbErrorDisplay(a.source) == DbErrorDisplay(b.source)
  {
  }
}
