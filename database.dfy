/** The values that cross the boundary to the database collaborator. The
    repositories themselves (connection pool, SQL) are not modelled: the
    lookup and the insert are functions returning `Result<User, DbError>`,
    passed as parameters to the code that uses them. */
module Database {

  /** `diesel::result::Error`, reduced to the one case the services match on
      (`NotFound`) and every other failure with its message. */
  datatype DbError = NotFound | Other(message: string)

  /** `to_string()` of a diesel error, as diesel defines it: "Record not
      found" for `NotFound`, and its own message for any other error. This is
      library behaviour taken as given, not a property of this code. */
  function DbErrorDisplay(e: DbError): string {
    match e
    case NotFound => "Record not found"
    case Other(m) => m
  }
}
