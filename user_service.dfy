/** `UserService::create_user` of user-service/src/services/user_service.rs:
    replace the password by its hash, keep the other fields, hand the
    record to the repository and turn a repository error into its string. */
module UserService {
  import opened Common
  import opened Database
  import opened UserModel

  /** The record the repository receives: the input with only its password
      replaced by `hash(password)` (the `..new_user` struct update). */
  function RecordForRepository(u: NewUser, hash: string -> string): (rec: NewUser)
    ensures rec.username == u.username && rec.email == u.email
    ensures rec.password == hash(u.password)
  {
    u.(password := hash(u.password))
  }

  /** `UserService::create_user`. `hash` is `hash_password`, which unwraps
      its own failure, so its `Result` is never an error and the `expect`
      here never fires; `insert` is `UserRepository::create_user`. */
  function CreateUser(u: NewUser, hash: string -> string, insert: NewUser -> Result<User, DbError>)
    : (r: Result<User, string>)
    ensures var stored := insert(RecordForRepository(u, hash));
      && (stored.Ok? ==> r == Ok(stored.value))
      && (stored.Err? ==> r == Err(DbErrorDisplay(stored.error)))
  {
    var encryptedPassword := hash(u.password);
    var record := NewUser(u.username, u.email, encryptedPassword);
    match insert(record)
    case Ok(user) => Ok(user)
    case Err(e) => Err(DbErrorDisplay(e))
  }

  /** The repository is consulted only about the hashed record: two
      repositories that agree on it give the same result: the repository
      sees only the record with the hashed password. */
  lemma RepositoryOnlySeesHashedRecord(u: NewUser, hash: string -> string,
                                       insert1: NewUser -> Result<User, DbError>,
                                       insert2: NewUser -> Result<User, DbError>)
    requires insert1(RecordForRepository(u, hash)) == insert2(RecordForRepository(u, hash))
    ensures CreateUser(u, hash, insert1) == CreateUser(u, hash, insert2)
  {
  }
}
