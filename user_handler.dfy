/** The `create_user` handler of user-service/src/handlers/user_handler.rs:
    validate first and answer 400 on failure; otherwise call the service and
    answer 200 with the created user or 500 with the service's message. */
module UserHandler {
  import opened Common
  import opened Uuids
  import opened Database
  import opened UserModel
  import opened UserService

  /** The collaborators of a registration: the email rule of the validator
      crate, `hash_password`, `UserRepository::create_user`, and the
      `Display` of `ValidationErrors` used by `format!`. */
  datatype UserDeps = UserDeps(
    isEmail: string -> bool,
    hash: string -> string,
    insert: NewUser -> Result<User, DbError>,
    renderErrors: ValidationErrors -> string)

  const InvalidInputPrefix: string := "Invalid input: "

  /** The serde form of a `User`, fields in declaration order. */
  function UserJson(u: User): (j: Json)
    ensures j.JObject? && Keys(j.members) == ["id", "username", "email", "password"]
    ensures Lookup(j.members, "id") == Some(JString(UuidToString(u.id)))
    ensures Lookup(j.members, "username") == Some(JString(u.username))
    ensures Lookup(j.members, "email") == Some(JString(u.email))
    ensures Lookup(j.members, "password") == Some(JString(u.password))
  {
    var members := [("id", JString(UuidToString(u.id))), ("username", JString(u.username)),
                    ("email", JString(u.email)), ("password", JString(u.password))];
    FourMembers(members[0], members[1], members[2], members[3]);
    JObject(members)
  }

  /** `create_user`. The 400 body is the formatted message serialised as a
      JSON string. */
  function CreateUserHandler(deps: UserDeps, u: NewUser): (r: HttpResponse)
    ensures r.status in {StatusOk, StatusBadRequest, StatusInternalServerError}
    ensures r.status == StatusBadRequest <==> ValidateNewUser(u, deps.isEmail).Err?
    ensures r.status == StatusBadRequest ==>
      r.body.JsonBody? && r.body.json.JString? && StartsWith(r.body.json.text, InvalidInputPrefix)
    ensures r.status == StatusOk <==>
      ValidateNewUser(u, deps.isEmail).Ok? && CreateUser(u, deps.hash, deps.insert).Ok?
    ensures r.status == StatusOk ==> r.body == JsonBody(UserJson(CreateUser(u, deps.hash, deps.insert).value))
    ensures r.status == StatusInternalServerError ==> r.body == Text(CreateUser(u, deps.hash, deps.insert).error)
  {
    match ValidateNewUser(u, deps.isEmail)
    case Err(e) =>
      var message := InvalidInputPrefix + deps.renderErrors(e);
      assert message[..|InvalidInputPrefix|] == InvalidInputPrefix;
      HttpResponse(StatusBadRequest, JsonBody(JString(message)))
    case Ok(_) =>
      match CreateUser(u, deps.hash, deps.insert)
      case Ok(user) => HttpResponse(StatusOk, JsonBody(UserJson(user)))
      case Err(e) => HttpResponse(StatusInternalServerError, Text(e))
  }

  /** Input that fails validation never reaches the service: the answer is
      the same whatever the hasher and the repository are. */
  lemma InvalidInputNeverReachesService(isEmail: string -> bool, render: ValidationErrors -> string,
                                        hash1: string -> string, insert1: NewUser -> Result<User, DbError>,
                                        hash2: string -> string, insert2: NewUser -> Result<User, DbError>,
                                        u: NewUser)
    requires ValidateNewUser(u, isEmail).Err?
    ensures CreateUserHandler(UserDeps(isEmail, hash1, insert1, render), u)
         == CreateUserHandler(UserDeps(isEmail, hash2, insert2, render), u)
    ensures CreateUserHandler(UserDeps(isEmail, hash1, insert1, render), u)
         == HttpResponse(StatusBadRequest, JsonBody(JString(InvalidInputPrefix + render(ValidateNewUser(u, isEmail).error))))
  {
  }

  /** Valid input whose insert fails is answered 500 with the database
      error's display; one whose insert succeeds is answered 200 with the
      stored user. */
  lemma ValidInputOutcomes(deps: UserDeps, u: NewUser)
    requires ValidateNewUser(u, deps.isEmail).Ok?
    ensures var stored := deps.insert(RecordForRepository(u, deps.hash));
      && (stored.Err? ==> CreateUserHandler(deps, u) == HttpResponse(StatusInternalServerError, Text(DbErrorDisplay(stored.error))))
      && (stored.Ok? ==> CreateUserHandler(deps, u) == HttpResponse(StatusOk, JsonBody(UserJson(stored.value))))
  {
  }

  /** The registration examples at the endpoint: a weak password, a
      two-letter username and a malformed email are each answered 400, and
      the valid user is passed on to the repository. */
  lemma RegistrationExamples(deps: UserDeps)
    requires deps.isEmail("testuser@example.com") && !deps.isEmail("invalid_email")
    ensures CreateUserHandler(deps, NewUser("testuser", "testuser@example.com", "weakpass")).status == StatusBadRequest
    ensures CreateUserHandler(deps, NewUser("tu", "testuser@example.com", "Password123!")).status == StatusBadRequest
    ensures CreateUserHandler(deps, NewUser("testuser", "invalid_email", "Password123!")).status == StatusBadRequest
    ensures CreateUserHandler(deps, NewUser("testuser", "testuser@example.com", "Password123!")).status != StatusBadRequest
  {
    NewUserExamples(deps.isEmail);
  }
}
