/** The registration path of the user-service followed by the login path of
    the auth-service, over a shared user table. */
module Flows {
  import opened Common
  import opened Uuids
  import opened UserModel
  import opened UserService
  import opened UserHandler
  import opened AuthService
  import opened AuthHandler

  /** A user registered with valid input, whose stored record the login
      lookup then finds, can log in with the same email and plaintext
      password, provided that the password verifier accepts every hash
      against its own plaintext and the token can be encoded. */
  lemma RegisteredUserCanLogIn(udeps: UserDeps, adeps: AuthDeps, u: NewUser, stored: User)
    requires forall p :: adeps.verifyPassword(udeps.hash(p), p)
    requires ValidateNewUser(u, udeps.isEmail).Ok?
    requires udeps.insert(RecordForRepository(u, udeps.hash)) == Ok(stored)
    requires stored.password == RecordForRepository(u, udeps.hash).password
    requires adeps.findByEmail(u.email) == Ok(stored)
    requires adeps.secret.Some? && adeps.encode(TokenClaims(UuidToString(stored.id)), adeps.secret.value).Ok?
    ensures CreateUserHandler(udeps, u).status == StatusOk
    ensures LoginEndpoint(adeps, LoginRequest(u.email, u.password))
         == HttpResponse(StatusOk, JsonBody(LoginResponseJson(LoginResponse(
              adeps.encode(TokenClaims(UuidToString(stored.id)), adeps.secret.value).value))))
  {
    assert adeps.verifyPassword(udeps.hash(u.password), u.password);
  }
}
