/** `AuthService::authenticate` and `generate_token` of
    auth-service/src/services/auth_service.rs: look the user up by email,
    verify the password against the stored hash, and mint a JWT whose
    claims are the stringified user id (`sub`, section 4.1.2 of RFC 7519)
    and a fixed expiry (`exp`, section 4.1.4 of RFC 7519). Every
    collaborator is a parameter; `authenticate` answers with plain strings
    and never builds an `AuthError`. */
module AuthService {
  import opened Common
  import opened Uuids
  import opened Database
  import opened UserModel

  datatype LoginRequest = LoginRequest(email: string, password: string)

  datatype LoginResponse = LoginResponse(token: string)

  datatype Claims = Claims(sub: string, exp: nat)

  /** `3600 * 60` seconds. Used as the absolute `exp` value, it is an instant
      on 3 January 1970, not a time relative to the issuing clock. */
  const Expiration: nat := 3600 * 60

  /** The collaborators of a login:
      `findByEmail` is `UserRepository::find_by_email`;
      `verifyPassword(hash, plaintext)` is `verify_password`, which gives false
      (and does not fail) on a malformed hash;
      `secret` is the value of the `SECRET` environment variable, if set;
      `encode(claims, secret)` is `jsonwebtoken::encode` with the default
      header (HS256), its error already turned into a string. */
  datatype AuthDeps = AuthDeps(
    findByEmail: string -> Result<User, DbError>,
    verifyPassword: (string, string) -> bool,
    secret: Option<string>,
    encode: (Claims, string) -> Result<string, string>)

  const SecretNotSet: string := "SECRET not set"
  const TokenNotCreated: string := "Token not created!"
  const InvalidCredentialsMessage: string := "Invalid Credentials"
  const UserNotFoundMessage: string := "User not found"
  const ErrorOccurred: string := "Error occurred"

  /** The claims of a token for `userId`: the subject is the id itself and the
      expiry does not depend on the user. */
  function TokenClaims(userId: string): (c: Claims)
    ensures c.sub == userId
    ensures c.exp == 216000
  {
    Claims(userId, Expiration)
  }

  /** `generate_token`: fails with "SECRET not set" when there is no secret,
      otherwise returns exactly what the encoder makes of the claims. */
  function GenerateToken(userId: string, secret: Option<string>, encode: (Claims, string) -> Result<string, string>)
    : (r: Result<string, string>)
    ensures secret.None? ==> r == Err(SecretNotSet)
    ensures secret.Some? ==> r == encode(TokenClaims(userId), secret.value)
  {
    match secret
    case None => Err(SecretNotSet)
    case Some(key) =>
      match encode(TokenClaims(userId), key)
      case Ok(token) => Ok(token)
      case Err(msg) => Err(msg)
  }

  /** The stored user matched the email and the password verified against its hash. */
  ghost predicate CredentialsMatch(deps: AuthDeps, req: LoginRequest) {
    && deps.findByEmail(req.email).Ok?
    && deps.verifyPassword(deps.findByEmail(req.email).value.password, req.password)
  }

  /** The token that `GenerateToken` would give the user the email matched. */
  function TokenFor(deps: AuthDeps, user: User): Result<string, string> {
    GenerateToken(UuidToString(user.id), deps.secret, deps.encode)
  }

  /** `AuthService::authenticate`. A token is returned exactly when the
      credentials match and the token could be made, and it is the token
      minted for the matched user. */
  function Authenticate(deps: AuthDeps, req: LoginRequest): (r: Result<LoginResponse, string>)
    ensures r.Ok? <==> CredentialsMatch(deps, req) && TokenFor(deps, deps.findByEmail(req.email).value).Ok?
    ensures r.Ok? ==> r.value.token == TokenFor(deps, deps.findByEmail(req.email).value).value
    ensures r.Err? ==> r.error in {TokenNotCreated, InvalidCredentialsMessage, UserNotFoundMessage, ErrorOccurred}
  {
    match deps.findByEmail(req.email)
    case Ok(user) =>
      if deps.verifyPassword(user.password, req.password) then
        match GenerateToken(UuidToString(user.id), deps.secret, deps.encode)
        case Ok(token) => Ok(LoginResponse(token))
        case Err(_) => Err(TokenNotCreated)
      else
        Err(InvalidCredentialsMessage)
    case Err(NotFound) => Err(UserNotFoundMessage)
    case Err(_) => Err(ErrorOccurred)
  }

  /** A successful login hands the encoder the claims of the matched user:
      its stringified id as subject and the fixed expiry, under the configured secret. */
  lemma TokenCarriesUserClaims(deps: AuthDeps, req: LoginRequest)
    ensures Authenticate(deps, req).Ok? ==>
      && deps.findByEmail(req.email).Ok? && deps.secret.Some?
      && deps.encode(Claims(UuidToString(deps.findByEmail(req.email).value.id), 216000), deps.secret.value)
         == Ok(Authenticate(deps, req).value.token)
  {
  }

  /** The claims handed to the encoder on two successful logins are equal
      exactly when the two logins matched the same user id: the subject
      identifies the user. */
  lemma SubjectIdentifiesUser(deps: AuthDeps, req1: LoginRequest, req2: LoginRequest)
    ensures Authenticate(deps, req1).Ok? && Authenticate(deps, req2).Ok? ==>
      && deps.findByEmail(req1.email).Ok? && deps.findByEmail(req2.email).Ok? && deps.secret.Some?
      && deps.encode(TokenClaims(UuidToString(deps.findByEmail(req1.email).value.id)), deps.secret.value)
         == Ok(Authenticate(deps, req1).value.token)
      && deps.encode(TokenClaims(UuidToString(deps.findByEmail(req2.email).value.id)), deps.secret.value)
         == Ok(Authenticate(deps, req2).value.token)
      && (TokenClaims(UuidToString(deps.findByEmail(req1.email).value.id))
            == TokenClaims(UuidToString(deps.findByEmail(req2.email).value.id))
          <==> deps.findByEmail(req1.email).value.id == deps.findByEmail(req2.email).value.id)
  {
    if Authenticate(deps, req1).Ok? && Authenticate(deps, req2).Ok? {
      UuidToStringInjective(deps.findByEmail(req1.email).value.id, deps.findByEmail(req2.email).value.id);
    }
  }

  /** An unknown email is answered "User not found" whatever the password
      verifier, the secret and the encoder are: verification is not attempted. */
  lemma UnknownUserIsNotFound(deps: AuthDeps, req: LoginRequest)
    requires deps.findByEmail(req.email) == Err(NotFound)
    ensures Authenticate(deps, req) == Err(UserNotFoundMessage)
  {
  }

  /** Any other lookup failure is answered "Error occurred". */
  lemma LookupFailureIsErrorOccurred(deps: AuthDeps, req: LoginRequest)
    requires deps.findByEmail(req.email).Err? && deps.findByEmail(req.email) != Err(NotFound)
    ensures Authenticate(deps, req) == Err(ErrorOccurred)
  {
  }

  /** A found user whose hash does not verify the password is answered
      "Invalid Credentials", whatever the secret and the encoder are. */
  lemma WrongPasswordIsInvalidCredentials(deps: AuthDeps, req: LoginRequest)
    requires deps.findByEmail(req.email).Ok?
    requires !deps.verifyPassword(deps.findByEmail(req.email).value.password, req.password)
    ensures Authenticate(deps, req) == Err(InvalidCredentialsMessage)
  {
  }

  /** When the credentials match but the token cannot be made, because
      `SECRET` is unset or the encoder fails, the answer is "Token not created!". */
  lemma EncodingFailureIsTokenNotCreated(deps: AuthDeps, req: LoginRequest)
    requires CredentialsMatch(deps, req)
    requires deps.secret.None? || deps.encode(TokenClaims(UuidToString(deps.findByEmail(req.email).value.id)), deps.secret.value).Err?
    ensures Authenticate(deps, req) == Err(TokenNotCreated)
  {
  }

  /** The ways a login can end. */
  datatype LoginPath = Issued | TokenFailed | WrongPassword | UnknownUser | LookupFailed

  /** Reads the path back from the result alone. */
  function PathOfResult(r: Result<LoginResponse, string>): LoginPath {
    if r.Ok? then Issued
    else if r.error == TokenNotCreated then TokenFailed
    else if r.error == InvalidCredentialsMessage then WrongPassword
    else if r.error == UserNotFoundMessage then UnknownUser
    else LookupFailed
  }

  /** The four failure strings are pairwise distinct, so the result of a login
      tells which branch was taken, in both directions. */
  lemma ResultDeterminesPath(deps: AuthDeps, req: LoginRequest)
    ensures var p := PathOfResult(Authenticate(deps, req));
      && (p == UnknownUser <==> deps.findByEmail(req.email) == Err(NotFound))
      && (p == LookupFailed <==> deps.findByEmail(req.email).Err? && deps.findByEmail(req.email) != Err(NotFound))
      && (p == WrongPassword <==> deps.findByEmail(req.email).Ok? && !CredentialsMatch(deps, req))
      && (p == TokenFailed <==> CredentialsMatch(deps, req) && TokenFor(deps, deps.findByEmail(req.email).value).Err?)
      && (p == Issued <==> CredentialsMatch(deps, req) && TokenFor(deps, deps.findByEmail(req.email).value).Ok?)
  {
    assert TokenNotCreated != InvalidCredentialsMessage && TokenNotCreated != UserNotFoundMessage;
    assert InvalidCredentialsMessage != UserNotFoundMessage;
    assert ErrorOccurred != TokenNotCreated && ErrorOccurred != InvalidCredentialsMessage && ErrorOccurred != UserNotFoundMessage;
  }
}
