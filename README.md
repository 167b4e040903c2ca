# Register and login paths of resume-api, in Dafny

This project models the decision logic of two small Rust microservices.
The **auth-service** logs a user in: it looks the user up by email,
verifies the password against the stored Argon2 hash, and mints a JWT
whose claims are the user's id (`sub`) and a fixed expiry (`exp`). It also
defines an `AuthError` type with its HTTP rendering. The **user-service**
registers users: it validates the input (username length, email format,
password length and strength), replaces the password by its hash, and
stores the record. It also has a handler that accepts or refuses an
`Authorization: Bearer <token>` header.

Everything in this core is pure. It becomes datatypes, functions and
lemmas, one module per modelled source file, plus four supporting modules
(`Common`, `Uuids`, `Database`, `Flows`) that model no single file. The
collaborators are parameters, and so are the decision points outside this
code:

- the database lookup and insert: functions `string -> Result<User, DbError>`
  (`find_by_email`) and `NewUser -> Result<User, DbError>` (`create_user`);
- Argon2 `hash_password` and `verify_password`: functions `string -> string`
  and `(hash, plaintext) -> bool`;
- `jsonwebtoken::encode` and `decode`;
- the email rule of the validator crate;
- the `SECRET` environment variable: an `Option<string>`.

Files:

- `common.dfy`: `Option`, `Result`, the JSON and HTTP response shapes, and `strip_prefix`.
- `uuids.dfy`: `Uuid::to_string`, and a proof that it is injective.
- `database.dfy`: the diesel error type, and how diesel displays it.
- `user_model.dfy`: the validator.
- `auth_errors.dfy` and `error_response.dfy`: `AuthError`, its display strings and its HTTP rendering.
- `auth_service.dfy` and `auth_handler.dfy`: the login path.
- `validate_token.dfy`: the bearer-header handler.
- `user_service.dfy` and `user_handler.dfy`: the registration path.
- `flows.dfy`: registration followed by login.

Some behaviours of the code differ from what a reader of a login service
might expect. The model states them as the code has them:

- An unknown email is answered `"User not found"`, not "invalid
  credentials". A wrong password is answered `"Invalid Credentials"`. Both
  get status 401, with different bodies (`AuthHandler.LoginRevealsAccountExistence`).
- A database failure or a token failure at login is answered 401, not 500.
- `authenticate` never builds an `AuthError`. The 404 and 500 codes of
  `ErrorResponse.StatusCode` are therefore never produced by the login
  endpoint.
- The created user is answered 200 with the user serialised as JSON,
  including its `password` field (the stored hash).

The token lifetime `3600 * 60` is written into `exp` as an absolute value
(216000). Under section 4.1.4 of RFC 7519 that is an instant on 3 January
1970, long past at any time a token is issued. The model states `exp` as
this constant and leaves expiry checking to the abstract decoder.

## Model

| member | source | states |
|---|---|---|
| `UserModel.AnyChar` | auth-service/src/models/user.rs:40-43 | `chars().any(p)` holds iff some character of the string satisfies `p` |
| `UserModel.ValidatePasswordStrength` | auth-service/src/models/user.rs:39-49 | passes iff the password contains an upper-case letter, a lower-case letter, a decimal digit and a non-alphanumeric character; a failure carries the code `password_strength` |
| `UserModel.StrengthMonotone` | auth-service/src/models/user.rs:40-45 | adding characters before or after a passing password keeps it passing |
| `UserModel.StrongNeedsFourChars` | auth-service/src/models/user.rs:40-45 | the four classes are disjoint, so a passing password has at least four characters |
| `UserModel.PasswordExamples` | auth-service/src/models/user.rs:39-49 | `"Password123!"` passes; `"weakpass"` has no upper-case letter, digit or special character, and fails with `password_strength` |
| `UserModel.LengthErrors` | auth-service/src/models/user.rs:18 | a length rule reports nothing iff the character count is within its bounds, and otherwise exactly one `length` error |
| `UserModel.NewUserErrors` | auth-service/src/models/user.rs:17-25 | the username has an error iff its length is outside 3..50; the email has one iff the email rule fails; the password has one iff it is shorter than 8 or not strong; the username and email entries are one `length` and one `email` error, and the password entry is a `length` error exactly when it is shorter than 8 followed by a `password_strength` error exactly when it is not strong |
| `UserModel.ValidateNewUser` | auth-service/src/models/user.rs:15-25 | `validate()` succeeds iff username length is in 3..50, the email is well formed, and the password has at least 8 characters and is strong; on failure it returns the non-empty error map |
| `UserModel.NewUserExamples` | auth-service/src/models/user.rs:17-25 | the valid test user passes; `"weakpass"`, username `"tu"` and `"invalid_email"` each fail with exactly one error, on the expected field with the expected code |
| `UserModel.UpdateUserErrors` | auth-service/src/models/user.rs:27-37 | an absent field is never reported; a present one is reported under the same conditions as for a new user and with the same codes (`length`; `email`; `length` before `password_strength` for the password) |
| `UserModel.ValidateUpdateUser` | auth-service/src/models/user.rs:27-37 | `validate()` succeeds iff every present field meets the new-user rule for that field; on failure it carries the non-empty `UpdateUserErrors` map |
| `UserModel.UpdateWithAllFieldsIsNewUser` | auth-service/src/models/user.rs:29-36 | an update with every field present gets exactly the errors a new user with those values gets |
| `UserModel.EmptyUpdateIsValid` | auth-service/src/models/user.rs:30-36 | an update with no field present is valid |
| `AuthErrors.Display` | auth-service/src/errors/error.rs:4-16 | `UserNotFound`, `InvalidCredentials` and `InternalServerError` display exactly their fixed strings; a string starts with `"Database error: "` iff it is a `DatabaseError`'s, and the rest is the wrapped error's display |
| `AuthErrors.FromDbError` | auth-service/src/errors/error.rs:5-6 | converting a diesel error gives the `DatabaseError` that wraps exactly that error, and it displays as `"Database error: "` followed by that error's display |
| `AuthErrors.DisplayDeterminesVariant` | auth-service/src/errors/error.rs:4-16 | equal display strings mean the same variant, and for database errors the same wrapped display |
| `ErrorResponse.StatusCode` | auth-service/src/errors/error_response.rs:8-15 | 500 iff `DatabaseError` or `InternalServerError`, 404 iff `UserNotFound`, 401 iff `InvalidCredentials` |
| `ErrorResponse.StatusCodeRange` | auth-service/src/errors/error_response.rs:9-14 | each of 401, 404 and 500 is the code of some error, so the range of `status_code` is exactly {401, 404, 500} |
| `ErrorResponse.ErrorResponse` | auth-service/src/errors/error_response.rs:17-20 | the status equals `status_code()`; the body is a JSON object whose only key is `"error"`, holding the display string |
| `ErrorResponse.ErrorResponseDeterminesVariant` | auth-service/src/errors/error_response.rs:17-20 | two errors with the same body have the same variant (and, for database errors, the same whole response) |
| `AuthService.TokenClaims` | auth-service/src/services/auth_service.rs:35-39 | the claims' `sub` is the given user id and `exp` is 216000 whatever the user |
| `AuthService.GenerateToken` | auth-service/src/services/auth_service.rs:34-46 | an unset secret gives `Err("SECRET not set")`; otherwise the result is exactly the encoder's result for those claims and that secret |
| `AuthService.Authenticate` | auth-service/src/services/auth_service.rs:11-32 | succeeds iff the lookup found a user, `verify_password(stored hash, given password)` holds and the token could be made; the token is the one minted for that user; every failure is one of the four fixed strings |
| `AuthService.TokenCarriesUserClaims` | auth-service/src/services/auth_service.rs:17-22 | a successful login encoded `Claims{sub: id.to_string(), exp: 216000}` of the matched user under the configured secret |
| `AuthService.SubjectIdentifiesUser` | auth-service/src/services/auth_service.rs:20 | on two successful logins, the claims each handed to the encoder are the matched user's, and they are equal iff the two users' ids are equal: the `sub` claim identifies the user |
| `AuthService.UnknownUserIsNotFound` | auth-service/src/services/auth_service.rs:29 | a `NotFound` lookup gives `Err("User not found")` whatever the verifier, secret and encoder |
| `AuthService.LookupFailureIsErrorOccurred` | auth-service/src/services/auth_service.rs:30 | any other lookup error gives `Err("Error occurred")` |
| `AuthService.WrongPasswordIsInvalidCredentials` | auth-service/src/services/auth_service.rs:19-27 | a found user whose hash does not verify the password gives `Err("Invalid Credentials")` whatever the secret and encoder |
| `AuthService.EncodingFailureIsTokenNotCreated` | auth-service/src/services/auth_service.rs:21-23 | matching credentials with an unset secret or a failing encoder give `Err("Token not created!")` |
| `AuthService.ResultDeterminesPath` | auth-service/src/services/auth_service.rs:17-31 | the failure strings are pairwise distinct: the result alone tells which of the five branches was taken, in both directions |
| `AuthHandler.LoginResponseJson` | auth-service/src/handlers/auth.rs:12 | a `LoginResponse` serialises as an object whose only key `"token"` holds the token |
| `AuthHandler.Login` | auth-service/src/handlers/auth.rs:11-14 | the status is 200 iff the result is `Ok`, with the response as JSON, and otherwise 401 with the error string as body; no other status |
| `AuthHandler.LoginEndpoint` | auth-service/src/handlers/auth.rs:8-14 | `login` answers only 200 or 401; 200 iff `authenticate` succeeded; a 401 carries its failure string as the body |
| `AuthHandler.LoginOkIffCredentialsMatch` | auth-service/src/handlers/auth.rs:9-14 | the endpoint answers 200 iff the credentials match and a token was made, and the body then carries that token |
| `AuthHandler.LoginFailuresAreUnauthorized` | auth-service/src/handlers/auth.rs:13 | the login endpoint never answers 404 or 500; a lookup failure is 401; a 401 body is one of the four failure strings |
| `AuthHandler.LoginRevealsAccountExistence` | auth-service/src/handlers/auth.rs:13 | an unknown email and a wrong password get the same 401 but different bodies |
| `Common.StripPrefix` | user-service/src/utils/validate_token.rs:17 | `strip_prefix` gives a result iff the string starts with the exact prefix, and prefix plus result is the string |
| `ValidateToken.GetHeader` | user-service/src/utils/validate_token.rs:13 | `headers().get` finds a value iff some header has the name (names compared without regard to ASCII case), and gives the first such header's value |
| `ValidateToken.HeaderToStr` | user-service/src/utils/validate_token.rs:16 | `to_str` succeeds iff every octet is tab or in 32..126, and then gives the same characters |
| `ValidateToken.AsciiRoundTrip` | user-service/src/utils/validate_token.rs:16 | visible ASCII text sent as octets reads back unchanged |
| `ValidateToken.BearerToken` | user-service/src/utils/validate_token.rs:15-21 | a token is extracted iff the `Authorization` header is present, its value is visible ASCII and it starts with `"Bearer "`; the value is then `"Bearer "` followed by that token |
| `ValidateToken.BearerHeaderYieldsToken` | user-service/src/utils/validate_token.rs:13-21 | whatever the other headers, an `Authorization` value that reads as `"Bearer " + x` yields exactly `x` |
| `ValidateToken.ValidateToken` | user-service/src/utils/validate_token.rs:12-32 | no usable bearer header gives 401 even without a secret; with a secret the answer is always 200 or 401 with an empty body; 200 iff a token was extracted and decodes; a token with no secret panics |
| `ValidateToken.TokenIsHeaderWithoutPrefix` | user-service/src/utils/validate_token.rs:17 | the decoded token is the header text with exactly its first 7 characters, `"Bearer "`, removed |
| `ValidateToken.BearerHeaderRoundTrip` | user-service/src/utils/validate_token.rs:13-21 | a first `Authorization: Bearer <t>` header in visible ASCII yields exactly `t` |
| `ValidateToken.LowerCaseSchemeIsRefused` | user-service/src/utils/validate_token.rs:17-20 | `authorization: bearer abc` is answered 401: the prefix match is case-sensitive |
| `ValidateToken.NonVisibleHeaderIsRefused` | user-service/src/utils/validate_token.rs:16-20 | a header value with an octet outside visible ASCII is answered 401 |
| `UserService.RecordForRepository` | user-service/src/services/user_service.rs:13-16 | the record keeps the username and the email, and its password is the hash of the given password |
| `UserService.CreateUser` | user-service/src/services/user_service.rs:9-19 | the repository gets the hashed record; its `Ok(user)` is returned unchanged, its error as `Err(e.to_string())` |
| `UserService.RepositoryOnlySeesHashedRecord` | user-service/src/services/user_service.rs:13-18 | the result depends on the repository only through the hashed record |
| `UserHandler.UserJson` | user-service/src/handlers/user_handler.rs:19 | a user serialises as an object with keys `id`, `username`, `email`, `password`, holding the id string, the username, the email and the stored password hash |
| `UserHandler.CreateUserHandler` | user-service/src/handlers/user_handler.rs:9-22 | status is only 200, 400 or 500; 400 iff validation fails, with a JSON string body starting `"Invalid input: "`; 200 iff valid and the service succeeded, with the user as JSON; 500 carries the service's message as body |
| `UserHandler.InvalidInputNeverReachesService` | user-service/src/handlers/user_handler.rs:14-18 | invalid input gets the same 400 response whatever the hasher and repository are |
| `UserHandler.ValidInputOutcomes` | user-service/src/handlers/user_handler.rs:18-21 | valid input whose insert fails is answered 500 with the diesel error's display; one whose insert succeeds is answered 200 with the stored user |
| `UserHandler.RegistrationExamples` | user-service/src/handlers/user_handler.rs:14-16 | the weak password, the two-letter username and the malformed email are answered 400; the valid user is not |
| `Uuids.UuidToString` | auth-service/src/services/auth_service.rs:20 | `id.to_string()` is 36 characters long |
| `Uuids.UuidGroups` | auth-service/src/services/auth_service.rs:20 | the text is five hex groups for 4, 2, 2, 2 and 6 bytes, with hyphens at positions 8, 13, 18 and 23 |
| `Uuids.UuidToStringInjective` | auth-service/src/services/auth_service.rs:20 | distinct ids have distinct strings, so `sub` names one user |
| `Flows.RegisteredUserCanLogIn` | auth-service/src/services/auth_service.rs:17-22 | a user registered with valid input can log in with the same email and password (200 and that user's token), if the verifier accepts each hash against its own plaintext, the lookup finds the stored record and encoding succeeds |

## Left out

- Argon2 hashing and verification are foreign cryptography with random salts. They are parameters. The model assumes that a malformed hash makes `verify_password` return false rather than fail. A hashing failure panics inside `hash_password`; that panic is not modelled.
- JWT encoding and decoding (HS256, signature and expiry validation) happen inside the jsonwebtoken crate. They are parameters. An encoder error reaches the model only as a string.
- The email-format rule of the validator crate is a library regex and is a parameter `isEmail`. The `Display` form of `ValidationErrors` is likewise the parameter `renderErrors`.
- UserModel.ValidatePasswordStrength: classes characters on the ASCII range only. Rust's `is_uppercase`, `is_lowercase` and `is_alphanumeric` follow Unicode tables, so a non-ASCII letter such as `É` counts as special here but as a letter in Rust. Decimal digits (`is_digit(10)`) are ASCII in both.
- The validator crate's codes (`length`, `email`) come from that crate. Within one field, errors are kept in attribute order; the crate's own ordering is not modelled.
- user-service/src/models/user.rs is not part of this model. The user-service's `User` and `NewUser` are taken to have the fields and validation rules of auth-service/src/models/user.rs.
- The rate limiter (actix-governor, with its fixed key and 10/10 configuration) is library state shared across concurrent requests. It is left out, and so is the 429 answer.
- Database access (connection pool, SQL, the `expect` on pool checkout) is I/O. The lookup and the insert are function parameters.
- The Kafka producer, server bootstrap, route registration and migrations are network and framework wiring.
- Reading `SECRET` from the environment is modelled as an `Option` parameter. In `validate_token` an unset secret after a usable header is the `Panic` reply; the panic itself is not modelled further.
- ValidateToken.GetHeader: models the http crate's header map as a list searched for the first header whose name matches without regard to ASCII case; multi-valued header handling beyond "first value" is not modelled.
- Database.DbErrorDisplay: diesel's `Display` is taken as given: `"Record not found"` for `NotFound`, and the error's own message otherwise. The code only calls `to_string()` on the error and promises nothing about the text, so this function carries no contract of its own.
- The integration tests need a live database. They are used only as example inputs.
