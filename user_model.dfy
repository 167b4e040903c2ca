/** The user records and the registration input rules of
    auth-service/src/models/user.rs: the `#[validate]` attributes on
    `NewUser` and `UpdateUser` and the custom `validate_password_strength`
    check. The email-format rule belongs to the validator crate and is a
    parameter `isEmail` here. */
module UserModel {
  import opened Common
  import opened Uuids

  /** A stored user; `password` holds the Argon2 hash string. */
  datatype User = User(id: Uuid, username: string, email: string, password: string)

  /** A registration request, and the record inserted into the database. */
  datatype NewUser = NewUser(username: string, email: string, password: string)

  /** A partial update: only the fields that are present are checked. */
  datatype UpdateUser = UpdateUser(username: Option<string>, email: Option<string>, password: Option<string>)

  /** `validator::ValidationError`, reduced to its code. */
  datatype ValidationError = ValidationError(code: string)

  datatype Field = Username | Email | Password

  /** `validator::ValidationErrors`: the failing fields, each with the errors
      of its rules in the order the attributes are written. A field with no
      error has no entry. */
  type ValidationErrors = map<Field, seq<ValidationError>>

  const UsernameMinLength: nat := 3
  const UsernameMaxLength: nat := 50
  const PasswordMinLength: nat := 8

  /** The codes the validator crate gives its built-in rules, and the code of the custom rule. */
  const LengthCode: string := "length"
  const EmailCode: string := "email"
  const PasswordStrengthCode: string := "password_strength"

  // Character classes, on the ASCII range (see README: Left out).
  predicate IsUppercase(c: char) { 'A' <= c <= 'Z' }
  predicate IsLowercase(c: char) { 'a' <= c <= 'z' }
  predicate IsDecimalDigit(c: char) { '0' <= c <= '9' }
  predicate IsAlphanumeric(c: char) { IsUppercase(c) || IsLowercase(c) || IsDecimalDigit(c) }
  predicate IsSpecial(c: char) { !IsAlphanumeric(c) }

  /** `s.chars().any(p)`. */
  function AnyChar(s: string, p: char -> bool): (b: bool)
    ensures b <==> exists i :: 0 <= i < |s| && p(s[i])
  {
    if s == [] then false
    else if p(s[0]) then true
    else
      assert forall i :: 1 <= i < |s| ==> s[i] == s[1..][i - 1];
      AnyChar(s[1..], p)
  }

  /** The strength rule as a property of the password's characters: one of
      each of the four classes occurs somewhere in it. */
  ghost predicate Strong(password: string) {
    && (exists i :: 0 <= i < |password| && IsUppercase(password[i]))
    && (exists i :: 0 <= i < |password| && IsLowercase(password[i]))
    && (exists i :: 0 <= i < |password| && IsDecimalDigit(password[i]))
    && (exists i :: 0 <= i < |password| && IsSpecial(password[i]))
  }

  /** `validate_password_strength`. */
  function ValidatePasswordStrength(password: string): (r: Result<(), ValidationError>)
    ensures r.Ok? <==> Strong(password)
    ensures r.Err? ==> r.error.code == PasswordStrengthCode
  {
    var hasUpper := AnyChar(password, IsUppercase);
    var hasLower := AnyChar(password, IsLowercase);
    var hasDigit := AnyChar(password, IsDecimalDigit);
    var hasSpecial := AnyChar(password, IsSpecial);
    if hasUpper && hasLower && hasDigit && hasSpecial then Ok(())
    else Err(ValidationError(PasswordStrengthCode))
  }

  /** Each condition is an `any`, so adding characters on either side of a
      strong password keeps it strong. */
  lemma StrengthMonotone(password: string, before: string, after: string)
    requires ValidatePasswordStrength(password).Ok?
    ensures ValidatePasswordStrength(before + password + after).Ok?
  {
    var s := before + password + after;
    forall i | 0 <= i < |password| ensures s[|before| + i] == password[i] {
    }
    var u :| 0 <= u < |password| && IsUppercase(password[u]);
    var l :| 0 <= l < |password| && IsLowercase(password[l]);
    var d :| 0 <= d < |password| && IsDecimalDigit(password[d]);
    var x :| 0 <= x < |password| && IsSpecial(password[x]);
    assert IsUppercase(s[|before| + u]) && IsLowercase(s[|before| + l]);
    assert IsDecimalDigit(s[|before| + d]) && IsSpecial(s[|before| + x]);
  }

  /** The four classes are pairwise disjoint, so a strong password has at
      least four characters. */
  lemma StrongNeedsFourChars(password: string)
    requires ValidatePasswordStrength(password).Ok?
    ensures |password| >= 4
  {
    var u :| 0 <= u < |password| && IsUppercase(password[u]);
    var l :| 0 <= l < |password| && IsLowercase(password[l]);
    var d :| 0 <= d < |password| && IsDecimalDigit(password[d]);
    var x :| 0 <= x < |password| && IsSpecial(password[x]);
    assert u != l && u != d && u != x && l != d && l != x && d != x;
  }

  /** A `length(min = .., max = ..)` rule, counting characters. */
  function LengthErrors(s: string, min: nat, max: Option<nat>): (errs: seq<ValidationError>)
    ensures errs == [] <==> min <= |s| && (max.Some? ==> |s| <= max.value)
    ensures errs != [] ==> errs == [ValidationError(LengthCode)]
  {
    if min <= |s| && (max.None? || |s| <= max.value) then [] else [ValidationError(LengthCode)]
  }

  function UsernameErrors(username: string): seq<ValidationError> {
    LengthErrors(username, UsernameMinLength, Some(UsernameMaxLength))
  }

  function EmailErrors(email: string, isEmail: string -> bool): seq<ValidationError> {
    if isEmail(email) then [] else [ValidationError(EmailCode)]
  }

  /** The password's two rules: length first, then the custom strength check. */
  function PasswordErrors(password: string): seq<ValidationError> {
    LengthErrors(password, PasswordMinLength, None)
      + (match ValidatePasswordStrength(password)
         case Ok(_) => []
         case Err(e) => [e])
  }

  /** Adds a field's errors to the collection unless there are none. */
  function AddField(errs: ValidationErrors, f: Field, fieldErrs: seq<ValidationError>): ValidationErrors {
    if fieldErrs == [] then errs else errs[f := fieldErrs]
  }

  /** The errors of the rules on a `NewUser`. */
  function NewUserErrors(u: NewUser, isEmail: string -> bool): (errs: ValidationErrors)
    ensures Username in errs <==> !(UsernameMinLength <= |u.username| <= UsernameMaxLength)
    ensures Email in errs <==> !isEmail(u.email)
    ensures Password in errs <==> |u.password| < PasswordMinLength || !Strong(u.password)
    ensures Username in errs ==> errs[Username] == [ValidationError(LengthCode)]
    ensures Email in errs ==> errs[Email] == [ValidationError(EmailCode)]
    ensures Password in errs ==>
      errs[Password] == (if |u.password| < PasswordMinLength then [ValidationError(LengthCode)] else [])
                        + (if Strong(u.password) then [] else [ValidationError(PasswordStrengthCode)])
  {
    var e0 := AddField(map[], Username, UsernameErrors(u.username));
    var e1 := AddField(e0, Email, EmailErrors(u.email, isEmail));
    AddField(e1, Password, PasswordErrors(u.password))
  }

  /** `NewUser::validate()`. */
  function ValidateNewUser(u: NewUser, isEmail: string -> bool): (r: Result<(), ValidationErrors>)
    ensures r.Ok? <==>
      && UsernameMinLength <= |u.username| <= UsernameMaxLength
      && isEmail(u.email)
      && |u.password| >= PasswordMinLength
      && Strong(u.password)
    ensures r.Err? ==> r.error == NewUserErrors(u, isEmail) && r.error != map[]
  {
    var errs := NewUserErrors(u, isEmail);
    if errs == map[] then Ok(())
    else Err(errs)
  }

  /** The errors of the rules on an `UpdateUser`: an absent field is not checked. */
  function UpdateUserErrors(u: UpdateUser, isEmail: string -> bool): (errs: ValidationErrors)
    ensures Username in errs <==> u.username.Some? && !(UsernameMinLength <= |u.username.value| <= UsernameMaxLength)
    ensures Email in errs <==> u.email.Some? && !isEmail(u.email.value)
    ensures Password in errs <==> u.password.Some? && (|u.password.value| < PasswordMinLength || !Strong(u.password.value))
    ensures Username in errs ==> errs[Username] == [ValidationError(LengthCode)]
    ensures Email in errs ==> errs[Email] == [ValidationError(EmailCode)]
    ensures Password in errs ==>
      errs[Password] == (if |u.password.value| < PasswordMinLength then [ValidationError(LengthCode)] else [])
                        + (if Strong(u.password.value) then [] else [ValidationError(PasswordStrengthCode)])
  {
    var e0 := if u.username.Some? then AddField(map[], Username, UsernameErrors(u.username.value)) else map[];
    var e1 := if u.email.Some? then AddField(e0, Email, EmailErrors(u.email.value, isEmail)) else e0;
    if u.password.Some? then AddField(e1, Password, PasswordErrors(u.password.value)) else e1
  }

  /** `UpdateUser::validate()`. */
  function ValidateUpdateUser(u: UpdateUser, isEmail: string -> bool): (r: Result<(), ValidationErrors>)
    ensures r.Ok? <==>
      && (u.username.Some? ==> UsernameMinLength <= |u.username.value| <= UsernameMaxLength)
      && (u.email.Some? ==> isEmail(u.email.value))
      && (u.password.Some? ==> |u.password.value| >= PasswordMinLength && Strong(u.password.value))
    ensures r.Err? ==> r.error == UpdateUserErrors(u, isEmail) && r.error != map[]
  {
    var errs := UpdateUserErrors(u, isEmail);
    if errs == map[] then Ok(())
    else Err(errs)
  }

  /** An update that sets every field is held to exactly the rules of a new
      user, with the same errors. */
  lemma UpdateWithAllFieldsIsNewUser(u: NewUser, isEmail: string -> bool)
    ensures UpdateUserErrors(UpdateUser(Some(u.username), Some(u.email), Some(u.password)), isEmail)
         == NewUserErrors(u, isEmail)
  {
  }

  /** An update that sets nothing is always valid. */
  lemma EmptyUpdateIsValid(isEmail: string -> bool)
    ensures ValidateUpdateUser(UpdateUser(None, None, None), isEmail) == Ok(())
  {
  }

  /** The passwords of the registration examples: "Password123!" passes and
      "weakpass" has no upper-case letter, no digit and no special character. */
  lemma PasswordExamples()
    ensures ValidatePasswordStrength("Password123!").Ok?
    ensures !AnyChar("weakpass", IsUppercase) && !AnyChar("weakpass", IsDecimalDigit) && !AnyChar("weakpass", IsSpecial)
    ensures ValidatePasswordStrength("weakpass") == Err(ValidationError(PasswordStrengthCode))
  {
    var p := "Password123!";
    assert IsUppercase(p[0]) && IsLowercase(p[1]) && IsDecimalDigit(p[8]) && IsSpecial(p[11]);
    var w := "weakpass";
    assert forall i :: 0 <= i < |w| ==> IsLowercase(w[i]) by {
      forall i | 0 <= i < |w| ensures IsLowercase(w[i]) {
        assert w[i] in {'w', 'e', 'a', 'k', 'p', 's'};
      }
    }
  }

  /** The registration examples: a valid user, a weak password, a two-letter
      username and a malformed email, each with the errors it gets. */
  lemma NewUserExamples(isEmail: string -> bool)
    requires isEmail("testuser@example.com") && !isEmail("invalid_email")
    ensures ValidateNewUser(NewUser("testuser", "testuser@example.com", "Password123!"), isEmail) == Ok(())
    ensures ValidateNewUser(NewUser("testuser", "testuser@example.com", "weakpass"), isEmail)
         == Err(map[Password := [ValidationError(PasswordStrengthCode)]])
    ensures ValidateNewUser(NewUser("tu", "testuser@example.com", "Password123!"), isEmail)
         == Err(map[Username := [ValidationError(LengthCode)]])
    ensures ValidateNewUser(NewUser("testuser", "invalid_email", "Password123!"), isEmail)
         == Err(map[Email := [ValidationError(EmailCode)]])
  {
    PasswordExamples();
    assert PasswordErrors("Password123!") == [];
    assert PasswordErrors("weakpass") == [ValidationError(PasswordStrengthCode)];
    assert UsernameErrors("testuser") == [] && UsernameErrors("tu") == [ValidationError(LengthCode)];
  }
}
