/**
 * The registration rules: one chain each for username, e-mail and password,
 * every validator followed by `bail`. The e-mail chain's last validator asks
 * the user store whether the address is already registered.
 */
module Validation {
  import opened Wrappers
  import opened Chains
  import opened UserService

  const USERNAME_NULL: string := "Username cannot be null"
  const USERNAME_SIZE: string := "Must have min 4 and max 32 characters"
  const EMAIL_NULL: string := "E-mail cannot be null"
  const EMAIL_INVALID: string := "E-mail is not valid"
  const EMAIL_IN_USE: string := "E-mail in use"
  const PASSWORD_NULL: string := "Password cannot be null"
  /** The message promises six characters; the length rule demands five. */
  const PASSWORD_SIZE: string := "Password must be at least 6 characters"

  const USERNAME_MIN: nat := 4
  const USERNAME_MAX: nat := 32
  const PASSWORD_MIN: nat := 5

  function UsernameChain(): (c: Chain)
    ensures c.field == "username" && BailsAfterEach(c.steps)
  {
    Chain("username", [
      Check(NotEmpty, Some(USERNAME_NULL)),
      Bail,
      Check(IsLength(USERNAME_MIN, Some(USERNAME_MAX)), Some(USERNAME_SIZE))])
  }

  /** The custom uniqueness rule: throws "E-mail in use" when a user already has the address. */
  function EmailNotInUse(users: UserStore): Validator {
    Custom((v: Value) => if FindByEmail(users, AsString(v)).Some? then Some(EMAIL_IN_USE) else None)
  }

  function EmailChain(users: UserStore): (c: Chain)
    ensures c.field == "email" && BailsAfterEach(c.steps)
  {
    Chain("email", [
      Check(NotEmpty, Some(EMAIL_NULL)),
      Bail,
      Check(IsEmail, Some(EMAIL_INVALID)),
      Bail,
      Check(EmailNotInUse(users), None)])
  }

  function PasswordChain(): (c: Chain)
    ensures c.field == "password" && BailsAfterEach(c.steps)
  {
    Chain("password", [
      Check(NotEmpty, Some(PASSWORD_NULL)),
      Bail,
      Check(IsLength(PASSWORD_MIN, None), Some(PASSWORD_SIZE))])
  }

  function RegistrationChains(users: UserStore): (cs: seq<Chain>)
    ensures |cs| == 3 && cs[0].field == "username" && cs[1].field == "email" && cs[2].field == "password"
  {
    [UsernameChain(), EmailChain(users), PasswordChain()]
  }

  function Username(body: Body): string {
    AsString(FieldValue(body, "username"))
  }

  function Email(body: Body): string {
    AsString(FieldValue(body, "email"))
  }

  function Password(body: Body): string {
    AsString(FieldValue(body, "password"))
  }

  predicate EmailTaken(users: UserStore, email: string) {
    exists i :: 0 <= i < |users| && users[i].email == email
  }

  /**
   * An empty or missing username reports only "Username cannot be null";
   * otherwise the username fails exactly when its length is outside 4..32.
   */
  lemma UsernameVerdict(body: Body, isEmail: EmailShape)
    ensures RunChain(UsernameChain(), body, isEmail) ==
      if |Username(body)| == 0 then [FieldError("username", USERNAME_NULL)]
      else if 4 <= |Username(body)| <= 32 then []
      else [FieldError("username", USERNAME_SIZE)]
  {
    var c := UsernameChain();
    var value := FieldValue(body, c.field);
    BailedChainReportsFirstFailure(c.steps, value, isEmail);
    FirstFailureOfTwo(NotEmpty, Some(USERNAME_NULL), IsLength(USERNAME_MIN, Some(USERNAME_MAX)),
                      Some(USERNAME_SIZE), value, isEmail);
  }

  /**
   * The e-mail rules in order: not empty, well formed, not in use; the first
   * failure is the only one reported.
   */
  lemma EmailVerdict(body: Body, users: UserStore, isEmail: EmailShape)
    ensures RunChain(EmailChain(users), body, isEmail) ==
      if |Email(body)| == 0 then [FieldError("email", EMAIL_NULL)]
      else if !isEmail(Email(body)) then [FieldError("email", EMAIL_INVALID)]
      else if EmailTaken(users, Email(body)) then [FieldError("email", EMAIL_IN_USE)]
      else []
  {
    var c := EmailChain(users);
    var value := FieldValue(body, c.field);
    BailedChainReportsFirstFailure(c.steps, value, isEmail);
    FirstFailureOfThree(NotEmpty, Some(EMAIL_NULL), IsEmail, Some(EMAIL_INVALID),
                        EmailNotInUse(users), None, value, isEmail);
    EmailNotInUseOutcome(users, value, isEmail);
  }

  /** The uniqueness rule fails exactly when some user already has the address. */
  lemma EmailNotInUseOutcome(users: UserStore, value: Value, isEmail: EmailShape)
    ensures CheckOutcome(EmailNotInUse(users), None, value, isEmail) ==
      if EmailTaken(users, AsString(value)) then Some(EMAIL_IN_USE) else None
  {
    assert Outcome(EmailNotInUse(users), value, isEmail) ==
      if FindByEmail(users, AsString(value)).Some? then Some(EMAIL_IN_USE) else None;
  }

  /** The store is consulted only for a non-empty, well-formed address. */
  lemma EmailLookupOnlyWhenWellFormed(body: Body, users1: UserStore, users2: UserStore, isEmail: EmailShape)
    requires |Email(body)| == 0 || !isEmail(Email(body))
    ensures RunChain(EmailChain(users1), body, isEmail) == RunChain(EmailChain(users2), body, isEmail)
  {
    EmailVerdict(body, users1, isEmail);
    EmailVerdict(body, users2, isEmail);
  }

  /**
   * An empty or missing password reports "Password cannot be null"; otherwise
   * it fails exactly when shorter than five characters.
   */
  lemma PasswordVerdict(body: Body, isEmail: EmailShape)
    ensures RunChain(PasswordChain(), body, isEmail) ==
      if |Password(body)| == 0 then [FieldError("password", PASSWORD_NULL)]
      else if |Password(body)| < 5 then [FieldError("password", PASSWORD_SIZE)]
      else []
  {
    var c := PasswordChain();
    var value := FieldValue(body, c.field);
    BailedChainReportsFirstFailure(c.steps, value, isEmail);
    FirstFailureOfTwo(NotEmpty, Some(PASSWORD_NULL), IsLength(PASSWORD_MIN, None),
                      Some(PASSWORD_SIZE), value, isEmail);
  }

  /** The registration errors: the username's, then the e-mail's, then the password's. */
  lemma RegistrationErrors(body: Body, users: UserStore, isEmail: EmailShape)
    ensures ValidationResult(RegistrationChains(users), body, isEmail) ==
      RunChain(UsernameChain(), body, isEmail)
      + RunChain(EmailChain(users), body, isEmail)
      + RunChain(PasswordChain(), body, isEmail)
  {
    ValidationResultOfThree(UsernameChain(), EmailChain(users), PasswordChain(), body, isEmail);
  }

  /** Registration validation passes exactly when every field's rules pass. */
  lemma RegistrationValidIff(body: Body, users: UserStore, isEmail: EmailShape)
    ensures ValidationResult(RegistrationChains(users), body, isEmail) == [] <==>
      && 4 <= |Username(body)| <= 32
      && |Email(body)| > 0 && isEmail(Email(body)) && !EmailTaken(users, Email(body))
      && |Password(body)| >= 5
  {
    RegistrationErrors(body, users, isEmail);
    UsernameVerdict(body, isEmail);
    EmailVerdict(body, users, isEmail);
    PasswordVerdict(body, isEmail);
  }
}
