/** Properties of the login handler that relate its outcome to the
    answers of the lookup, the password check and the signer. */
module LoginProperties {
  import opened Common
  import opened Http
  import opened Claims
  import opened AuthController

  /** An unknown email yields 404; the password is never checked, nothing
      is signed, and neither the password checker nor the signer can
      influence the outcome. */
  lemma UnknownEmail(
    cred: Credentials, nowMs: nat, find: string -> Call<Option<UserRecord>>,
    validate: (string, string) -> Call<bool>, sign: Claim -> Call<string>,
    validate': (string, string) -> Call<bool>, sign': Claim -> Call<string>)
    requires find(cred.email) == Returned(None)
    ensures Login(cred, nowMs, find, validate, sign) == LoginRun([FindUserByEmail(cred.email)], UserNotFound)
    ensures Login(cred, nowMs, find, validate, sign) == Login(cred, nowMs, find, validate', sign')
  {
  }

  /** A found user whose password does not match yields 400 and nothing
      is signed. */
  lemma WrongPasswordNoToken(
    cred: Credentials, nowMs: nat, find: string -> Call<Option<UserRecord>>,
    validate: (string, string) -> Call<bool>, sign: Claim -> Call<string>, sign': Claim -> Call<string>)
    requires find(cred.email).Returned? && find(cred.email).value.Some?
    requires validate(cred.password, find(cred.email).value.value.password) == Returned(false)
    ensures var run := Login(cred, nowMs, find, validate, sign);
            && run.response == WrongPassword
            && |run.steps| == 2
            && !run.response.body.TokenBody?
    ensures Login(cred, nowMs, find, validate, sign) == Login(cred, nowMs, find, validate, sign')
  {
  }

  /** A 200 carries a token signed over exactly `{ id, email, role }` of
      the user the lookup returned, after that user's password matched. */
  lemma SuccessSignsStoredIdentity(
    cred: Credentials, nowMs: nat, find: string -> Call<Option<UserRecord>>,
    validate: (string, string) -> Call<bool>, sign: Claim -> Call<string>)
    requires Login(cred, nowMs, find, validate, sign).response.status == Ok
    ensures var run := Login(cred, nowMs, find, validate, sign);
            exists user: UserRecord ::
              && find(cred.email) == Returned(Some(user))
              && validate(cred.password, user.password) == Returned(true)
              && run.steps[2].claim.identity == Identity(user.id, user.email, user.role)
              && sign(run.steps[2].claim).Returned?
              && run.response.body == TokenBody(true, LoginMessage, sign(run.steps[2].claim).value)
  {
  }

  /** Conversely, a stored user with a matching password and a signer that
      does not throw always gets a 200 with the signer's token. */
  lemma MatchingCredentialsLogIn(
    cred: Credentials, nowMs: nat, find: string -> Call<Option<UserRecord>>,
    validate: (string, string) -> Call<bool>, sign: Claim -> Call<string>, user: UserRecord)
    requires find(cred.email) == Returned(Some(user))
    requires validate(cred.password, user.password) == Returned(true)
    requires sign(IssuedClaim(user, nowMs)).Returned?
    ensures Login(cred, nowMs, find, validate, sign).response
            == Response(Ok, TokenBody(true, LoginMessage, sign(IssuedClaim(user, nowMs)).value))
  {
  }

  /** Whatever is signed was issued at the current second and expires one
      day later. */
  lemma SignedClaimLastsOneDay(
    cred: Credentials, nowMs: nat, find: string -> Call<Option<UserRecord>>,
    validate: (string, string) -> Call<bool>, sign: Claim -> Call<string>, c: Claim)
    requires SignToken(c) in Login(cred, nowMs, find, validate, sign).steps
    ensures c.iat == nowMs / 1000
    ensures c.exp == c.iat + TokenLifetime
  {
  }

  /** Signing happens only after the lookup found a user and that user's
      password matched. */
  lemma SignOnlyAfterChecks(
    cred: Credentials, nowMs: nat, find: string -> Call<Option<UserRecord>>,
    validate: (string, string) -> Call<bool>, sign: Claim -> Call<string>, c: Claim)
    requires SignToken(c) in Login(cred, nowMs, find, validate, sign).steps
    ensures find(cred.email).Returned? && find(cred.email).value.Some?
    ensures validate(cred.password, find(cred.email).value.value.password) == Returned(true)
    ensures Login(cred, nowMs, find, validate, sign).steps[..2]
            == [FindUserByEmail(cred.email), ValidatePassword(cred.password, find(cred.email).value.value.password)]
  {
  }

  /** The 500 answer is sent exactly when one of the calls made threw. */
  lemma FailureIffSomeCallThrew(
    cred: Credentials, nowMs: nat, find: string -> Call<Option<UserRecord>>,
    validate: (string, string) -> Call<bool>, sign: Claim -> Call<string>)
    ensures var run := Login(cred, nowMs, find, validate, sign);
            run.response == LoginFailed <==>
              || find(cred.email) == Threw
              || (|run.steps| >= 2 && validate(cred.password, find(cred.email).value.value.password) == Threw)
              || (|run.steps| == 3 && sign(run.steps[2].claim) == Threw)
  {
  }

  /** A token is in the response exactly when the status is 200. */
  lemma TokenOnlyOnSuccess(
    cred: Credentials, nowMs: nat, find: string -> Call<Option<UserRecord>>,
    validate: (string, string) -> Call<bool>, sign: Claim -> Call<string>)
    ensures var run := Login(cred, nowMs, find, validate, sign);
            run.response.body.TokenBody? <==> run.response.status == Ok
  {
  }
}
