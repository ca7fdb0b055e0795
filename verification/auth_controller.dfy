/** The login handler: look the user up by email, check the password,
    sign `{ id, email, role }` for one day, and answer once. The database
    lookup, the password comparison and the token signer are parameters;
    each either returns or throws. */
module AuthController {
  import opened Common
  import opened Http
  import opened Claims

  /** The stored user: `password` is the hash, and `name` stands for the
      profile fields that login never reads. */
  datatype UserRecord = UserRecord(id: string, name: string, email: string, password: string, role: string)

  /** The login request body `{ email, password }`. */
  datatype Credentials = Credentials(email: string, password: string)

  /** One call the handler makes into code it does not own. */
  datatype Step =
    | FindUserByEmail(email: string)
    | ValidatePassword(plain: string, hash: string)
    | SignToken(claim: Claim)

  /** A run of the handler: the calls it made, in order, and the one
      response it sent. */
  datatype LoginRun = LoginRun(steps: seq<Step>, response: Response)

  const UserNotFound := Response(NotFound, MessageBody("Usuário não encontrado"))
  const WrongPassword := Response(BadRequest, MessageBody("Senha incorreta"))
  const LoginFailed := Response(InternalServerError, MessageBody("Erro ao realizar login"))
  const LoginMessage := "Login realizado com sucesso!"

  /** The claim the signer produces for `user` at wall-clock time `nowMs`
      (milliseconds): the payload `{ id, email, role }`, issued at the
      current whole second and expiring one day later. */
  function IssuedClaim(user: UserRecord, nowMs: nat): (c: Claim)
    ensures c.identity.id == user.id && c.identity.email == user.email && c.identity.role == user.role
    ensures c.iat * 1000 <= nowMs < c.iat * 1000 + 1000
    ensures c.exp - c.iat == 86400
  {
    var iat := nowMs / 1000;
    Claim(Identity(user.id, user.email, user.role), iat, iat + TokenLifetime)
  }

  /** The order the handler's calls must follow: lookup, then password
      check, then signing, each only after the previous one. */
  predicate InOrder(steps: seq<Step>)
  {
    && 1 <= |steps| <= 3
    && steps[0].FindUserByEmail?
    && (|steps| >= 2 ==> steps[1].ValidatePassword?)
    && (|steps| == 3 ==> steps[2].SignToken?)
  }

  /** The login handler. */
  function Login(
    cred: Credentials,
    nowMs: nat,
    find: string -> Call<Option<UserRecord>>,
    validate: (string, string) -> Call<bool>,
    sign: Claim -> Call<string>
  ): (run: LoginRun)
    ensures InOrder(run.steps)
    ensures run.steps[0] == FindUserByEmail(cred.email)
    ensures |run.steps| >= 2 <==> find(cred.email).Returned? && find(cred.email).value.Some?
    ensures |run.steps| >= 2 ==>
              run.steps[1] == ValidatePassword(cred.password, find(cred.email).value.value.password)
    ensures |run.steps| == 3 <==>
              |run.steps| >= 2 && validate(cred.password, find(cred.email).value.value.password) == Returned(true)
    ensures |run.steps| == 3 ==> run.steps[2] == SignToken(IssuedClaim(find(cred.email).value.value, nowMs))
    ensures run.response.status == Ok <==> |run.steps| == 3 && sign(run.steps[2].claim).Returned?
    ensures run.response.status == Ok ==>
              run.response == Response(Ok, TokenBody(true, LoginMessage, sign(run.steps[2].claim).value))
    ensures run.response.status != Ok ==> run.response in {UserNotFound, WrongPassword, LoginFailed}
  {
    var lookup := [FindUserByEmail(cred.email)];
    match find(cred.email)
    case Threw => LoginRun(lookup, LoginFailed)
    case Returned(None) => LoginRun(lookup, UserNotFound)
    case Returned(Some(user)) =>
      var checked := lookup + [ValidatePassword(cred.password, user.password)];
      match validate(cred.password, user.password)
      case Threw => LoginRun(checked, LoginFailed)
      case Returned(false) => LoginRun(checked, WrongPassword)
      case Returned(true) =>
        var claim := IssuedClaim(user, nowMs);
        var signed := checked + [SignToken(claim)];
        match sign(claim)
        case Threw => LoginRun(signed, LoginFailed)
        case Returned(token) => LoginRun(signed, Response(Ok, TokenBody(true, LoginMessage, token)))
  }
}
