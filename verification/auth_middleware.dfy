/** The authentication gate (`authenticate`) and the authorization gate
    (`authorize`) of the Express middleware. The token verifier is a
    parameter: it answers with the decoded claim, with an error (bad
    signature, expired, malformed), or by throwing. */
module AuthMiddleware {
  import opened Common
  import opened JsString
  import opened Http
  import opened Claims

  /** The request as the gates see it: the `Authorization` header, if any,
      and the identity attached by a successful authentication. */
  datatype Request = Request(authorization: Option<string>, user: Option<Claim>)

  /** What the token verifier reports to its callback, or that it threw. */
  datatype Verdict = Valid(decoded: Claim) | Invalid | Raised

  /** A gate either sends one response and stops, or calls `next` once with
      the (possibly extended) request. */
  datatype GateResult = Halt(response: Response) | Continue(request: Request)

  const MissingHeader := Response(Unauthorized, ErrorBody("Token não fornecido no cabeçalho Authorization."))
  const MalformedHeader := Response(Unauthorized, ErrorBody("Formato do cabeçalho Authorization inválido. Token ausente."))
  const InvalidToken := Response(Unauthorized, ErrorBody("Token inválido ou expirado."))
  const AuthenticationError := Response(InternalServerError, ErrorBody("Erro interno ao processar a autenticação."))
  const NotAuthenticated := Response(Unauthorized, ErrorBody("Usuário não autenticado. Realize o login novamente."))

  const DeniedPrefix := "Seu perfil ("
  const DeniedSuffix := ") não tem permissão para acessar esta rota."

  /** The 403 response, naming the rejected role. */
  function Denied(role: string): Response
  {
    Response(Forbidden, DeniedBody("Acesso negado.", DeniedPrefix + role + DeniedSuffix))
  }

  /** `header.split(" ")[1]`: the second space-separated piece, if any. */
  function BearerToken(header: string): Option<string>
  {
    At(Split(header, ' '), 1)
  }

  /** The token the authentication gate hands to the verifier: the second
      piece of a truthy header, when that piece is itself truthy. */
  function PresentedToken(req: Request): (t: Option<string>)
    ensures t.Some? ==> IsTruthy(req.authorization) && t.value != ""
  {
    if IsTruthy(req.authorization) && IsTruthy(BearerToken(req.authorization.value))
    then BearerToken(req.authorization.value)
    else None
  }

  /** The authentication gate. */
  function Authenticate(req: Request, verify: string -> Verdict): (r: GateResult)
    ensures !IsTruthy(req.authorization) ==> r == Halt(MissingHeader)
    ensures IsTruthy(req.authorization) && PresentedToken(req).None? ==> r == Halt(MalformedHeader)
    ensures r.Continue? <==> PresentedToken(req).Some? && verify(PresentedToken(req).value).Valid?
    ensures r.Continue? ==> r.request == req.(user := Some(verify(PresentedToken(req).value).decoded))
    ensures r == Halt(InvalidToken) <==> PresentedToken(req).Some? && verify(PresentedToken(req).value) == Invalid
    ensures r == Halt(AuthenticationError) <==> PresentedToken(req).Some? && verify(PresentedToken(req).value) == Raised
    ensures r.Halt? ==> r.response in {MissingHeader, MalformedHeader, InvalidToken, AuthenticationError}
  {
    if !IsTruthy(req.authorization) then Halt(MissingHeader)
    else
      var token := BearerToken(req.authorization.value);
      if !IsTruthy(token) then Halt(MalformedHeader)
      else
        match verify(token.value)
        case Invalid => Halt(InvalidToken)
        case Raised => Halt(AuthenticationError)
        case Valid(claim) => Continue(req.(user := Some(claim)))
  }

  /** The authorization gate built by `authorize(roles)`, applied to a
      request. */
  function Authorize(roles: seq<string>, req: Request): (r: GateResult)
    ensures req.user.None? ==> r == Halt(NotAuthenticated)
    ensures req.user.Some? ==> (r.Continue? <==> req.user.value.Role() in roles)
    ensures r.Continue? ==> r.request == req
    ensures req.user.Some? && req.user.value.Role() !in roles ==> r == Halt(Denied(req.user.value.Role()))
  {
    match req.user
    case None => Halt(NotAuthenticated)
    case Some(user) =>
      if !Includes(roles, user.Role()) then Halt(Denied(user.Role()))
      else Continue(req)
  }

  /** A scan over the header that finds the token without building the
      list of pieces: the text between the first space and the next one. */
  method ScanToken(header: string) returns (token: Option<string>)
    ensures token == BearerToken(header)
  {
    var i := 0;
    while i < |header| && header[i] != ' '
      invariant i <= |header|
      invariant ' ' !in header[..i]
    {
      i := i + 1;
    }
    if i == |header| {
      assert header[..i] == header;
      SplitWithoutSeparator(header, ' ');
      return None;
    }
    var j := i + 1;
    while j < |header| && header[j] != ' '
      invariant i + 1 <= j <= |header|
      invariant ' ' !in header[i + 1..j]
    {
      j := j + 1;
    }
    var rest := header[i + 1..];
    assert header == header[..i] + [' '] + rest;
    SplitAtFirstSeparator(header[..i], rest, ' ');
    assert rest[..j - (i + 1)] == header[i + 1..j];
    FirstPiece(rest, j - (i + 1), ' ');
    token := Some(header[i + 1..j]);
  }
}
