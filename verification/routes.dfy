/** The two protected routes: the authentication gate followed by the
    authorization gate with the route's allow-list. */
module Routes {
  import opened Common
  import opened Claims
  import opened AuthMiddleware

  /** `GET /admin` admits `Admin` only. */
  const AdminRoles: seq<string> := ["Admin"]
  /** `GET /manager` lists both roles it admits. */
  const ManagerRoles: seq<string> := ["Manager", "Admin"]

  /** `authenticate` then `authorize(roles)`: the second gate runs only if
      the first called `next`. */
  function Protect(roles: seq<string>, req: Request, verify: string -> Verdict): (r: GateResult)
    ensures r.Continue? <==>
              PresentedToken(req).Some?
              && verify(PresentedToken(req).value).Valid?
              && verify(PresentedToken(req).value).decoded.Role() in roles
    ensures r.Halt? && Authenticate(req, verify).Continue? ==>
              r.response == Denied(verify(PresentedToken(req).value).decoded.Role())
    ensures r.Halt? && Authenticate(req, verify).Halt? ==> r == Authenticate(req, verify)
  {
    match Authenticate(req, verify)
    case Halt(response) => Halt(response)
    case Continue(authenticated) => Authorize(roles, authenticated)
  }

  /** Behind the authentication gate, the authorization gate's own 401 can
      never be sent. */
  lemma NeverUnauthenticatedBehindGate(roles: seq<string>, req: Request, verify: string -> Verdict)
    ensures Protect(roles, req, verify) != Halt(NotAuthenticated)
  {
  }

  /** `GET /admin` without an `Authorization` header: 401, missing token. */
  lemma AdminWithoutHeader(user: Option<Claim>, verify: string -> Verdict)
    ensures Protect(AdminRoles, Request(None, user), verify) == Halt(MissingHeader)
  {
  }

  /** `GET /admin` with a valid Manager token: 403. */
  lemma AdminRejectsManager(header: string, verify: string -> Verdict, claim: Claim)
    requires BearerToken(header) == Some("t")
    requires verify("t") == Valid(claim) && claim.Role() == "Manager"
    ensures Protect(AdminRoles, Request(Some(header), None), verify) == Halt(Denied("Manager"))
  {
  }

  /** `GET /manager` with a valid Admin token: admitted. */
  lemma ManagerAdmitsAdmin(header: string, verify: string -> Verdict, claim: Claim)
    requires BearerToken(header) == Some("t")
    requires verify("t") == Valid(claim) && claim.Role() == "Admin"
    ensures Protect(ManagerRoles, Request(Some(header), None), verify).Continue?
  {
  }
}
