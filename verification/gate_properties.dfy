/** Properties of the two gates that relate several calls or pin the
    header split down at the level of characters. */
module GateProperties {
  import opened Common
  import opened JsString
  import opened Http
  import opened Claims
  import opened AuthMiddleware

  /** A header without a space has no second piece, so the gate answers
      "malformed" (or "missing", when the header is empty). */
  lemma NoSpaceNoToken(header: string)
    requires ' ' !in header
    ensures BearerToken(header) == None
  {
    SplitWithoutSeparator(header, ' ');
  }

  /** The token is the text after the first space, up to the next space or
      the end; whatever precedes the first space is not looked at. */
  lemma TokenAfterFirstSpace(scheme: string, rest: string)
    requires ' ' !in scheme
    ensures BearerToken(scheme + " " + rest) == Some(Split(rest, ' ')[0])
  {
    SplitAtFirstSeparator(scheme, rest, ' ');
    assert [scheme] + Split(rest, ' ') == Split(scheme + " " + rest, ' ');
  }

  /** Pieces after the second are ignored: `"<scheme> <tok> <anything>"`
      and `"<scheme> <tok>"` both present `tok`. */
  lemma ExtraPiecesIgnored(scheme: string, tok: string, extra: string)
    requires ' ' !in scheme && ' ' !in tok
    ensures BearerToken(scheme + " " + tok + " " + extra) == Some(tok)
    ensures BearerToken(scheme + " " + tok) == Some(tok)
  {
    assert scheme + " " + tok + " " + extra == scheme + " " + (tok + " " + extra);
    TokenAfterFirstSpace(scheme, tok + " " + extra);
    SplitAtFirstSeparator(tok, extra, ' ');
    assert tok + [' '] + extra == tok + " " + extra;
    TokenAfterFirstSpace(scheme, tok);
    SplitWithoutSeparator(tok, ' ');
  }

  /** What the verifier is handed, for every shape of header: nothing when
      the header has no space, and otherwise the word after the first space
      (up to the next space or the end) exactly when that word is
      non-empty. */
  lemma PresentedTokenIsSecondWord(scheme: string, tok: string, extra: string, header: string, user: Option<Claim>)
    requires ' ' !in scheme && ' ' !in tok
    ensures PresentedToken(Request(Some(scheme + " " + tok + " " + extra), user))
            == (if tok == "" then None else Some(tok))
    ensures PresentedToken(Request(Some(scheme + " " + tok), user))
            == (if tok == "" then None else Some(tok))
    ensures ' ' !in header ==> PresentedToken(Request(Some(header), user)) == None
  {
    ExtraPiecesIgnored(scheme, tok, extra);
    if ' ' !in header {
      NoSpaceNoToken(header);
    }
  }

  /** The scheme word is never checked: replacing it by any other
      space-free word changes neither the response nor the attached
      identity. */
  lemma SchemeNeverChecked(s1: string, s2: string, rest: string, user: Option<Claim>, verify: string -> Verdict)
    requires ' ' !in s1 && ' ' !in s2
    ensures var r1 := Authenticate(Request(Some(s1 + " " + rest), user), verify);
            var r2 := Authenticate(Request(Some(s2 + " " + rest), user), verify);
            && r1.Halt? == r2.Halt?
            && (r1.Halt? ==> r1.response == r2.response)
            && (r1.Continue? ==> r1.request.user == r2.request.user)
  {
    TokenAfterFirstSpace(s1, rest);
    TokenAfterFirstSpace(s2, rest);
    assert (s1 + " " + rest) != "" && (s2 + " " + rest) != "";
  }

  /** Concrete headers: `"Bearer"` has no second piece, `"Bearer "` an
      empty one, `" abc"` presents `abc` with an empty scheme, and
      `"Bearer a b"` presents `a`. */
  lemma HeaderExamples()
    ensures BearerToken("Bearer") == None
    ensures BearerToken("Bearer ") == Some("")
    ensures BearerToken(" abc") == Some("abc")
    ensures BearerToken("Bearer a b") == Some("a")
    ensures BearerToken("X tok extra") == Some("tok")
  {
    NoSpaceNoToken("Bearer");
    TokenAfterFirstSpace("Bearer", "");
    ExtraPiecesIgnored("", "abc", "");
    assert "" + " " + "abc" == " abc";
    ExtraPiecesIgnored("Bearer", "a", "b");
    assert "Bearer" + " " + "a" + " " + "b" == "Bearer a b";
    ExtraPiecesIgnored("X", "tok", "extra");
    assert "X" + " " + "tok" + " " + "extra" == "X tok extra";
  }

  /** When no token is presented the verifier is never consulted: any two
      verifiers give the same outcome. */
  lemma VerifierNotConsultedWithoutToken(req: Request, v1: string -> Verdict, v2: string -> Verdict)
    requires PresentedToken(req).None?
    ensures Authenticate(req, v1) == Authenticate(req, v2)
    ensures Authenticate(req, v1).Halt?
  {
  }

  /** The verifier is consulted on the presented token only: verifiers that
      agree on it give the same outcome. */
  lemma VerifierConsultedOnTokenOnly(req: Request, v1: string -> Verdict, v2: string -> Verdict)
    requires PresentedToken(req).Some? && v1(PresentedToken(req).value) == v2(PresentedToken(req).value)
    ensures Authenticate(req, v1) == Authenticate(req, v2)
  {
  }

  /** Every run of the authentication gate ends in exactly one of five
      outcomes: four responses (three 401s and one 500) or a call to `next`
      with the decoded claim attached and the header untouched. */
  lemma AuthenticateOutcomes(req: Request, verify: string -> Verdict)
    ensures var r := Authenticate(req, verify);
            || (r.Halt? && r.response.status == Unauthorized && r.response != AuthenticationError)
            || (r.Halt? && r.response == AuthenticationError && r.response.status == InternalServerError)
            || (r.Continue? && r.request.authorization == req.authorization && r.request.user.Some?)
  {
  }

  /** With no authenticated user the authorization gate answers 401,
      whatever its allow-list. */
  lemma UnauthenticatedWhateverRoles(roles: seq<string>, others: seq<string>, req: Request)
    requires req.user.None?
    ensures Authorize(roles, req) == Authorize(others, req) == Halt(NotAuthenticated)
  {
  }

  /** An empty allow-list admits nobody. */
  lemma EmptyAllowListRejectsAll(req: Request)
    ensures Authorize([], req).Halt?
  {
  }

  /** Only the set of listed roles matters, not their order or repetition. */
  lemma AllowListActsAsSet(roles: seq<string>, others: seq<string>, req: Request)
    requires (set r | r in roles) == (set r | r in others)
    ensures Authorize(roles, req) == Authorize(others, req)
  {
    if req.user.Some? {
      var role := req.user.value.Role();
      var listed, otherListed := set r | r in roles, set r | r in others;
      if role in roles {
        assert role in listed;
        assert role in otherListed;
      }
      if role in others {
        assert role in otherListed;
        assert role in listed;
      }
    }
  }

  /** Widening an allow-list never rejects a request it admitted. */
  lemma AllowListMonotone(roles: seq<string>, wider: seq<string>, req: Request)
    requires forall r :: r in roles ==> r in wider
    ensures Authorize(roles, req).Continue? ==> Authorize(wider, req).Continue?
  {
  }

  /** Roles are flat and compared exactly: a role admits only routes that
      list that very string, so `Admin` does not inherit `Manager` and
      `admin` is not `Admin`. */
  lemma NoRoleHierarchy(claim: Claim, auth: Option<string>)
    requires claim.Role() == "Admin"
    ensures Authorize(["Manager"], Request(auth, Some(claim))) == Halt(Denied("Admin"))
    ensures Authorize(["admin"], Request(auth, Some(claim))).Halt?
    ensures Authorize(["Manager", "Admin"], Request(auth, Some(claim))).Continue?
  {
  }

  /** The 403 message names the rejected role, and different roles give
      different messages. */
  lemma DeniedNamesRole(role: string, other: string)
    ensures var m := Denied(role).body.message;
            |m| == |DeniedPrefix| + |role| + |DeniedSuffix|
            && m[|DeniedPrefix|..|DeniedPrefix| + |role|] == role
    ensures Denied(role) == Denied(other) ==> role == other
  {
  }
}
