# Authentication and authorization gates of the user API

This project is a Dafny model of the trust boundary of a small Express/TypeScript
user API. It covers three parts:

- **Authentication gate** (`authenticate`). It reads the `Authorization` header and
  takes the second space-separated piece as the bearer token. It asks the JWT verifier
  about that token. It then either sends one of four error responses or calls `next`
  with the decoded claim attached to the request.
- **Authorization gate** (`authorize(roles)`). It admits an authenticated user exactly
  when the user's role string is in the route's allow-list. A request with no user gets
  401. A user whose role is not listed gets 403, and the message names the rejected role.
- **Login handler** (`login`). It looks the user up by email, then checks the password,
  then signs `{ id, email, role }` for one day. It answers 404, 400, 200 with the token,
  or 500 when any of those calls throws.

Everything outside the modelled code enters as a parameter:
- The token verifier: `string -> Verdict`, which answers `Valid(claim)`, `Invalid` or `Raised`.
- The user lookup, the password comparison and the signer: functions returning
  `Call<T>`, which is either `Returned(value)` or `Threw`.
- The clock: a millisecond timestamp `nowMs`.

Each gate is a pure function of its request and these answers. The login handler also
returns the list of outside calls it made, in order. That list is what lets the model
state "the password is never checked" and "signing comes last".

JavaScript's `header.split(" ")[1]` is modelled exactly:
- `JsString.Split` and `JsString.Join` are proved to be inverse bijections. They map
  strings to non-empty lists of pieces that contain no separator.
- A hand-written scan, `AuthMiddleware.ScanToken`, is proved to find the same token as
  the split.

Layout: `common.dfy` (Option, Call), `js_string.dfy`, `http.dfy`, `claims.dfy`,
`auth_middleware.dfy` with `gate_properties.dfy`, `auth_controller.dfy` with
`login_properties.dfy`, and `routes.dfy` (the two protected routes).

Three facts about the code shape the model:
- Roles are plain, case-sensitive strings, not a closed enumeration.
- The 403 body names only the rejected role; the required roles go only to the server
  log (src/middlewares/authMiddleware.ts:51-55).
- Every verification error reported to the callback gives 401; only an exception thrown
  out of the verifier gives 500.

## Model

| member | source | states |
|---|---|---|
| JsString.Split | src/middlewares/authMiddleware.ts:14 | `split(" ")` always yields at least one piece, and no piece contains the separator |
| JsString.JoinSplit | src/middlewares/authMiddleware.ts:14 | joining the pieces of a split with the separator gives back the original header |
| JsString.SplitJoin | src/middlewares/authMiddleware.ts:14 | splitting a join of separator-free pieces gives back those pieces, so the split is unique |
| JsString.SplitWithoutSeparator | src/middlewares/authMiddleware.ts:14 | a header with no space splits into itself alone |
| JsString.SplitAtFirstSeparator | src/middlewares/authMiddleware.ts:14 | the text before the first space is the first piece, and the rest splits independently |
| JsString.FirstPiece | src/middlewares/authMiddleware.ts:14 | the first piece is the text up to the first space, or the whole string when there is none |
| JsString.Includes | src/middlewares/authMiddleware.ts:50 | `roles.includes(role)` is true exactly when the role string is an element of the list |
| AuthMiddleware.PresentedToken | src/middlewares/authMiddleware.ts:7-19 | a token reaches the verifier only if the header is truthy and the token is non-empty |
| AuthMiddleware.Authenticate | src/middlewares/authMiddleware.ts:5-36 | falsy header gives 401 missing; no token gives 401 malformed; verifier error gives 401 invalid; a throw gives 500; otherwise `next` with the decoded claim attached and nothing else changed |
| AuthMiddleware.Authorize | src/middlewares/authMiddleware.ts:39-59 | no user gives 401; otherwise `next` with the request unchanged exactly when the role is listed, else 403 naming the role |
| AuthMiddleware.ScanToken | src/middlewares/authMiddleware.ts:14 | scanning for the text between the first and the next space finds exactly `split(" ")[1]` |
| GateProperties.NoSpaceNoToken | src/middlewares/authMiddleware.ts:14-19 | a header without a space has no second piece |
| GateProperties.TokenAfterFirstSpace | src/middlewares/authMiddleware.ts:14 | the token is the first piece of what follows the first space, whatever precedes it |
| GateProperties.ExtraPiecesIgnored | src/middlewares/authMiddleware.ts:14 | pieces after the second are ignored: `"<s> <tok> <x>"` and `"<s> <tok>"` both present `tok` |
| GateProperties.PresentedTokenIsSecondWord | src/middlewares/authMiddleware.ts:7-21 | for every header shape, the verifier is handed the word after the first space exactly when that word is non-empty, and nothing when the header has no space |
| GateProperties.SchemeNeverChecked | src/middlewares/authMiddleware.ts:14-30 | swapping the scheme word for any other space-free word changes neither the response nor the attached identity |
| GateProperties.HeaderExamples | src/middlewares/authMiddleware.ts:14-19 | `"Bearer"` has no token, `"Bearer "` an empty one, `" abc"` gives `abc`, `"Bearer a b"` gives `a`, `"X tok extra"` gives `tok` |
| GateProperties.VerifierNotConsultedWithoutToken | src/middlewares/authMiddleware.ts:7-19 | when no token is presented the outcome is a rejection, and it is the same for every verifier |
| GateProperties.VerifierConsultedOnTokenOnly | src/middlewares/authMiddleware.ts:21-30 | the verifier is asked about the presented token only |
| GateProperties.AuthenticateOutcomes | src/middlewares/authMiddleware.ts:5-36 | every run ends in exactly one outcome: a 401, a 500, or `next` with the header untouched and a user attached |
| GateProperties.UnauthenticatedWhateverRoles | src/middlewares/authMiddleware.ts:42-47 | with no user attached, every allow-list gives the same 401 |
| GateProperties.EmptyAllowListRejectsAll | src/middlewares/authMiddleware.ts:49-57 | an empty allow-list admits nobody |
| GateProperties.AllowListActsAsSet | src/middlewares/authMiddleware.ts:50 | only the set of listed roles matters, not their order or repetition |
| GateProperties.AllowListMonotone | src/middlewares/authMiddleware.ts:50-59 | adding roles to an allow-list never rejects a request it admitted |
| GateProperties.NoRoleHierarchy | src/middlewares/authMiddleware.ts:49-59 | `Admin` is refused by `["Manager"]` and by `["admin"]`, and admitted by `["Manager","Admin"]` |
| GateProperties.DeniedNamesRole | src/middlewares/authMiddleware.ts:52-55 | the 403 message contains the rejected role at a fixed position, and distinct roles give distinct messages |
| AuthController.IssuedClaim | src/controllers/authController.ts:22-26 | the signed claim carries the user's id, email and role; it is issued at the current whole second and expires 86400 s later |
| AuthController.Login | src/controllers/authController.ts:5-32 | calls run in the order lookup, password check, sign, each only after the previous one succeeded; 200 exactly when all three returned, with the signer's token; otherwise 404, 400 or 500 |
| LoginProperties.UnknownEmail | src/controllers/authController.ts:8-13 | an unknown email gives 404 after the lookup alone; the password checker and signer cannot affect it |
| LoginProperties.WrongPasswordNoToken | src/controllers/authController.ts:15-20 | a password mismatch gives 400 with no token, and the signer cannot affect it |
| LoginProperties.SuccessSignsStoredIdentity | src/controllers/authController.ts:22-28 | a 200 means the lookup found a user whose password matched, and the token was signed over exactly that user's `{id, email, role}` |
| LoginProperties.MatchingCredentialsLogIn | src/controllers/authController.ts:15-28 | a found user with a matching password and a signer that does not throw always gets 200 with the signer's token |
| LoginProperties.SignedClaimLastsOneDay | src/controllers/authController.ts:25 | whatever is signed has `iat = floor(now/1000)` and `exp = iat + 1 day` |
| LoginProperties.SignOnlyAfterChecks | src/controllers/authController.ts:8-22 | signing happens only after the lookup found a user and the password matched, in that order |
| LoginProperties.FailureIffSomeCallThrew | src/controllers/authController.ts:29-31 | the 500 response is sent exactly when one of the calls made threw |
| LoginProperties.TokenOnlyOnSuccess | src/controllers/authController.ts:22-31 | a token appears in the response exactly when the status is 200 |
| Routes.Protect | src/app.ts:20-27 | a protected route admits exactly the requests whose presented token verifies to a claim with a listed role; otherwise the first gate's rejection, or a 403 naming the role |
| Routes.NeverUnauthenticatedBehindGate | src/middlewares/authMiddleware.ts:42-47 | behind the authentication gate, the authorization gate's own 401 is never sent |
| Routes.AdminWithoutHeader | src/app.ts:20 | `GET /admin` without a header gives 401 missing token |
| Routes.AdminRejectsManager | src/app.ts:20 | `GET /admin` with a valid Manager token gives 403 naming `Manager` |
| Routes.ManagerAdmitsAdmin | src/app.ts:25 | `GET /manager` with a valid Admin token is admitted |

## Left out

- JWT internals (src/middlewares/authMiddleware.ts:21, src/controllers/authController.ts:22-26): HMAC signing, base64url encoding and the library's expiry check are not modelled. The verifier and the signer are parameters. A sign/verify round-trip and tamper resistance are therefore not stated.
- Missing `JWT_SECRET`: the source casts it unchecked. A missing secret shows up only as the verifier reporting an error or the signer throwing, and both of those are modelled.
- The authorization gate's 500 branch (src/middlewares/authMiddleware.ts:60-63) is not modelled. Under the model's types, nothing in that `try` block can throw.
- Exceptions in the authentication gate are modelled only as the verifier throwing. The response writer could also throw. `next()` could throw synchronously inside the verifier callback, and the source would then call `next` and also send 500. Neither case is modelled.
- Decoded payloads: a verified claim always carries a string role. A token whose payload is a bare string or has no `role` field is not modelled. In the source its role would read as `undefined` and be refused with 403.
- The login request body is taken to hold string `email` and `password`. A missing `email` makes the lookup throw, and a missing `password` makes the password check throw (src/models/user.ts:165-167). The model covers these only through the lookup's or the password check's `Threw` answer.
- `expiresIn: "1d"` is taken to be 86400 seconds. The library's parsing of duration strings is not modelled.
- `console.error` logging, the async/await scheduling, and the JSON body fields beyond status and message are not modelled.
- src/models/user.ts (database CRUD and bcrypt hashing) is not modelled. The email lookup and the password comparison are its only parts that login uses, and they enter as parameters.
- src/app.ts is not modelled beyond the two allow-lists and the gate order of the protected routes. That leaves out the CRUD routes, CORS/JSON setup, `dotenv` and `listen`.
- "Exactly one response per call" holds by construction and has no lemma of its own. Each gate returns either one response or one continuation, and each login run carries exactly one response.
