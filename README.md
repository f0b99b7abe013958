# Sign-up, OTP verification, password and login workflow

This project models the authentication routes of a user-registration backend: sign-up,
requesting and verifying a one-time code (OTP) for an email address or a phone number,
setting a password, logging in, and refreshing a token pair. The routes work over two stores:

- the user table, keyed by email (`UserModel.User`, held in a `map<string, User>`);
- the OTP collection, whose records carry an email slot, a phone slot, and per kind
  (email / mobile) a code, an expiry and a verified flag (`UserOtpModel.OtpRecord`, held in
  store order in a `seq<OtpRecord>`; `findOne` is `UserOtpModel.FindOne`, the first match).

Layout, one module per source file plus the workflow's specification:

| file | module | models |
|---|---|---|
| `user_model.dfy` | `UserModel` | `src/models/User.model.ts`: the user record, its defaults, the role enumeration |
| `user_otp_model.dfy` | `UserOtpModel` | `src/models/UserOtp.model.ts`: the OTP record, its defaults, per-kind accessors and updates, the `findOne` query |
| `auth_validator.dfy` | `Validators` | `src/validator/auth.validator.ts`: the six request schemas as predicates |
| `tokens.dfy` | `Tokens` | the opaque token helpers the routes call |
| `auth_flow.dfy` | `AuthFlow` | `src/routes/auth.route.ts` as a state machine: one step function per handler, the store invariant, and the lemmas |
| `auth_route.dfy` | `AuthRoutes` | `src/routes/auth.route.ts` as an object `AuthService` owning both stores, one method per route |

Each handler's guards run in the source's order and the first failing one decides the reply.
The reply of every handler is an `AuthFlow.Reply`: `Created`, `OtpSent`, `OtpVerified`,
`Issued(tokens)`, `LoggedIn(tokens, profile)` or `Failed(e)` with `e` one of `Invalid` (the
body fails its schema), `Conflict`, `UploadFailed`, `NotFound`, `Expired`, `Mismatch`,
`Forbidden`, `InvalidPassword`, `InvalidToken`, `DeliveryFailed` and `ServerError`.

Every method of `AuthService` keeps `Valid()`, the store invariant `AuthFlow.Invariant`:
users are keyed by their own email and have ids below the id counter; a user's verified flag is
set only if an OTP record exists for that phone or email; at most one OTP record per email and
per phone; and a record that holds an identifier of one kind also holds that kind's code and
expiry. Each mutating method is proved to produce exactly the step the corresponding
`AuthFlow` function describes. The lemmas and contracts about those functions state the
workflow's properties.

External pieces are inputs or opaque:

- time is a `now: nat` parameter in milliseconds since the epoch;
- the generated OTP code is a method argument;
- the password hash is the service's `hash: string -> string`, and a password matches when its
  hash equals the stored hash;
- tokens come from the service's `Tokens.Issuer` (two signers and a refresh-token verifier);
  the only property assumed about it, in one lemma only, is `Tokens.Sound`: every refresh
  token it signs verifies to the claims it was signed from;
- the image upload is an `AuthFlow.Upload` input (no image, uploaded at a URL, or failed);
- delivery of the OTP by SMS or email is a `delivered: bool` input; the confirmation SMS after
  set-password and login is a no-op, because the handlers catch and ignore its failure.

Points where the model follows the code rather than the design notes:

- Set-password's 403 gate reads the flags of the user document loaded before the refresh, so a
  request can be refused although the refresh that it stored would have let it pass, and the
  refresh is stored even when the request is refused (`SetPasswordStep`, `SetPasswordRetry`).
  Saving the loaded document afterwards writes only the password, so the refreshed flags remain.
- Sign-up and set-password set a user's flags from the existence of an OTP record, not from its
  verified flag.
- Request-otp awaits the SMS or email send inside its error handler, so a failed send is a 500
  (`DeliveryFailed`) and the code has already been stored.
- Login for a verified user with no password yet makes the hash comparison throw on the missing
  hash; the handler's catch turns that into a 500 (`ServerError`).

## Model

| member | source | states |
|---|---|---|
| `UserModel.NewUser` | src/models/User.model.ts:17-33 | a new user gets balance 0, role "user", no password, and flags false unless given true; given fields are kept |
| `UserModel.RoleName` | src/models/User.model.ts:29-33 | a role is named "user" or "admin", "user" exactly for the regular role |
| `UserModel.ParseRole` | src/models/User.model.ts:29-33 | only "user" and "admin" name a role, and parsing inverts `RoleName` |
| `UserOtpModel.Other` | src/models/UserOtp.model.ts:3-12 | each kind has a distinct other kind |
| `UserOtpModel.NewOtpRecord` | src/models/UserOtp.model.ts:13-24 | a record built from one identifier has the other slot null, null codes and expiries, both flags false, and matches only its own key |
| `UserOtpModel.WithCode` | src/models/UserOtp.model.ts:18-21 | issuing a code sets that kind's code and expiry and keeps the identifiers, both flags and the other kind's code and expiry |
| `UserOtpModel.WithVerified` | src/models/UserOtp.model.ts:22-23 | verifying sets that kind's flag and keeps the other flag, all codes, expiries and identifiers |
| `UserOtpModel.FindOne` | src/routes/auth.route.ts:82-84 | the query returns the first record in store order that holds the identifier, or none exactly when no record holds it |
| `UserOtpModel.HasRecord` | src/routes/auth.route.ts:52-55 | a lookup succeeds exactly when some record holds the identifier |
| `UserOtpModel.KeepsKeysKeepsRecords` | src/models/UserOtp.model.ts:16-17 | a store that keeps every record's identifiers in place still has a record for every identifier it had |
| `Validators.KindOf` | src/validator/auth.validator.ts:30 | the type selects the email kind exactly for "EMAIL" and the mobile kind exactly for "MOBILE" |
| `Validators.ValidRequestOtp` | src/validator/auth.validator.ts:29-41 | an accepted request-otp body carries exactly one of email and phone |
| `Validators.ValidVerifyOtp` | src/validator/auth.validator.ts:43-58 | an accepted verify-otp body carries exactly one of email and phone |
| `Validators.TargetOf` | src/validator/auth.validator.ts:31-40 | a valid body names a non-empty identifier of its type's kind, taken from the field that kind requires, with the other field absent |
| `Validators.RequestOtpAccepts` | src/validator/auth.validator.ts:29-41 | request-otp accepts exactly: type EMAIL with an email and no phone, or type MOBILE with a phone and no email |
| `Validators.VerifyOtpAccepts` | src/validator/auth.validator.ts:43-58 | verify-otp accepts exactly that identifier rule plus a code of exactly 6 characters |
| `Tokens.ClaimsOf` | src/routes/auth.route.ts:156-157 | tokens carry the user's id, email and role |
| `AuthFlow.SignupStep` | src/routes/auth.route.ts:30-67 | invalid body, then taken email (Conflict), then failed upload (UploadFailed), each leaving both stores unchanged; otherwise one user is added under the email, the OTP store is untouched, and the user is shaped as `SignupUser` says |
| `AuthFlow.SignupKeepsInvariant` | src/routes/auth.route.ts:52-66 | sign-up keeps the store invariant: flags set from record existence, one user per email |
| `AuthFlow.SignupTwiceConflicts` | src/routes/auth.route.ts:37-39 | after a sign-up succeeds, a second sign-up with that email returns Conflict and changes nothing |
| `AuthFlow.Upsert` | src/routes/auth.route.ts:249-262 | the upsert keeps every record's identifiers in place, adds a record only when none exists for the identifier, and leaves records of other identifiers unchanged |
| `AuthFlow.RequestOtpStep` | src/routes/auth.route.ts:244-285 | an invalid body changes nothing; otherwise the reply is sent or DeliveryFailed, after the OTP store is updated either way; the user table never changes |
| `AuthFlow.UpsertFinds` | src/routes/auth.route.ts:250-254 | after the upsert the identifier's query finds the same record as before, or the appended one |
| `AuthFlow.FindOneIsFirst` | src/routes/auth.route.ts:82-84 | the first matching position is the one the query returns |
| `AuthFlow.RequestOtpUpserts` | src/routes/auth.route.ts:268-281 | request-otp reuses or creates the identifier's record, sets that kind's code and expiry now + 600000 ms, and keeps both verified flags, the identifiers, the other kind's fields and every other record |
| `AuthFlow.RequestOtpKeepsInvariant` | src/routes/auth.route.ts:249-281 | request-otp keeps at most one record per email and per phone, keeps records well formed, and keeps every user's flags backed by a record |
| `AuthFlow.VerifyOtpStep` | src/routes/auth.route.ts:74-113 | invalid body, then no record (NotFound), then now later than that kind's expiry (Expired; now equal to the expiry passes), then a code different from the stored one (Mismatch); every failure changes nothing; success marks the found record verified for that kind |
| `AuthFlow.VerifyOtpKeepsInvariant` | src/routes/auth.route.ts:104-109 | verifying keeps the store invariant |
| `AuthFlow.RequestThenVerify` | src/routes/auth.route.ts:91-102 | a code requested at T verifies up to T + 10 minutes, is Expired after that, and a different code in time is a Mismatch |
| `AuthFlow.VerifyOtpFlipsOneFlag` | src/routes/auth.route.ts:104-109 | a successful verify sets only that kind's flag on the one record and changes nothing else |
| `AuthFlow.Refreshed` | src/routes/auth.route.ts:132-142 | the refreshed flags are true exactly when an OTP record exists for the user's phone, and for the email; nothing else changes |
| `AuthFlow.SetPasswordStep` | src/routes/auth.route.ts:121-171 | invalid body, then missing user (NotFound), unchanged stores; otherwise the refreshed flags are stored, Forbidden happens exactly when both flags before the refresh were false, and on success the stored password becomes the hash and a token pair for the user is returned |
| `AuthFlow.SetPasswordKeepsInvariant` | src/routes/auth.route.ts:132-154 | set-password keeps the store invariant |
| `AuthFlow.SetPasswordRetry` | src/routes/auth.route.ts:136-147 | a request refused on stale flags, for a user who has an OTP record, succeeds when repeated |
| `AuthFlow.LoginReply` | src/routes/auth.route.ts:181-236 | invalid body, then missing user (NotFound), then both flags false (Forbidden), then no stored hash (ServerError), then a hash mismatch (InvalidPassword); otherwise tokens for the user and its profile |
| `AuthFlow.LoginProfile` | src/routes/auth.route.ts:223-235 | the profile login returns holds the stored user's public fields |
| `AuthFlow.LoginUnverifiedForbidden` | src/routes/auth.route.ts:194-198 | login of a user with neither flag is Forbidden whatever the password |
| `AuthFlow.SetPasswordThenLogin` | src/routes/auth.route.ts:200-204 | after set-password succeeds, login with the same password succeeds and with a password of another hash is InvalidPassword |
| `AuthFlow.RefreshReply` | src/routes/auth.route.ts:295-315 | an invalid body is refused; a token that does not verify is InvalidToken; otherwise a new pair is minted from the decoded claims |
| `AuthFlow.RefreshAcceptsIssued` | src/routes/auth.route.ts:305-315 | with a sound verifier, the refresh token of an issued pair yields the pair for the same claims |
| `AuthRoutes.AuthService.constructor` | src/routes/auth.route.ts:23 | the service starts with both stores empty and the invariant holding |
| `AuthRoutes.AuthService.Signup` | src/routes/auth.route.ts:26-72 | the handler keeps the invariant and produces `SignupStep`'s stores and reply |
| `AuthRoutes.AuthService.RequestOtp` | src/routes/auth.route.ts:243-292 | the handler keeps the invariant and produces `RequestOtpStep`'s stores and reply |
| `AuthRoutes.AuthService.VerifyOtp` | src/routes/auth.route.ts:73-118 | the handler keeps the invariant and produces `VerifyOtpStep`'s stores and reply |
| `AuthRoutes.AuthService.SetPassword` | src/routes/auth.route.ts:120-176 | the handler keeps the invariant and produces `SetPasswordStep`'s stores and reply |
| `AuthRoutes.AuthService.Login` | src/routes/auth.route.ts:179-241 | the handler changes no store and replies as `LoginReply` |
| `AuthRoutes.AuthService.RefreshToken` | src/routes/auth.route.ts:294-329 | the handler touches no store and replies as `RefreshReply` |

The schemas for sign-up, login, set-password and refresh-token are the predicates
`Validators.ValidSignup` (src/validator/auth.validator.ts:3-9: email, userName, firstName,
lastName and phoneNumber required), `Validators.ValidLogin` (lines 11-14: email and password
required, no minimum length), `Validators.ValidSetPassword` (lines 16-23: a password of at least
6 characters) and `Validators.ValidRefresh` (lines 25-27: a refresh token required). They are
definitions; the step functions above state what each handler does when they fail.

## Left out

- Store failures: every `catch` that turns a database error into a 500 is left out; in the model
  the stores never fail.
- Concurrency: requests run one at a time; the races between lookups and writes for the same
  identifier are not modelled.
- HTTP routing, the multipart middleware, status codes and message texts: replies are the
  `Reply` variants only.
- Server start-up, configuration and the database connection (`src/index.ts`).
- The password hash's salt and cost, token signatures and token expiry: the hash and the token
  helpers are opaque functions; the helpers' own source is not part of this model.
- OTP generation: the code is an argument; its length and alphabet are not constrained.
- The email-format rule of the schemas: any non-empty string passes as an email.
- The schemas' rejection of unknown body fields and of non-string values; lengths are counted
  in characters, where the schema library counts UTF-16 code units.
- The redundant "refresh token is required" check (src/routes/auth.route.ts:299-301): it cannot
  fail after the schema has accepted the body.
- The stored creation and update timestamps.
- `UserModel.User`: firstName, lastName, phoneNumber and imageUrl are plain strings, although the
  schema lets them be absent, because sign-up, the only writer in scope, always sets them.
- Document ids are drawn from a counter in the stores instead of the database's id generator.
- The login message with the local time, and the confirmation SMS after set-password and login.
