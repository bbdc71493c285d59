# User service: authentication and account core

This project models the authentication and account core of the home-services
platform's user service in Dafny, and proves properties of the model:

- the users table and the `UserModel` operations over it (`models/User.ts`);
- the token service (`utils/jwt.ts`), JSON Web Tokens (RFC 7519) whose `exp`
  claim (section 4.1.4 of RFC 7519) bounds their life;
- the authentication pipeline, the role gate and optional authentication
  (`middleware/auth.ts`);
- registration and login (`controllers/authController.ts`);
- the profile handlers and the profile-update schema (`controllers/userController.ts`).

Files, one module each: `base.dfy` (Option, Result, time, ids), `strings.dfy`
(the JavaScript string operations the core uses: `toLowerCase`, `split`,
`join`), `users.dfy`, `tokens.dfy`, `http.dfy` (problem responses, `req.user`,
the request/response exchange), `auth_middleware.dfy`, `auth_controller.dfy`,
`user_controller.dfy`, and `scenarios.dfy` (properties across several requests).

How the model stands in for what it cannot see:

- The database is a map from id to row, held by the class `UserStore` with a
  flag saying whether the database answers; when it does not, every query
  throws. Lookups are methods that read the map; `create`, `updateLastLogin`,
  `updateProfile` and `deactivateUser` reassign it. Emails are stored lower-cased.
  The table schema is not part of this model, so two of its properties are
  assumed: emails are unique across all rows, active or not, and the columns
  `create` does not supply take the defaults `is_verified` false, `is_active`
  true, no avatar, no last login, both timestamps the insert time.
- bcrypt is an arbitrary one-way digest of (password, salt, cost); compare
  recomputes it. The random salt and the `uuidv4()` id are parameters.
- Signing is an oracle pair: `sign` turns a token (claims, secret, exp) into its
  compact string or fails, `decode` parses a string back. The only assumption,
  `Tokens.Sound`, is that a signed token decodes back to itself and contains no
  space, and that only strings the signer produced decode at all. Verification succeeds iff the decoded token carries the configured
  secret and `now < exp`.
- The wall clock is a `now` parameter (seconds). The environment is a `Config`
  of `JWT_SECRET` and `JWT_EXPIRES_IN`; JavaScript falsiness is kept: an empty
  secret is a missing one, an empty header is a missing header, an empty
  `JWT_EXPIRES_IN` falls back to `'24h'`, and an empty `roles` array is kept.
- The register and login body schemas come from a module not modelled here:
  those handlers receive the validator's output, the value or the first error's
  message. The profile schema is modelled as explicit predicates.
- Responses are problems (status, kind, detail) or a success status with its
  body; titles, `type` URLs and timestamps are dropped.

Behaviours of the code that its comments or names do not suggest, which the
model keeps:

- A deactivated user's unexpired token is refused with 401 `user-not-found`,
  not `user-deactivated`: `findById` already hides inactive rows, so the active
  check in `authenticate` can never fail (`AuthMiddleware.AuthDecision`,
  `AuthMiddleware.DeactivatedTokenIsUserNotFound`).
- Optional authentication does not swallow a failed authentication: with a
  header present it answers exactly as `authenticate` does (see Findings).
- Deleting an account has no 404 answer: `deleteAccount` reports either
  success or the generic 500.
- `verifyToken` accepts the refresh token, since both tokens are signed with the
  same secret, so a refresh token authenticates requests for seven days.

## Model

| member | source | states |
|---|---|---|
| Strings.ToLower | services/user-service/src/models/User.ts:44 | `toLowerCase` keeps the length and lowers each ASCII letter in place |
| Strings.ToLowerIdempotent | services/user-service/src/models/User.ts:64 | lower-casing an already lower-cased email changes nothing, so lookups agree with stored emails |
| Strings.ToLowerIsLower | services/user-service/src/models/User.ts:44 | the stored email has no capital letter |
| Strings.Split | services/user-service/src/middleware/auth.ts:41 | `split(' ')` always yields at least one part, so `parts[0]` exists even for an empty header |
| Strings.Join | services/user-service/src/middleware/auth.ts:140 | `join(', ')` of no roles is the empty text, and otherwise begins with the first role |
| Strings.SplitJoin | services/user-service/src/middleware/auth.ts:41 | joining the parts of `split(' ')` with the separator gives back the header |
| Strings.SplitTwo | services/user-service/src/middleware/auth.ts:41-42 | `split` yields exactly two parts `[a, b]` iff the text is `a`, one separator, `b`, with no separator in either |
| Users.Hash | services/user-service/src/models/User.ts:32 | the hash keeps the cost and salt it was made with and compares true against its own password, for any digest function |
| Users.Compare | services/user-service/src/models/User.ts:98 | `bcrypt.compare` recomputes the digest with the stored hash's own salt and cost (a definition; its properties are the next row and `Users.Hash`) |
| Users.CompareIffRehash | services/user-service/src/models/User.ts:98 | the compare accepts a password iff rehashing it with the stored salt and cost reproduces the stored hash |
| Users.RolesOrDefault | services/user-service/src/models/User.ts:33 | any `roles` array given is kept, even an empty one, and only a missing one becomes `['customer']` |
| Users.NewRow | services/user-service/src/models/User.ts:35-50 | the inserted row carries the fresh id, the hash, the lower-cased email, the given names, phone and roles, and the assumed defaults (active, unverified, no avatar, no last login, both timestamps now) |
| Users.ByEmail | services/user-service/src/models/User.ts:56-78 | a row is returned only if its email is the lower-cased argument and it is active; none is returned iff no such row exists |
| Users.TouchLastLogin | services/user-service/src/models/User.ts:92-95 | only `last_login` of the row with that id changes; every other row and field is unchanged, and an absent id changes nothing |
| Users.PatchProfile | services/user-service/src/controllers/userController.ts:119 | the profile update touches no row but the caller's |
| Users.Deactivate | services/user-service/src/controllers/userController.ts:161 | the soft delete makes that row inactive and touches no other row |
| Users.CreatedRow | services/user-service/src/models/User.ts:30-54 | the inserted row has a fresh id, the lower-cased email, the given roles or exactly `['customer']`, a cost-12 hash that verifies against the password, and is active and unverified |
| Users.CreatedFoundByEmail | services/user-service/src/models/User.ts:44-76 | after `create`, every spelling of the email that lower-cases to the same text finds the new row |
| Users.UserStore.Create | services/user-service/src/models/User.ts:30-54 | inserts that row and returns it without the hash; when the database is down or the id or email is taken it throws and the table is unchanged |
| Users.UserStore.FindByEmail | services/user-service/src/models/User.ts:56-66 | returns the active row with the lower-cased email, without its hash, or null; throws when the database is down |
| Users.UserStore.FindByEmailWithPassword | services/user-service/src/models/User.ts:68-78 | returns the same row as `findByEmail` for the same input, with its hash |
| Users.UserStore.FindById | services/user-service/src/models/User.ts:80-90 | returns the row with that id iff it exists and is active, null otherwise |
| Users.UserStore.UpdateLastLogin | services/user-service/src/models/User.ts:92-95 | sets `last_login` of that row and nothing else |
| Users.UserStore.VerifyPassword | services/user-service/src/models/User.ts:97-99 | is exactly bcrypt's compare, and accepts the password a hash was made from |
| Users.UserStore.UpdateProfile | services/user-service/src/controllers/userController.ts:119 | patches the supplied fields of the caller's row, refreshes `updated_at` and returns the updated user |
| Users.UserStore.DeactivateUser | services/user-service/src/controllers/userController.ts:161 | soft-deletes the row with that id; with no row under that id it throws and changes nothing |
| Tokens.Secret | services/user-service/src/utils/jwt.ts:13-16 | the secret is missing iff `JWT_SECRET` is unset or empty; a present secret is `JWT_SECRET`'s own, non-empty value |
| Tokens.GenerateTokens | services/user-service/src/utils/jwt.ts:12-41 | throws "secret missing" iff there is no secret; otherwise signs `{userId, email, roles}` for 24h and `{userId}` for 7d with the same secret, and a signing failure returns no token at all |
| Tokens.VerifyToken | services/user-service/src/utils/jwt.ts:43-55 | throws "secret missing" iff there is no secret; otherwise succeeds, yielding the claims, iff the token decodes to one carrying that secret with `now` before its `exp`; every other failure is the one error `InvalidOrExpired` |
| Tokens.IssuedTokensVerify | services/user-service/src/utils/jwt.ts:25-35 | within 24 hours the access token verifies to exactly `{userId, email, roles}` and the refresh token to `{userId}` |
| Tokens.RefreshTokenVerifies | services/user-service/src/utils/jwt.ts:31-35 | the refresh token verifies for seven days |
| Tokens.IssuedTokensExpire | services/user-service/src/utils/jwt.ts:49-54 | once `now` reaches `exp` each token fails with `InvalidOrExpired` |
| Tokens.OnlySignedTokensVerify | services/user-service/src/utils/jwt.ts:43-55 | a string that verifies was produced by the signer for an unexpired token under the configured secret, and yields that token's claims |
| Tokens.ForeignSecretRejected | services/user-service/src/utils/jwt.ts:49-54 | a token signed under another secret never verifies |
| AuthMiddleware.HeaderMissing | services/user-service/src/middleware/auth.ts:30 | `!authHeader`: the header counts as missing when absent or empty (a definition) |
| AuthMiddleware.ContextOf | services/user-service/src/middleware/auth.ts:92-98 | `req.user` carries the store row's id, email, roles and names |
| AuthMiddleware.InsufficientPermissionsProblem | services/user-service/src/middleware/auth.ts:136-142 | the refusal is 403 `insufficient-permissions`, its detail the fixed text followed by the required roles joined by `", "` (starting with the first) |
| AuthMiddleware.AdminRefusalDetail | services/user-service/src/middleware/auth.ts:140 | the admin route's refusal reads "Access requires one of the following roles: admin" |
| AuthMiddleware.BearerToken | services/user-service/src/middleware/auth.ts:41-52 | the header passes iff it is `"Bearer "` followed by text without a space, and the token is that text |
| AuthMiddleware.HeaderFormatExamples | services/user-service/src/middleware/auth.ts:41-50 | `"Bearer t"` passes; `"Bearer"`, `"bearer t"`, `"Bearer a b"` and `"Bearer  t"` are refused |
| AuthMiddleware.AuthDecision | services/user-service/src/middleware/auth.ts:25-113 | never answers `user-deactivated`; an admitted identity is an active store row's |
| AuthMiddleware.AuthStages | services/user-service/src/middleware/auth.ts:28-101 | the checks run in order and the first failure decides: missing header 401, bad format 401, failed verification 401, database error 500, no active user 401, else admit the store row |
| AuthMiddleware.EarlyRejectionsSkipStore | services/user-service/src/middleware/auth.ts:52-69 | rejections before the lookup are the same whatever the table holds or whether the database answers |
| AuthMiddleware.MissingSecretIsInvalidToken | services/user-service/src/middleware/auth.ts:55-66 | a missing secret in verification gives 401 `invalid-token`, not a 500 |
| AuthMiddleware.AdmittedTokenWasSigned | services/user-service/src/middleware/auth.ts:41-69 | an admitted request carried a well-formed header whose token the signer produced, unexpired, under the configured secret |
| AuthMiddleware.OnlyUserIdClaimUsed | services/user-service/src/middleware/auth.ts:68-98 | two verified tokens naming the same user get the same decision: identity comes from the fresh row, not the claims |
| AuthMiddleware.AccessTokenAuthenticates | services/user-service/src/middleware/auth.ts:52-101 | an issued access token admits its active user for 24 hours with the current row's identity |
| AuthMiddleware.RefreshTokenAuthenticates | services/user-service/src/middleware/auth.ts:57-69 | a refresh token is accepted as a bearer credential for seven days |
| AuthMiddleware.DeactivatedTokenIsUserNotFound | services/user-service/src/middleware/auth.ts:69-89 | after the soft delete a still-valid token gets 401 `user-not-found` |
| AuthMiddleware.HasAnyRole | services/user-service/src/middleware/auth.ts:131-133 | true iff some required role occurs in the user's roles |
| AuthMiddleware.RoleGate | services/user-service/src/middleware/auth.ts:119-146 | no `req.user` gives 401 `no-user-context`; otherwise passes iff some required role is held (exact match), else 403 naming the roles joined by `", "` |
| AuthMiddleware.NoRequiredRolesDeniesAll | services/user-service/src/middleware/auth.ts:131-143 | an empty role list refuses everyone |
| AuthMiddleware.AdminRoute | services/user-service/src/routes/userRoutes.ts:16-17 | authenticate then `requireRoles('admin')`: `authenticate`'s rejections pass through unchanged, an authenticated holder of `admin` is admitted with that identity, and only holders of `admin` are admitted |
| AuthMiddleware.AdminRouteRefusesCustomers | services/user-service/src/routes/userRoutes.ts:16-17 | a user holding only `customer` gets 403 on the admin route |
| AuthMiddleware.Authenticate | services/user-service/src/middleware/auth.ts:25-113 | writes the decision's problem without calling `next`, or sets `req.user` from the row and calls `next` once |
| AuthMiddleware.RequireRoles | services/user-service/src/middleware/auth.ts:118-147 | writes the gate's problem, or calls `next` once; `req.user` is untouched |
| AuthMiddleware.OptionalDecision | services/user-service/src/middleware/auth.ts:152-167 | without a header nothing is decided; with one, the decision is `authenticate`'s |
| AuthMiddleware.OptionalAuthRejectsBadHeader | services/user-service/src/middleware/auth.ts:159-166 | as written, `Authorization: Basic abc` is answered 401 and the request does not continue |
| AuthMiddleware.OptionalAuth | services/user-service/src/middleware/auth.ts:152-167 | without a header calls `next` and leaves `req.user`; with one behaves exactly as `authenticate` |
| AuthMiddleware.OptionalIdentity | services/user-service/src/middleware/auth.ts:159-165 | the intended optional mode: an identity iff `authenticate` would admit, else none |
| AuthMiddleware.OptionalAuthIntended | services/user-service/src/middleware/auth.ts:159-165 | the intended optional mode never answers, always calls `next` once, and attaches the identity exactly when one is established |
| AuthController.RegistrationData | services/user-service/src/controllers/authController.ts:37-44 | `register` passes the validated fields through and always asks for exactly `['customer']` |
| AuthController.RegisteredViewOf | services/user-service/src/controllers/authController.ts:56-65 | the 201 `user` object echoes the created row's id, email, names, phone, roles, `is_verified` and `created_at` |
| AuthController.LoginViewOf | services/user-service/src/controllers/authController.ts:137-146 | the 200 `user` object echoes the row's public columns, with `last_login` the time of this login |
| AuthController.ExpiresIn | services/user-service/src/controllers/authController.ts:70 | `expires_in` is `JWT_EXPIRES_IN` when set and non-empty, else `'24h'`, independent of the real expiry |
| AuthController.RegisterSpec | services/user-service/src/controllers/authController.ts:8-84 | every 500 of register carries the one generic detail; success is 201 with `token_type` `'Bearer'` |
| AuthController.LoginSpec | services/user-service/src/controllers/authController.ts:86-165 | every 500 of login carries the one generic detail; success is 200 with `token_type` `'Bearer'` |
| AuthController.ValidationFailureFirst | services/user-service/src/controllers/authController.ts:11-20 | a validation failure answers 400 with the first error's message and leaves the table alone, in register and login |
| AuthController.RegistrationCreatesCustomer | services/user-service/src/controllers/authController.ts:36-72 | a successful registration adds exactly one row, under a fresh id, lower-cased email, roles exactly `['customer']`, a hash of the password; the view echoes that row and `expires_in` |
| AuthController.SecondRegistrationRefused | services/user-service/src/controllers/authController.ts:25-34 | registering the same email again, in any letter case, gives 409 and changes nothing |
| AuthController.DeactivatedEmailNotReusable | services/user-service/src/controllers/authController.ts:25-46 | a deactivated account's email passes the duplicate check, and the insert then fails with 500 and no change |
| AuthController.MissingSecretStillCreates | services/user-service/src/controllers/authController.ts:46-49 | without `JWT_SECRET` the account is created although the answer is 500 |
| AuthController.LoginEnumerationResistant | services/user-service/src/controllers/authController.ts:103-124 | "no such active user" and "wrong password" give identical responses and leave the table unchanged |
| AuthController.LoginChangesOnlyAfterPassword | services/user-service/src/controllers/authController.ts:115-130 | the table changes only after the password verifies, and then only in the matched row's `last_login` |
| AuthController.RegisterThenLogin | services/user-service/src/controllers/authController.ts:103-130 | a registered user's password is accepted under any letter case of the email: the login succeeds, or fails only in token signing with the generic 500, and `last_login` is recorded either way |
| AuthController.DeactivatedCannotLogin | services/user-service/src/controllers/authController.ts:103-112 | after the soft delete the right password gets the ordinary invalid-credentials answer |
| AuthController.Register | services/user-service/src/controllers/authController.ts:8-84 | the handler's steps against the store give exactly the table and answer of `RegisterSpec` |
| AuthController.Login | services/user-service/src/controllers/authController.ts:86-165 | the handler's steps against the store give exactly the table and answer of `LoginSpec` |
| UserController.CheckName | services/user-service/src/controllers/userController.ts:8-16 | a name passes iff it has 2 to 50 characters, all ASCII letters or white space; a failure reports one of that field's messages |
| UserController.CheckPhone | services/user-service/src/controllers/userController.ts:28-33 | a phone passes iff it is empty, or `+27` or `0` followed by exactly nine digits |
| UserController.ValidateProfile | services/user-service/src/controllers/userController.ts:7-34 | no error iff every supplied field is valid (absent fields unchecked); otherwise the first failing field's message, in schema order |
| UserController.ValidationExamples | services/user-service/src/controllers/userController.ts:8-33 | two spaces and "Jo" are valid names, "J", "" and "Anne-Marie" are not; the three phone shapes pass, `27821234567` and `+270821234567` do not |
| UserController.ProfileViewOf | services/user-service/src/controllers/userController.ts:59-73 | the profile `user` object echoes every public column of the row: id, email, names, phone, avatar, roles, `is_verified`, `last_login` and both timestamps |
| UserController.ProfileViewHidesActiveFlag | services/user-service/src/controllers/userController.ts:59-73 | the profile view does not depend on `is_active`, and is built from a record without the hash |
| UserController.GetProfile | services/user-service/src/controllers/userController.ts:40-85 | 404 when `findById` finds no active row, 500 on a database error or a missing `req.user`, else 200 with the row's profile view |
| UserController.UpdateProfile | services/user-service/src/controllers/userController.ts:90-151 | validates before the lookup (400 even for a missing user), 404 without an active row, and only then patches the row; every failure leaves the table unchanged |
| UserController.DeleteAccount | services/user-service/src/controllers/userController.ts:156-180 | deactivates the caller's row and answers 200; with no `req.user`, a database error or no row under the caller's id (the throw of `deactivateUser`) it answers the generic 500 and changes nothing; there is no 404 |
| UserController.PhoneOnlyPatch | services/user-service/src/controllers/userController.ts:119 | a patch of only the phone keeps both names, email, roles and hash, sets the phone and refreshes `updated_at` |
| UserController.DeletedProfileNotFound | services/user-service/src/controllers/userController.ts:45-54 | after the soft delete `findById` no longer finds the caller |
| Scenarios.RegistrationIssuesTokens | services/user-service/src/controllers/authController.ts:46-72 | the tokens a registration returns are those `generateTokens` signs for the created, active customer row |
| Scenarios.NewCustomerRefusedOnAdminRoute | services/user-service/src/controllers/authController.ts:43 | a new user's access token authenticates, but the admin route answers 403 |
| Scenarios.RegistrationRefreshTokenAuthenticates | services/user-service/src/utils/jwt.ts:31-35 | after the access token has expired, the refresh token from registration still authenticates until day seven |
| Scenarios.DeletedAccountLockedOut | services/user-service/src/controllers/userController.ts:156-168 | after `deleteAccount` both unexpired tokens get 401 `user-not-found` and the password no longer logs in |

## Left out

- Strings.ToLower: lowers ASCII letters only; JavaScript's full Unicode case mapping (which can change a string's length) is not modelled.
- Users.UserStore.UpdateProfile: the user model does not define `updateProfile`; the model assumes it patches the supplied fields, refreshes `updated_at` and returns nothing for an unknown id; whether it filters on `is_active` is unknown.
- Users.UserStore.DeactivateUser: the user model does not define `deactivateUser`; the model assumes it clears `is_active`, refreshes `updated_at`, and throws when no row has that id (so `deleteAccount` then answers 500).
- Users.Insertable: the table schema is not part of this model; email uniqueness over all rows, active or not, is an assumption, and `AuthController.DeactivatedEmailNotReusable`'s 500 rests on it.
- Users.Hash: bcrypt's salt generation, its 72-byte password truncation, digest collisions and constant-time comparison are not modelled; hashing never fails.
- Tokens.GenerateTokens: the signing algorithm, the `iat` claim and the base64url/JSON encoding are behind the signer oracle.
- UserController.CheckName: Joi counts length in UTF-16 code units and the model counts characters, which can change only which message a non-ASCII name gets.
- The register and login body schemas (`utils/validation`) are not part of this model; the handlers take the validator's result.
- Joi's defaults beyond the explicit rules (unknown keys, non-string values, conversion) are not modelled; the profile body is typed.
- Database failures are one availability flag for a whole request, not an independent failure of each query; connection-pool acquire and release are left out.
- Logging, response titles, `type` URLs, timestamps and messages on success bodies are left out.
- `authenticate`'s outer catch of errors thrown by downstream handlers through `next()` is not modelled.
- Express and process setup (`app.ts`, `server.ts`), router wiring and the logger are not part of this model, beyond the admin route used as a scenario.

## Findings

| source | as written | input that shows it | evidently intended | confidence | as-written member | corrected member |
|---|---|---|---|---|---|---|
| services/user-service/src/middleware/auth.ts:159-166 | with a header present, `optionalAuth` delegates to `authenticate`, whose rejections write a 401 (or 500) and never invoke the callback, so the request stops | `Authorization: Basic abc` | continue without `req.user` on any authentication failure, as the comments on lines 159 and 162 say | high; not executed | AuthMiddleware.OptionalAuthRejectsBadHeader | AuthMiddleware.OptionalIdentity |
