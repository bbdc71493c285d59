/**
 * The authentication pipeline and the role gate
 * (services/user-service/src/middleware/auth.ts).
 *
 * `AuthDecision` and `RoleGate` are what the middlewares decide; the methods
 * over an `Exchange` carry the decision out step by step: write a problem and
 * stop, or attach `req.user` and call `next()`.
 */
module AuthMiddleware {
  import opened Base
  import opened Strings
  import opened Users
  import opened Tokens
  import opened Http

  /** What a middleware decides: continue with an identity, or answer with a problem. */
  datatype Decision = Admit(user: AuthUser) | Reject(problem: Problem)

  const MissingTokenProblem := Problem(401, MissingToken, "Authorization header is required")
  const InvalidTokenFormatProblem := Problem(401, InvalidTokenFormat, "Authorization header must be \"Bearer <token>\"")
  const InvalidTokenProblem := Problem(401, InvalidToken, "The provided token is invalid or has expired")
  const UserGoneProblem := Problem(401, UserNotFound, "User associated with token no longer exists")
  const DeactivatedProblem := Problem(401, UserDeactivated, "This user account has been deactivated")
  const AuthErrorProblem := Problem(500, AuthError, "An error occurred during authentication")
  const NoUserContextProblem := Problem(401, NoUserContext, "User must be authenticated to access this resource")

  /** The 403 problem, naming the required roles joined by ", ". */
  function InsufficientPermissionsProblem(required: seq<string>): (p: Problem)
    ensures p.status == 403 && p.kind == InsufficientPermissions
    ensures |required| == 0 ==> p.detail == "Access requires one of the following roles: "
    ensures |required| >= 1 ==> "Access requires one of the following roles: " + required[0] <= p.detail
  {
    Problem(403, InsufficientPermissions, "Access requires one of the following roles: " + Join(required, ", "))
  }

  /** The identity attached to `req.user`, taken from the store row. */
  function ContextOf(u: User): (who: AuthUser)
    ensures who.id == u.id && who.email == u.email && who.roles == u.roles
    ensures who.firstName == u.firstName && who.lastName == u.lastName
  {
    AuthUser(u.id, u.email, u.roles, u.firstName, u.lastName)
  }

  /** `!authHeader`: an absent or empty header. */
  predicate HeaderMissing(header: Option<string>)
  {
    header.None? || header.value == ""
  }

  lemma BearerSplit(header: string)
    ensures var parts := Split(header, ' ');
      (|parts| == 2 && parts[0] == "Bearer") <==> (|header| >= 7 && header[..7] == "Bearer " && ' ' !in header[7..])
    ensures var parts := Split(header, ' ');
      |parts| == 2 && parts[0] == "Bearer" ==> parts[1] == header[7..]
  {
    var parts := Split(header, ' ');
    if |parts| == 2 && parts[0] == "Bearer" {
      SplitTwo(header, ' ', "Bearer", parts[1]);
      assert parts == ["Bearer", parts[1]];
      assert header == "Bearer " + parts[1];
    }
    if |header| >= 7 && header[..7] == "Bearer " && ' ' !in header[7..] {
      SplitTwo(header, ' ', "Bearer", header[7..]);
      assert header == "Bearer" + [' '] + header[7..];
    }
  }

  /** The format check: `split(' ')` must give exactly `["Bearer", token]`.
      The scheme is case-sensitive and allows exactly one space. */
  function BearerToken(header: string): (r: Option<string>)
    ensures r.Some? <==> |header| >= 7 && header[..7] == "Bearer " && ' ' !in header[7..]
    ensures r.Some? ==> r.value == header[7..]
  {
    var parts := Split(header, ' ');
    BearerSplit(header);
    if |parts| == 2 && parts[0] == "Bearer" then Some(parts[1]) else None
  }

  /** `"Bearer " + t` passes for every token without a space; the near misses do not. */
  lemma HeaderFormatExamples(t: string)
    requires ' ' !in t
    ensures BearerToken("Bearer " + t) == Some(t)
    ensures BearerToken("Bearer").None?
    ensures BearerToken("bearer " + t).None?
    ensures BearerToken("Bearer a b").None?
    ensures BearerToken("Bearer  " + t).None?
  {
    assert ("Bearer " + t)[..7] == "Bearer " && ("Bearer " + t)[7..] == t;
    assert ("bearer " + t)[..7] != "Bearer ";
    assert "Bearer a b"[7..] == "a b" && ' ' in "a b";
    assert ("Bearer  " + t)[7..] == " " + t;
  }

  /** What `authenticate` decides, stage by stage, the first failure winning:
      header present, `Bearer` format, token verified, active user found. */
  function AuthDecision(t: Table, up: bool, header: Option<string>, s: Signer, c: Config, now: Time): (d: Decision)
    ensures d.Reject? ==> d.problem.kind != UserDeactivated
    ensures d.Admit? ==> exists id :: id in t && t[id].user.isActive && d.user == ContextOf(t[id].user)
  {
    if HeaderMissing(header) then Reject(MissingTokenProblem)
    else match BearerToken(header.value)
      case None => Reject(InvalidTokenFormatProblem)
      case Some(token) =>
        match VerifyToken(s, c, token, now)
        case Failure(_) => Reject(InvalidTokenProblem)
        case Success(claims) =>
          if !up then Reject(AuthErrorProblem)
          else match ById(t, claims.userId)
            case None => Reject(UserGoneProblem)
            case Some(u) =>
              if !u.isActive then Reject(DeactivatedProblem)
              else assert t[claims.userId].user == u; Admit(ContextOf(u))
  }

  /** The stages in order: each rejection is the first failing check's. */
  lemma AuthStages(t: Table, up: bool, header: Option<string>, s: Signer, c: Config, now: Time)
    ensures HeaderMissing(header) ==> AuthDecision(t, up, header, s, c, now) == Reject(MissingTokenProblem)
    ensures !HeaderMissing(header) && BearerToken(header.value).None? ==>
      AuthDecision(t, up, header, s, c, now) == Reject(InvalidTokenFormatProblem)
    ensures (!HeaderMissing(header) && BearerToken(header.value).Some? &&
             VerifyToken(s, c, BearerToken(header.value).value, now).Failure?) ==>
      AuthDecision(t, up, header, s, c, now) == Reject(InvalidTokenProblem)
    ensures (!HeaderMissing(header) && BearerToken(header.value).Some? &&
             VerifyToken(s, c, BearerToken(header.value).value, now).Success?) ==>
      var id := VerifyToken(s, c, BearerToken(header.value).value, now).value.userId;
      AuthDecision(t, up, header, s, c, now) ==
        if !up then Reject(AuthErrorProblem)
        else if ById(t, id).None? then Reject(UserGoneProblem)
        else Admit(ContextOf(ById(t, id).value))
  {
  }

  /** Rejections before the lookup do not depend on the store: a header that
      is missing, badly formatted or carries a token that fails verification
      is answered the same whatever the table holds or whether it answers. */
  lemma EarlyRejectionsSkipStore(t1: Table, up1: bool, t2: Table, up2: bool, header: Option<string>, s: Signer, c: Config, now: Time)
    requires AuthDecision(t1, up1, header, s, c, now).Reject?
    requires AuthDecision(t1, up1, header, s, c, now).problem.kind in {MissingToken, InvalidTokenFormat, InvalidToken}
    ensures AuthDecision(t2, up2, header, s, c, now) == AuthDecision(t1, up1, header, s, c, now)
  {
  }

  /** A missing `JWT_SECRET` is caught with the verification error: a
      well-formed header then gets 401 `invalid-token`, not a 500. */
  lemma MissingSecretIsInvalidToken(t: Table, up: bool, token: string, s: Signer, c: Config, now: Time)
    requires Secret(c).None? && ' ' !in token
    ensures AuthDecision(t, up, Some("Bearer " + token), s, c, now) == Reject(InvalidTokenProblem)
  {
    HeaderFormatExamples(token);
  }

  /** Only the `userId` claim matters: two verified tokens naming the same
      user (an access token with stale email and roles, or a refresh token)
      get the same decision, built from the store row. */
  lemma OnlyUserIdClaimUsed(t: Table, up: bool, h1: string, h2: string, s: Signer, c: Config, now: Time)
    requires BearerToken(h1).Some? && BearerToken(h2).Some?
    requires VerifyToken(s, c, BearerToken(h1).value, now).Success?
    requires VerifyToken(s, c, BearerToken(h2).value, now).Success?
    requires VerifyToken(s, c, BearerToken(h1).value, now).value.userId ==
             VerifyToken(s, c, BearerToken(h2).value, now).value.userId
    ensures AuthDecision(t, up, Some(h1), s, c, now) == AuthDecision(t, up, Some(h2), s, c, now)
  {
    assert h1 != "" && h2 != "";
  }

  /** Only issued tokens authenticate: an admitted request carried a
      well-formed header whose token the signer produced under the configured
      secret, and that has not expired. */
  lemma AdmittedTokenWasSigned(t: Table, up: bool, header: Option<string>, s: Signer, c: Config, now: Time)
    requires Sound(s) && AuthDecision(t, up, header, s, c, now).Admit?
    ensures !HeaderMissing(header) && BearerToken(header.value).Some?
    ensures exists tok :: s.sign(tok) == Some(BearerToken(header.value).value) && tok.secret == Secret(c).value && now < tok.exp
  {
    OnlySignedTokensVerify(s, c, BearerToken(header.value).value, now);
  }

  /** The header `generateTokens` callers are told to send. */
  function BearerHeader(token: string): string
  {
    "Bearer " + token
  }

  lemma BearerHeaderParses(token: string)
    requires ' ' !in token
    ensures BearerToken(BearerHeader(token)) == Some(token)
  {
    HeaderFormatExamples(token);
  }

  /** A refresh token is accepted as a bearer credential: for seven days it
      admits its user exactly as an access token would, with the identity
      taken from the user's current row. */
  lemma RefreshTokenAuthenticates(t: Table, s: Signer, c: Config, u: User, issued: Time, now: Time)
    requires Sound(s) && GenerateTokens(s, c, u, issued).Success?
    requires issued <= now < issued + RefreshLifetime
    requires ById(t, u.id).Some?
    ensures var refresh := GenerateTokens(s, c, u, issued).value.refreshToken;
      AuthDecision(t, true, Some(BearerHeader(refresh)), s, c, now) == Admit(ContextOf(ById(t, u.id).value))
  {
    var pair := GenerateTokens(s, c, u, issued).value;
    assert s.sign(RefreshToken(u, Secret(c).value, issued)).Some?;
    BearerHeaderParses(pair.refreshToken);
    RefreshTokenVerifies(s, c, u, issued, now);
  }

  /** An issued access token admits its (still active) user for 24 hours. */
  lemma AccessTokenAuthenticates(t: Table, s: Signer, c: Config, u: User, issued: Time, now: Time)
    requires Sound(s) && GenerateTokens(s, c, u, issued).Success?
    requires issued <= now < issued + AccessLifetime
    requires ById(t, u.id).Some?
    ensures var access := GenerateTokens(s, c, u, issued).value.accessToken;
      AuthDecision(t, true, Some(BearerHeader(access)), s, c, now) == Admit(ContextOf(ById(t, u.id).value))
  {
    var pair := GenerateTokens(s, c, u, issued).value;
    assert s.sign(AccessToken(u, Secret(c).value, issued)).Some?;
    BearerHeaderParses(pair.accessToken);
    IssuedTokensVerify(s, c, u, issued, now);
  }

  /** After the soft delete, a still-valid token naming that user gets 401
      `user-not-found`: `findById` already hides inactive rows, so the
      `user-deactivated` answer is never given. */
  lemma DeactivatedTokenIsUserNotFound(t: Table, id: Id, when: Time, header: string, s: Signer, c: Config, now: Time)
    requires BearerToken(header).Some?
    requires VerifyToken(s, c, BearerToken(header).value, now).Success?
    requires VerifyToken(s, c, BearerToken(header).value, now).value.userId == id
    ensures AuthDecision(Deactivate(t, id, when), true, Some(header), s, c, now) == Reject(UserGoneProblem)
  {
    assert header != "";
  }

  /** `requiredRoles.some(role => roles.includes(role))`. */
  function HasAnyRole(roles: seq<string>, required: seq<string>): (b: bool)
    ensures b <==> exists i :: 0 <= i < |required| && required[i] in roles
  {
    if |required| == 0 then false
    else if required[0] in roles then true
    else
      var rest := HasAnyRole(roles, required[1..]);
      assert forall i :: 1 <= i < |required| ==> required[i] == required[1..][i - 1];
      rest
  }

  /** What `requireRoles(...required)` decides for the current `req.user`. */
  function RoleGate(user: Option<AuthUser>, required: seq<string>): (d: Decision)
    ensures user.None? ==> d == Reject(NoUserContextProblem)
    ensures d.Admit? <==> user.Some? && exists i :: 0 <= i < |required| && required[i] in user.value.roles
    ensures d.Admit? ==> d.user == user.value
    ensures user.Some? && d.Reject? ==> d.problem == InsufficientPermissionsProblem(required)
  {
    if user.None? then Reject(NoUserContextProblem)
    else if HasAnyRole(user.value.roles, required) then Admit(user.value)
    else Reject(InsufficientPermissionsProblem(required))
  }

  /** The admin route's refusal names the one role it requires. */
  lemma AdminRefusalDetail()
    ensures InsufficientPermissionsProblem(["admin"]).detail == "Access requires one of the following roles: admin"
  {
  }

  /** An empty role list lets nobody through. */
  lemma NoRequiredRolesDeniesAll(user: AuthUser)
    ensures RoleGate(Some(user), []) == Reject(InsufficientPermissionsProblem([]))
  {
  }

  /** The admin route: `authenticate` followed by `requireRoles('admin')`. */
  function AdminRoute(t: Table, up: bool, header: Option<string>, s: Signer, c: Config, now: Time): (d: Decision)
    ensures d.Admit? ==> "admin" in d.user.roles
    ensures AuthDecision(t, up, header, s, c, now).Reject? ==> d == AuthDecision(t, up, header, s, c, now)
    ensures AuthDecision(t, up, header, s, c, now).Admit? && "admin" in AuthDecision(t, up, header, s, c, now).user.roles ==>
      d == AuthDecision(t, up, header, s, c, now)
  {
    match AuthDecision(t, up, header, s, c, now)
    case Reject(p) => Reject(p)
    case Admit(u) => RoleGate(Some(u), ["admin"])
  }

  /** A user whose row holds only the `customer` role is refused with 403 on
      the admin route even with a valid token. */
  lemma AdminRouteRefusesCustomers(t: Table, header: Option<string>, s: Signer, c: Config, now: Time, id: Id)
    requires id in t && AuthDecision(t, true, header, s, c, now) == Admit(ContextOf(t[id].user))
    requires t[id].user.roles == ["customer"]
    ensures AdminRoute(t, true, header, s, c, now) == Reject(InsufficientPermissionsProblem(["admin"]))
  {
    assert "admin" !in ["customer"];
  }

  /** `AuthMiddleware.authenticate`: each check either writes its problem and
      returns, or hands over to the next; only when all pass is `req.user`
      set and `next()` called. */
  method Authenticate(ex: Exchange, store: UserStore, s: Signer, c: Config, now: Time)
    requires store.Valid()
    modifies ex
    ensures match AuthDecision(store.rows, store.available, ex.authorization, s, c, now)
      case Admit(u) => ex.user == Some(u) && ex.sent == old(ex.sent) && ex.forwarded == old(ex.forwarded) + 1
      case Reject(p) => ex.user == old(ex.user) && ex.sent == Some(p) && ex.forwarded == old(ex.forwarded)
  {
    var header := ex.authorization;
    if header.None? || header.value == "" {
      ex.sent := Some(MissingTokenProblem);
      return;
    }
    var parts := Split(header.value, ' ');
    BearerSplit(header.value);
    if |parts| != 2 || parts[0] != "Bearer" {
      ex.sent := Some(InvalidTokenFormatProblem);
      return;
    }
    var token := parts[1];
    var decoded := VerifyToken(s, c, token, now);
    if decoded.Failure? {
      ex.sent := Some(InvalidTokenProblem);
      return;
    }
    var found := store.FindById(decoded.value.userId);
    if found.Failure? {
      ex.sent := Some(AuthErrorProblem);
      return;
    }
    if found.value.None? {
      ex.sent := Some(UserGoneProblem);
      return;
    }
    var user := found.value.value;
    if !user.isActive {
      // The source answers DeactivatedProblem here; findById only returns
      // active rows, so the branch is never taken.
      assert false;
    }
    ex.user := Some(ContextOf(user));
    ex.forwarded := ex.forwarded + 1;
  }

  /** `AuthMiddleware.requireRoles(...required)` applied to one request. */
  method RequireRoles(ex: Exchange, required: seq<string>)
    modifies ex
    ensures ex.user == old(ex.user)
    ensures match RoleGate(old(ex.user), required)
      case Admit(_) => ex.sent == old(ex.sent) && ex.forwarded == old(ex.forwarded) + 1
      case Reject(p) => ex.sent == Some(p) && ex.forwarded == old(ex.forwarded)
  {
    if ex.user.None? {
      ex.sent := Some(NoUserContextProblem);
      return;
    }
    var hasRequiredRole := HasAnyRole(ex.user.value.roles, required);
    if !hasRequiredRole {
      ex.sent := Some(InsufficientPermissionsProblem(required));
      return;
    }
    ex.forwarded := ex.forwarded + 1;
  }

  /** What `optionalAuth` does as written: nothing to decide without a header
      (`None`), otherwise exactly `authenticate`'s decision, because the
      callback it passes is only ever invoked as `next()`. */
  function OptionalDecision(t: Table, up: bool, header: Option<string>, s: Signer, c: Config, now: Time): (d: Option<Decision>)
    ensures HeaderMissing(header) <==> d.None?
    ensures d.Some? ==> d.value == AuthDecision(t, up, header, s, c, now)
  {
    if HeaderMissing(header) then None else Some(AuthDecision(t, up, header, s, c, now))
  }

  /** As written, a present but unusable header is not ignored: `optionalAuth`
      answers 401 and the request stops, although the handler means to carry
      on without a user. */
  lemma OptionalAuthRejectsBadHeader(t: Table, up: bool, s: Signer, c: Config, now: Time)
    ensures OptionalDecision(t, up, Some("Basic abc"), s, c, now) == Some(Reject(InvalidTokenFormatProblem))
  {
    assert "Basic abc"[..7][1] != "Bearer "[1];
  }

  /** `AuthMiddleware.optionalAuth` as written. */
  method OptionalAuth(ex: Exchange, store: UserStore, s: Signer, c: Config, now: Time)
    requires store.Valid()
    modifies ex
    ensures match OptionalDecision(store.rows, store.available, ex.authorization, s, c, now)
      case None => ex.user == old(ex.user) && ex.sent == old(ex.sent) && ex.forwarded == old(ex.forwarded) + 1
      case Some(Admit(u)) => ex.user == Some(u) && ex.sent == old(ex.sent) && ex.forwarded == old(ex.forwarded) + 1
      case Some(Reject(p)) => ex.user == old(ex.user) && ex.sent == Some(p) && ex.forwarded == old(ex.forwarded)
  {
    if ex.authorization.None? || ex.authorization.value == "" {
      ex.forwarded := ex.forwarded + 1;
      return;
    }
    // The callback handed to authenticate only calls next(); authenticate
    // invokes it on success alone.
    Authenticate(ex, store, s, c, now);
  }

  /** The evidently intended `optionalAuth`: the identity, when one is
      established, and otherwise none; the request always continues. */
  function OptionalIdentity(t: Table, up: bool, header: Option<string>, s: Signer, c: Config, now: Time): (r: Option<AuthUser>)
    ensures r.Some? <==> AuthDecision(t, up, header, s, c, now).Admit?
    ensures r.Some? ==> r.value == AuthDecision(t, up, header, s, c, now).user
  {
    if HeaderMissing(header) then None
    else match AuthDecision(t, up, header, s, c, now)
      case Admit(u) => Some(u)
      case Reject(_) => None
  }

  /** The intended `optionalAuth` over a request: it never answers, always
      calls `next()` once, and attaches the identity exactly when
      `authenticate` would admit it. */
  method OptionalAuthIntended(ex: Exchange, store: UserStore, s: Signer, c: Config, now: Time)
    requires store.Valid()
    modifies ex
    ensures ex.sent == old(ex.sent) && ex.forwarded == old(ex.forwarded) + 1
    ensures var id := OptionalIdentity(store.rows, store.available, ex.authorization, s, c, now);
      ex.user == if id.Some? then id else old(ex.user)
  {
    var d := OptionalIdentity(store.rows, store.available, ex.authorization, s, c, now);
    if d.Some? {
      ex.user := d;
    }
    ex.forwarded := ex.forwarded + 1;
  }
}
