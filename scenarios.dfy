/**
 * Properties of the service across several requests: registration,
 * authentication of the issued tokens, the admin-only route (authenticate
 * followed by `requireRoles('admin')`), and the soft delete.
 */
module Scenarios {
  import opened Base
  import opened Strings
  import opened Users
  import opened Tokens
  import opened Http
  import opened AuthMiddleware
  import opened AuthController

  /** The token pair a successful registration returns, and the row it created. */
  lemma {:induction false} RegistrationIssuesTokens(t: Table, h: Hasher, v: RegisterInput, s: Signer, c: Config,
                                id: Id, salt: string, now: Time)
    requires RegisterSpec(t, true, h, Valid(v), s, c, id, salt, now).reply.Ok?
    ensures var e := RegisterSpec(t, true, h, Valid(v), s, c, id, salt, now);
      && id in e.rows
      && e.rows[id].user.isActive && e.rows[id].user.id == id
      && e.rows[id].user.roles == ["customer"]
      && ById(e.rows, id) == Some(e.rows[id].user)
      && GenerateTokens(s, c, e.rows[id].user, now).Success?
      && e.reply.body.tokens.accessToken == GenerateTokens(s, c, e.rows[id].user, now).value.accessToken
      && e.reply.body.tokens.refreshToken == GenerateTokens(s, c, e.rows[id].user, now).value.refreshToken
  {
    RegistrationCreatesCustomer(t, true, h, v, s, c, id, salt, now);
  }

  /** A freshly registered user's access token authenticates for 24 hours,
      but the admin route refuses it with 403: registration only ever grants
      `customer`. */
  lemma {:induction false} NewCustomerRefusedOnAdminRoute(t: Table, h: Hasher, v: RegisterInput, s: Signer, c: Config,
                                      id: Id, salt: string, now: Time, later: Time)
    requires WellFormed(t) && Sound(s)
    requires RegisterSpec(t, true, h, Valid(v), s, c, id, salt, now).reply.Ok?
    requires now <= later < now + AccessLifetime
    ensures var e := RegisterSpec(t, true, h, Valid(v), s, c, id, salt, now);
      var header := Some(BearerHeader(e.reply.body.tokens.accessToken));
      && AuthDecision(e.rows, true, header, s, c, later) == Admit(ContextOf(e.rows[id].user))
      && AdminRoute(e.rows, true, header, s, c, later) == Reject(InsufficientPermissionsProblem(["admin"]))
  {
    RegistrationIssuesTokens(t, h, v, s, c, id, salt, now);
    var e := RegisterSpec(t, true, h, Valid(v), s, c, id, salt, now);
    AccessTokenAuthenticates(e.rows, s, c, e.rows[id].user, now, later);
    assert "admin" !in ["customer"];
  }

  /** The refresh token returned at registration works as a bearer
      credential for seven days, long after the access token has expired. */
  lemma {:induction false} RegistrationRefreshTokenAuthenticates(t: Table, h: Hasher, v: RegisterInput, s: Signer, c: Config,
                                             id: Id, salt: string, now: Time, later: Time)
    requires Sound(s)
    requires RegisterSpec(t, true, h, Valid(v), s, c, id, salt, now).reply.Ok?
    requires now + AccessLifetime <= later < now + RefreshLifetime
    ensures var e := RegisterSpec(t, true, h, Valid(v), s, c, id, salt, now);
      && VerifyToken(s, c, e.reply.body.tokens.accessToken, later) == Failure(InvalidOrExpired)
      && AuthDecision(e.rows, true, Some(BearerHeader(e.reply.body.tokens.refreshToken)), s, c, later) ==
         Admit(ContextOf(e.rows[id].user))
  {
    RegistrationIssuesTokens(t, h, v, s, c, id, salt, now);
    var e := RegisterSpec(t, true, h, Valid(v), s, c, id, salt, now);
    IssuedTokensExpire(s, c, e.rows[id].user, now, later);
    RefreshTokenAuthenticates(e.rows, s, c, e.rows[id].user, now, later);
  }

  /** After `deleteAccount`, the tokens issued at registration are answered
      401 `user-not-found` though they have not expired, and the password no
      longer logs in. */
  lemma {:induction false} DeletedAccountLockedOut(t: Table, h: Hasher, v: RegisterInput, s: Signer, c: Config,
                               id: Id, salt: string, now: Time, when: Time, later: Time)
    requires WellFormed(t) && Sound(s)
    requires RegisterSpec(t, true, h, Valid(v), s, c, id, salt, now).reply.Ok?
    requires now <= later < now + AccessLifetime
    ensures var e := RegisterSpec(t, true, h, Valid(v), s, c, id, salt, now);
      var gone := Deactivate(e.rows, id, when);
      && AuthDecision(gone, true, Some(BearerHeader(e.reply.body.tokens.accessToken)), s, c, later) == Reject(UserGoneProblem)
      && AuthDecision(gone, true, Some(BearerHeader(e.reply.body.tokens.refreshToken)), s, c, later) == Reject(UserGoneProblem)
      && LoginSpec(gone, true, h, Valid(LoginInput(v.email, v.password)), s, c, later).reply == Rejected(InvalidCredentialsProblem)
  {
    RegistrationIssuesTokens(t, h, v, s, c, id, salt, now);
    var e := RegisterSpec(t, true, h, Valid(v), s, c, id, salt, now);
    var u := e.rows[id].user;
    var pair := GenerateTokens(s, c, u, now).value;
    assert s.sign(AccessToken(u, Secret(c).value, now)).Some?;
    assert s.sign(RefreshToken(u, Secret(c).value, now)).Some?;
    BearerHeaderParses(pair.accessToken);
    BearerHeaderParses(pair.refreshToken);
    IssuedTokensVerify(s, c, u, now, later);
    DeactivatedTokenIsUserNotFound(e.rows, id, when, BearerHeader(pair.accessToken), s, c, later);
    DeactivatedTokenIsUserNotFound(e.rows, id, when, BearerHeader(pair.refreshToken), s, c, later);
    RegistrationCreatesCustomer(t, true, h, v, s, c, id, salt, now);
    CreatedRow(t, RegistrationData(v), id, h, salt, now);
    InsertWellFormed(t, RegistrationData(v), id, Hash(h, v.password, salt, BcryptCost), now);
    DeactivatedCannotLogin(e.rows, h, id, when, LoginInput(v.email, v.password), s, c, later);
  }
}
