/**
 * The token service (services/user-service/src/utils/jwt.ts): JSON Web
 * Tokens (RFC 7519) signed with a process-wide secret.
 *
 * Signing is an oracle pair. A token is the triple (claims, secret, exp);
 * `sign` turns it into the compact string or fails, and `decode` parses a
 * string back into a token when it can. Verification succeeds iff the
 * decoded token carries the configured secret and has not reached its `exp`
 * (section 4.1.4 of RFC 7519).
 */
module Tokens {
  import opened Base
  import opened Users

  /** The claims: the access token's `{userId, email, roles}` or the refresh
      token's `{userId}`. `verifyToken` casts either to `JWTPayload`. */
  datatype Payload =
    | AccessClaims(userId: Id, email: string, roles: seq<string>)
    | RefreshClaims(userId: Id)

  datatype Token = Token(payload: Payload, secret: string, exp: Time)

  datatype Signer = Signer(sign: Token -> Option<string>, decode: string -> Option<Token>)

  /** What the signing library guarantees: a signed token decodes back to
      itself, the compact form (base64url parts joined by dots) has no space,
      and only a string the signer produced decodes at all (no forgery). */
  ghost predicate Sound(s: Signer)
  {
    && (forall t :: s.sign(t).Some? ==> s.decode(s.sign(t).value) == Some(t) && ' ' !in s.sign(t).value)
    && (forall x :: s.decode(x).Some? ==> s.sign(s.decode(x).value) == Some(x))
  }

  /** `expiresIn: '24h'` and `expiresIn: '7d'`, in seconds. */
  const AccessLifetime: int := 24 * 60 * 60
  const RefreshLifetime: int := 7 * 24 * 60 * 60

  /** The process environment the handlers read. */
  datatype Config = Config(jwtSecret: Option<string>, jwtExpiresIn: Option<string>)

  /** `process.env.JWT_SECRET`, absent when unset or empty (`!jwtSecret`). */
  function Secret(c: Config): (r: Option<string>)
    ensures r.Some? ==> r == c.jwtSecret && r.value != ""
    ensures r.None? <==> c.jwtSecret.None? || c.jwtSecret.value == ""
  {
    if c.jwtSecret.Some? && c.jwtSecret.value != "" then c.jwtSecret else None
  }

  /** The three errors the module throws. */
  datatype JwtError = SecretMissing | SigningFailed | InvalidOrExpired

  datatype TokenPair = TokenPair(accessToken: string, refreshToken: string)

  function AccessToken(u: User, secret: string, now: Time): Token
  {
    Token(AccessClaims(u.id, u.email, u.roles), secret, now + AccessLifetime)
  }

  function RefreshToken(u: User, secret: string, now: Time): Token
  {
    Token(RefreshClaims(u.id), secret, now + RefreshLifetime)
  }

  /** `generateTokens(user)` at time `now`. */
  function GenerateTokens(s: Signer, c: Config, u: User, now: Time): (r: Result<TokenPair, JwtError>)
    ensures r.Failure? ==> r.error == SecretMissing || r.error == SigningFailed
    ensures (r.Failure? && r.error == SecretMissing) <==> Secret(c).None?
    ensures r.Success? ==>
      && Secret(c).Some?
      && s.sign(AccessToken(u, Secret(c).value, now)) == Some(r.value.accessToken)
      && s.sign(RefreshToken(u, Secret(c).value, now)) == Some(r.value.refreshToken)
    ensures Secret(c).Some? && r.Failure? ==>
      s.sign(AccessToken(u, Secret(c).value, now)).None? || s.sign(RefreshToken(u, Secret(c).value, now)).None?
  {
    var secret := Secret(c);
    if secret.None? then Failure(SecretMissing)
    else
      var access := s.sign(AccessToken(u, secret.value, now));
      var refresh := s.sign(RefreshToken(u, secret.value, now));
      if access.None? || refresh.None? then Failure(SigningFailed)
      else Success(TokenPair(access.value, refresh.value))
  }

  /** `verifyToken(token)` at time `now`: a bad structure, a foreign secret and
      an expired `exp` all end in the one error `InvalidOrExpired`. */
  function VerifyToken(s: Signer, c: Config, token: string, now: Time): (r: Result<Payload, JwtError>)
    ensures r.Failure? ==> r.error == SecretMissing || r.error == InvalidOrExpired
    ensures (r.Failure? && r.error == SecretMissing) <==> Secret(c).None?
    ensures r.Success? ==>
      && Secret(c).Some?
      && s.decode(token).Some?
      && s.decode(token).value.secret == Secret(c).value
      && now < s.decode(token).value.exp
      && r.value == s.decode(token).value.payload
    ensures (Secret(c).Some? && s.decode(token).Some? &&
             s.decode(token).value.secret == Secret(c).value && now < s.decode(token).value.exp) ==>
      r == Success(s.decode(token).value.payload)
  {
    var secret := Secret(c);
    if secret.None? then Failure(SecretMissing)
    else match s.decode(token)
      case None => Failure(InvalidOrExpired)
      case Some(t) =>
        if t.secret == secret.value && now < t.exp then Success(t.payload) else Failure(InvalidOrExpired)
  }

  /** Within its lifetime an issued access token verifies back to exactly
      `{userId, email, roles}` of the user, and the refresh token issued with
      it to `{userId}`: both carry the same secret, so `verifyToken` accepts
      either. */
  lemma IssuedTokensVerify(s: Signer, c: Config, u: User, now: Time, later: Time)
    requires Sound(s)
    requires GenerateTokens(s, c, u, now).Success?
    requires now <= later < now + AccessLifetime
    ensures var pair := GenerateTokens(s, c, u, now).value;
      && VerifyToken(s, c, pair.accessToken, later) == Success(AccessClaims(u.id, u.email, u.roles))
      && VerifyToken(s, c, pair.refreshToken, later) == Success(RefreshClaims(u.id))
  {
    var secret := Secret(c).value;
    assert s.sign(AccessToken(u, secret, now)).Some?;
    assert s.sign(RefreshToken(u, secret, now)).Some?;
  }

  /** The refresh token keeps verifying for seven days. */
  lemma RefreshTokenVerifies(s: Signer, c: Config, u: User, now: Time, later: Time)
    requires Sound(s)
    requires GenerateTokens(s, c, u, now).Success?
    requires now <= later < now + RefreshLifetime
    ensures VerifyToken(s, c, GenerateTokens(s, c, u, now).value.refreshToken, later) == Success(RefreshClaims(u.id))
  {
    assert s.sign(RefreshToken(u, Secret(c).value, now)).Some?;
  }

  /** Once `now` reaches `exp` the token fails, with the same error as a
      forged one: the access token after 24 hours, the refresh token after 7 days. */
  lemma IssuedTokensExpire(s: Signer, c: Config, u: User, now: Time, later: Time)
    requires Sound(s)
    requires GenerateTokens(s, c, u, now).Success?
    ensures var pair := GenerateTokens(s, c, u, now).value;
      && (later >= now + AccessLifetime ==> VerifyToken(s, c, pair.accessToken, later) == Failure(InvalidOrExpired))
      && (later >= now + RefreshLifetime ==> VerifyToken(s, c, pair.refreshToken, later) == Failure(InvalidOrExpired))
  {
    var secret := Secret(c).value;
    assert s.sign(AccessToken(u, secret, now)).Some?;
    assert s.sign(RefreshToken(u, secret, now)).Some?;
  }

  /** Only issued tokens verify: a string that verifies is what the signer
      produced for a token under the configured secret that has not expired,
      and verification yields that token's claims. */
  lemma OnlySignedTokensVerify(s: Signer, c: Config, token: string, now: Time)
    requires Sound(s) && VerifyToken(s, c, token, now).Success?
    ensures exists t :: s.sign(t) == Some(token) && t.secret == Secret(c).value && now < t.exp &&
                        VerifyToken(s, c, token, now).value == t.payload
  {
    var t := s.decode(token).value;
    assert s.sign(t) == Some(token);
  }

  /** A token signed under any other secret never verifies. */
  lemma ForeignSecretRejected(s: Signer, c: Config, t: Token, now: Time)
    requires Sound(s) && s.sign(t).Some?
    requires Secret(c).Some? && t.secret != Secret(c).value
    ensures VerifyToken(s, c, s.sign(t).value, now) == Failure(InvalidOrExpired)
  {
  }
}
