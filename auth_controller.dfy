/**
 * Registration and login (services/user-service/src/controllers/authController.ts).
 *
 * `RegisterSpec` and `LoginSpec` give the new table and the response of one
 * call; the `Register` and `Login` methods run the same steps against a
 * `UserStore` and are proved to agree with them. The request-body schemas
 * are not part of this model: a handler receives what the validator
 * produced, the value or the first error's message.
 */
module AuthController {
  import opened Base
  import opened Strings
  import opened Users
  import opened Tokens
  import opened Http

  datatype Validated<T> = Invalid(message: string) | Valid(value: T)

  datatype RegisterInput = RegisterInput(email: string, password: string, firstName: string, lastName: string, phone: Option<string>)

  datatype LoginInput = LoginInput(email: string, password: string)

  /** The `user` object of the 201 response. */
  datatype RegisteredView = RegisteredView(
    id: Id, email: string, firstName: string, lastName: string, phone: Option<string>,
    roles: seq<string>, isVerified: bool, createdAt: Time)

  /** The `user` object of the 200 login response; `last_login` is the time of the response. */
  datatype LoginView = LoginView(
    id: Id, email: string, firstName: string, lastName: string, phone: Option<string>,
    roles: seq<string>, isVerified: bool, lastLogin: Time)

  /** The `tokens` object of both responses. */
  datatype TokenBundle = TokenBundle(accessToken: string, refreshToken: string, tokenType: string, expiresIn: string)

  datatype Session<V> = Session(user: V, tokens: TokenBundle)

  /** The new table and the response of one handler call. */
  datatype Effect<B> = Effect(rows: Table, reply: Reply<B>)

  const UserExistsProblem := Problem(409, UserExists, "An account with this email address already exists")
  const InvalidCredentialsProblem := Problem(401, InvalidCredentials, "Invalid email or password")
  const RegistrationFailedProblem := Problem(500, InternalError, "Unable to create user account at this time")
  const LoginFailedProblem := Problem(500, InternalError, "Unable to process login request at this time")

  /** The `user` object of the 201 response: the created row's public columns. */
  function RegisteredViewOf(u: User): (view: RegisteredView)
    ensures view.id == u.id && view.email == u.email && view.roles == u.roles && view.isVerified == u.isVerified
    ensures view.firstName == u.firstName && view.lastName == u.lastName && view.phone == u.phone
    ensures view.createdAt == u.createdAt
  {
    RegisteredView(u.id, u.email, u.firstName, u.lastName, u.phone, u.roles, u.isVerified, u.createdAt)
  }

  /** The `user` object of the 200 response: the matched row's public
      columns, with `last_login` the time of this login rather than the stored one. */
  function LoginViewOf(u: User, now: Time): (view: LoginView)
    ensures view.id == u.id && view.email == u.email && view.roles == u.roles && view.isVerified == u.isVerified
    ensures view.firstName == u.firstName && view.lastName == u.lastName && view.phone == u.phone
    ensures view.lastLogin == now
  {
    LoginView(u.id, u.email, u.firstName, u.lastName, u.phone, u.roles, u.isVerified, now)
  }

  /** `process.env.JWT_EXPIRES_IN || '24h'`: only echoed, never used for the real expiry. */
  function ExpiresIn(c: Config): (r: string)
    ensures r != ""
    ensures c.jwtExpiresIn.Some? && c.jwtExpiresIn.value != "" ==> r == c.jwtExpiresIn.value
    ensures c.jwtExpiresIn.None? || c.jwtExpiresIn.value == "" ==> r == "24h"
  {
    if c.jwtExpiresIn.Some? && c.jwtExpiresIn.value != "" then c.jwtExpiresIn.value else "24h"
  }

  function Bundle(pair: TokenPair, c: Config): TokenBundle
  {
    TokenBundle(pair.accessToken, pair.refreshToken, "Bearer", ExpiresIn(c))
  }

  /** What `register` creates: the validated fields and the `customer` role. */
  function RegistrationData(v: RegisterInput): (d: CreateUserData)
    ensures d.roles == Some(["customer"])
    ensures d.email == v.email && d.password == v.password
    ensures d.firstName == v.firstName && d.lastName == v.lastName && d.phone == v.phone
  {
    CreateUserData(v.email, v.password, v.firstName, v.lastName, v.phone, Some(["customer"]))
  }

  /** One `register` call on table `t`; `up` says whether the database answers,
      `id` and `salt` stand for the fresh UUID and bcrypt salt. */
  ghost function RegisterSpec(t: Table, up: bool, h: Hasher, input: Validated<RegisterInput>,
                              s: Signer, c: Config, id: Id, salt: string, now: Time): (e: Effect<Session<RegisteredView>>)
    ensures e.reply.Rejected? && e.reply.problem.status == 500 ==> e.reply.problem == RegistrationFailedProblem
    ensures e.reply.Ok? ==> e.reply.status == 201 && e.reply.body.tokens.tokenType == "Bearer"
  {
    match input
    case Invalid(m) => Effect(t, Rejected(ValidationProblem(m)))
    case Valid(v) =>
      if !up then Effect(t, Rejected(RegistrationFailedProblem))
      else if ByEmail(t, v.email).Some? then Effect(t, Rejected(UserExistsProblem))
      else if !Insertable(t, id, v.email) then Effect(t, Rejected(RegistrationFailedProblem))
      else
        var row := NewRow(RegistrationData(v), id, Hash(h, v.password, salt, BcryptCost), now);
        var t' := t[id := row];
        match GenerateTokens(s, c, row.user, now)
        case Failure(_) => Effect(t', Rejected(RegistrationFailedProblem))
        case Success(pair) => Effect(t', Ok(201, Session(RegisteredViewOf(row.user), Bundle(pair, c))))
  }

  /** One `login` call on table `t`. */
  ghost function LoginSpec(t: Table, up: bool, h: Hasher, input: Validated<LoginInput>,
                           s: Signer, c: Config, now: Time): (e: Effect<Session<LoginView>>)
    ensures e.reply.Rejected? && e.reply.problem.status == 500 ==> e.reply.problem == LoginFailedProblem
    ensures e.reply.Ok? ==> e.reply.status == 200 && e.reply.body.tokens.tokenType == "Bearer"
  {
    match input
    case Invalid(m) => Effect(t, Rejected(ValidationProblem(m)))
    case Valid(v) =>
      if !up then Effect(t, Rejected(LoginFailedProblem))
      else match ByEmail(t, v.email)
        case None => Effect(t, Rejected(InvalidCredentialsProblem))
        case Some(row) =>
          if !Compare(h, v.password, row.passwordHash) then Effect(t, Rejected(InvalidCredentialsProblem))
          else
            var t' := TouchLastLogin(t, row.user.id, now);
            match GenerateTokens(s, c, row.user, now)
            case Failure(_) => Effect(t', Rejected(LoginFailedProblem))
            case Success(pair) => Effect(t', Ok(200, Session(LoginViewOf(row.user, now), Bundle(pair, c))))
  }

  /** A validation failure answers 400 with the first error's message and
      leaves the table alone, in both handlers. */
  lemma ValidationFailureFirst(t: Table, up: bool, h: Hasher, m: string, s: Signer, c: Config,
                               id: Id, salt: string, now: Time)
    ensures RegisterSpec(t, up, h, Invalid(m), s, c, id, salt, now) == Effect(t, Rejected(Problem(400, ValidationError, m)))
    ensures LoginSpec(t, up, h, Invalid(m), s, c, now) == Effect(t, Rejected(Problem(400, ValidationError, m)))
  {
  }

  /** A successful registration inserts exactly one row, under the fresh id,
      with the lower-cased email, the `customer` role only and a hash that
      verifies against the password; the response echoes that row. */
  lemma {:induction false} RegistrationCreatesCustomer(t: Table, up: bool, h: Hasher, v: RegisterInput,
                                   s: Signer, c: Config, id: Id, salt: string, now: Time)
    requires RegisterSpec(t, up, h, Valid(v), s, c, id, salt, now).reply.Ok?
    ensures var e := RegisterSpec(t, up, h, Valid(v), s, c, id, salt, now);
      && id !in t && e.rows.Keys == t.Keys + {id}
      && (forall k :: k in t ==> e.rows[k] == t[k])
      && e.rows[id].user.email == ToLower(v.email)
      && e.rows[id].user.roles == ["customer"]
      && Compare(h, v.password, e.rows[id].passwordHash)
      && e.reply.body.user == RegisteredViewOf(e.rows[id].user)
      && e.reply.body.tokens.expiresIn == ExpiresIn(c)
  {
    CreatedRow(t, RegistrationData(v), id, h, salt, now);
  }

  /** Registering an email twice, in any mix of letter case, is refused the
      second time with 409 and changes nothing. */
  lemma {:induction false} SecondRegistrationRefused(t: Table, h: Hasher, v: RegisterInput, w: RegisterInput,
                                 s: Signer, c: Config, id: Id, id2: Id, salt: string, salt2: string,
                                 now: Time, now2: Time)
    requires WellFormed(t)
    requires RegisterSpec(t, true, h, Valid(v), s, c, id, salt, now).reply.Ok?
    requires ToLower(w.email) == ToLower(v.email)
    ensures var t' := RegisterSpec(t, true, h, Valid(v), s, c, id, salt, now).rows;
      RegisterSpec(t', true, h, Valid(w), s, c, id2, salt2, now2) == Effect(t', Rejected(UserExistsProblem))
  {
    var hash := Hash(h, v.password, salt, BcryptCost);
    CreatedFoundByEmail(t, RegistrationData(v), id, hash, now, w.email);
  }

  /** The duplicate check sees only active rows, so the email of a
      deactivated account passes it; the insert then violates the email
      constraint and the call ends in a 500 with the table unchanged. */
  lemma DeactivatedEmailNotReusable(t: Table, h: Hasher, v: RegisterInput, s: Signer, c: Config,
                                    id: Id, salt: string, now: Time, retired: Id)
    requires retired in t && t[retired].user.email == ToLower(v.email) && !t[retired].user.isActive
    requires forall k :: k in t && t[k].user.email == ToLower(v.email) ==> !t[k].user.isActive
    ensures ByEmail(t, v.email).None?
    ensures RegisterSpec(t, true, h, Valid(v), s, c, id, salt, now) == Effect(t, Rejected(RegistrationFailedProblem))
  {
  }

  /** Token generation runs after the insert: without `JWT_SECRET` the
      account is created although the caller is told registration failed. */
  lemma MissingSecretStillCreates(t: Table, h: Hasher, v: RegisterInput, s: Signer, c: Config,
                                  id: Id, salt: string, now: Time)
    requires Secret(c).None?
    requires ByEmail(t, v.email).None? && Insertable(t, id, v.email)
    ensures var e := RegisterSpec(t, true, h, Valid(v), s, c, id, salt, now);
      && e.reply == Rejected(RegistrationFailedProblem)
      && id in e.rows && e.rows == t[id := e.rows[id]]
  {
  }

  /** Login does not reveal which emails are registered: "no such active
      user" and "wrong password" give the same response and leave the table
      unchanged. */
  lemma LoginEnumerationResistant(t1: Table, t2: Table, up: bool, h: Hasher, v: LoginInput,
                                  s: Signer, c: Config, now: Time)
    requires ByEmail(t1, v.email).None?
    requires ByEmail(t2, v.email).Some? && !Compare(h, v.password, ByEmail(t2, v.email).value.passwordHash)
    ensures LoginSpec(t1, up, h, Valid(v), s, c, now).reply == LoginSpec(t2, up, h, Valid(v), s, c, now).reply
    ensures LoginSpec(t1, up, h, Valid(v), s, c, now).rows == t1
    ensures LoginSpec(t2, up, h, Valid(v), s, c, now).rows == t2
    ensures up ==> LoginSpec(t1, up, h, Valid(v), s, c, now).reply == Rejected(InvalidCredentialsProblem)
  {
  }

  /** The table changes only once the password has verified, and then only
      in the `last_login` of the matched row. */
  lemma LoginChangesOnlyAfterPassword(t: Table, up: bool, h: Hasher, input: Validated<LoginInput>,
                                      s: Signer, c: Config, now: Time)
    requires LoginSpec(t, up, h, input, s, c, now).rows != t
    ensures input.Valid? && up
    ensures var row := ByEmail(t, input.value.email);
      && row.Some? && Compare(h, input.value.password, row.value.passwordHash)
      && LoginSpec(t, up, h, input, s, c, now).rows == TouchLastLogin(t, row.value.user.id, now)
  {
  }

  /** A registered user can log in with the same password under any letter
      case of the email, and the login records `last_login`. */
  lemma {:induction false} RegisterThenLogin(t: Table, h: Hasher, v: RegisterInput, email: string,
                         s: Signer, c: Config, id: Id, salt: string, now: Time, now2: Time)
    requires WellFormed(t)
    requires RegisterSpec(t, true, h, Valid(v), s, c, id, salt, now).reply.Ok?
    requires ToLower(email) == ToLower(v.email)
    ensures var t' := RegisterSpec(t, true, h, Valid(v), s, c, id, salt, now).rows;
      var e := LoginSpec(t', true, h, Valid(LoginInput(email, v.password)), s, c, now2);
      && (e.reply.Ok? || e.reply == Rejected(LoginFailedProblem))
      && e.rows[id].user.lastLogin == Some(now2)
  {
    var hash := Hash(h, v.password, salt, BcryptCost);
    CreatedFoundByEmail(t, RegistrationData(v), id, hash, now, email);
  }

  /** After the soft delete the account cannot log in: the response is the
      ordinary invalid-credentials one, even with the right password. */
  lemma {:induction false} DeactivatedCannotLogin(t: Table, h: Hasher, id: Id, when: Time, v: LoginInput,
                              s: Signer, c: Config, now: Time)
    requires WellFormed(t) && id in t
    requires ToLower(v.email) == t[id].user.email
    ensures LoginSpec(Deactivate(t, id, when), true, h, Valid(v), s, c, now) ==
      Effect(Deactivate(t, id, when), Rejected(InvalidCredentialsProblem))
  {
    var t' := Deactivate(t, id, when);
    forall k | k in t'
      ensures !SelectsEmail(t'[k], ToLower(v.email))
    {
      if k != id {
        assert t'[k] == t[k];
      }
    }
  }

  /** `AuthController.register`. */
  method Register(store: UserStore, input: Validated<RegisterInput>, s: Signer, c: Config,
                  id: Id, salt: string, now: Time) returns (reply: Reply<Session<RegisteredView>>)
    requires store.Valid()
    modifies store`rows
    ensures store.Valid()
    ensures Effect(store.rows, reply) ==
      RegisterSpec(old(store.rows), store.available, store.hasher, input, s, c, id, salt, now)
  {
    if input.Invalid? {
      return Rejected(ValidationProblem(input.message));
    }
    var v := input.value;
    var existing := store.FindByEmail(v.email);
    if existing.Failure? {
      return Rejected(RegistrationFailedProblem);
    }
    if existing.value.Some? {
      return Rejected(UserExistsProblem);
    }
    var created := store.Create(RegistrationData(v), id, salt, now);
    if created.Failure? {
      return Rejected(RegistrationFailedProblem);
    }
    var user := created.value;
    var tokens := GenerateTokens(s, c, user, now);
    if tokens.Failure? {
      return Rejected(RegistrationFailedProblem);
    }
    reply := Ok(201, Session(RegisteredViewOf(user), Bundle(tokens.value, c)));
  }

  /** `AuthController.login`. */
  method Login(store: UserStore, input: Validated<LoginInput>, s: Signer, c: Config, now: Time)
    returns (reply: Reply<Session<LoginView>>)
    requires store.Valid()
    modifies store`rows
    ensures store.Valid()
    ensures Effect(store.rows, reply) == LoginSpec(old(store.rows), store.available, store.hasher, input, s, c, now)
  {
    if input.Invalid? {
      return Rejected(ValidationProblem(input.message));
    }
    var v := input.value;
    var found := store.FindByEmailWithPassword(v.email);
    if found.Failure? {
      return Rejected(LoginFailedProblem);
    }
    if found.value.None? {
      return Rejected(InvalidCredentialsProblem);
    }
    var row := found.value.value;
    var isValidPassword := store.VerifyPassword(v.password, row.passwordHash);
    if !isValidPassword {
      return Rejected(InvalidCredentialsProblem);
    }
    var touched := store.UpdateLastLogin(row.user.id, now);
    if touched.Failure? {
      return Rejected(LoginFailedProblem);
    }
    var tokens := GenerateTokens(s, c, row.user, now);
    if tokens.Failure? {
      return Rejected(LoginFailedProblem);
    }
    reply := Ok(200, Session(LoginViewOf(row.user, now), Bundle(tokens.value, c)));
  }
}
