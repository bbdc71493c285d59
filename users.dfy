/**
 * The users table and the `UserModel` operations over it
 * (services/user-service/src/models/User.ts).
 *
 * The table is a map from id to row; `UserStore` holds it as mutable state.
 * bcrypt is an oracle: a one-way digest function fixed when the store is
 * built, applied to (password, salt, cost).
 */
module Users {
  import opened Base
  import opened Strings

  /** The `User` record: every column except the password hash. */
  datatype User = User(
    id: Id,
    email: string,
    firstName: string,
    lastName: string,
    phone: Option<string>,
    avatarUrl: Option<string>,
    roles: seq<string>,
    isVerified: bool,
    isActive: bool,
    lastLogin: Option<Time>,
    createdAt: Time,
    updatedAt: Time)

  /** `CreateUserData`: what `create` is given. */
  datatype CreateUserData = CreateUserData(
    email: string,
    password: string,
    firstName: string,
    lastName: string,
    phone: Option<string>,
    roles: Option<seq<string>>)

  /** The optional fields a profile update may supply. */
  datatype ProfilePatch = ProfilePatch(
    firstName: Option<string>,
    lastName: Option<string>,
    phone: Option<string>)

  /** A bcrypt hash: the work factor, the salt and the digest. */
  datatype PasswordHash = PasswordHash(cost: nat, salt: string, digest: string)

  /** The bcrypt primitive: an arbitrary one-way function of (password, salt, cost). */
  datatype Hasher = Hasher(digest: (string, string, nat) -> string)

  /** The work factor `create` passes to `bcrypt.hash`. */
  const BcryptCost: nat := 12

  /** `bcrypt.compare`: recompute the digest with the hash's own salt and cost. */
  predicate Compare(h: Hasher, password: string, hash: PasswordHash)
  {
    h.digest(password, hash.salt, hash.cost) == hash.digest
  }

  /** `bcrypt.hash`: whatever the digest function is, comparing the same
      password against the result succeeds. */
  function Hash(h: Hasher, password: string, salt: string, cost: nat): (r: PasswordHash)
    ensures r.cost == cost && r.salt == salt
    ensures Compare(h, password, r)
  {
    PasswordHash(cost, salt, h.digest(password, salt, cost))
  }

  /** The compare accepts exactly the password whose rehash, with the stored
      salt and cost, reproduces the stored hash. */
  lemma CompareIffRehash(h: Hasher, password: string, hash: PasswordHash)
    ensures Compare(h, password, hash) <==> Hash(h, password, hash.salt, hash.cost) == hash
  {
  }

  /** A stored row: `User & { password_hash }`. */
  datatype Row = Row(user: User, passwordHash: PasswordHash)

  type Table = map<Id, Row>

  /** Rows are keyed by their own id, emails are stored lower-cased, and no
      two rows share an email (the table's uniqueness constraint). */
  ghost predicate WellFormed(t: Table)
  {
    && (forall id :: id in t ==> t[id].user.id == id && IsLower(t[id].user.email))
    && (forall a, b :: a in t && b in t && t[a].user.email == t[b].user.email ==> a == b)
  }

  /** The `WHERE email = $1 AND is_active = true` condition. */
  predicate SelectsEmail(row: Row, key: string)
  {
    row.user.email == key && row.user.isActive
  }

  /** The row `findByEmailWithPassword(email)` returns on a table. */
  ghost function ByEmail(t: Table, email: string): (r: Option<Row>)
    ensures r.Some? ==> r.value in t.Values && SelectsEmail(r.value, ToLower(email))
    ensures r.None? <==> forall id :: id in t ==> !SelectsEmail(t[id], ToLower(email))
  {
    var key := ToLower(email);
    if exists id :: id in t && SelectsEmail(t[id], key) then
      var id :| id in t && SelectsEmail(t[id], key);
      Some(t[id])
    else
      None
  }

  /** The user `findById(id)` returns on a table: only an active row with that key. */
  function ById(t: Table, id: Id): Option<User>
  {
    if id in t && t[id].user.isActive then Some(t[id].user) else None
  }

  /** The public part of an optional row. */
  function UserOf(r: Option<Row>): Option<User>
  {
    if r.Some? then Some(r.value.user) else None
  }

  /** `userData.roles || ['customer']`: any array, even an empty one, is kept. */
  function RolesOrDefault(roles: Option<seq<string>>): (r: seq<string>)
    ensures roles.Some? ==> r == roles.value
    ensures roles.None? ==> r == ["customer"]
  {
    if roles.Some? then roles.value else ["customer"]
  }

  /** The row `create` inserts; the remaining columns take the table's
      defaults (`is_verified` false, `is_active` true, no avatar, no last login). */
  function NewRow(data: CreateUserData, id: Id, hash: PasswordHash, now: Time): (r: Row)
    ensures r.user.id == id && r.passwordHash == hash
    ensures r.user.email == ToLower(data.email) && IsLower(r.user.email)
    ensures r.user.firstName == data.firstName && r.user.lastName == data.lastName && r.user.phone == data.phone
    ensures r.user.roles == RolesOrDefault(data.roles)
    ensures r.user.isActive && !r.user.isVerified && r.user.avatarUrl.None? && r.user.lastLogin.None?
    ensures r.user.createdAt == now && r.user.updatedAt == now
  {
    ToLowerIsLower(data.email);
    Row(User(id, ToLower(data.email), data.firstName, data.lastName, data.phone, None,
             RolesOrDefault(data.roles), false, true, None, now, now),
        hash)
  }

  /** The insert violates no constraint: the id is new and so is the
      lower-cased email, among active and inactive rows alike. */
  predicate Insertable(t: Table, id: Id, email: string)
  {
    id !in t && forall k :: k in t ==> t[k].user.email != ToLower(email)
  }

  /** `UPDATE users SET last_login = NOW() WHERE id = $1` on a table. */
  function TouchLastLogin(t: Table, id: Id, now: Time): (r: Table)
    ensures r.Keys == t.Keys
    ensures forall k :: k in t && k != id ==> r[k] == t[k]
    ensures id in t ==>
      r[id].passwordHash == t[id].passwordHash && r[id].user == t[id].user.(lastLogin := Some(now))
  {
    if id in t then t[id := t[id].(user := t[id].user.(lastLogin := Some(now)))] else t
  }

  /** A supplied field replaces the old value; an absent one keeps it. */
  function Override<T>(patch: Option<T>, current: T): T
  {
    if patch.Some? then patch.value else current
  }

  /** The profile update on one user: supplied fields, and `updated_at`. */
  function Patched(u: User, patch: ProfilePatch, now: Time): User
  {
    u.(firstName := Override(patch.firstName, u.firstName),
       lastName := Override(patch.lastName, u.lastName),
       phone := if patch.phone.Some? then patch.phone else u.phone,
       updatedAt := now)
  }

  /** The profile update on a table. */
  function PatchProfile(t: Table, id: Id, patch: ProfilePatch, now: Time): (r: Table)
    ensures r.Keys == t.Keys
    ensures forall k :: k in t && k != id ==> r[k] == t[k]
  {
    if id in t then t[id := t[id].(user := Patched(t[id].user, patch, now))] else t
  }

  /** The soft delete on a table: `is_active` false, `updated_at` refreshed. */
  function Deactivate(t: Table, id: Id, now: Time): (r: Table)
    ensures r.Keys == t.Keys
    ensures forall k :: k in t && k != id ==> r[k] == t[k]
    ensures id in t ==> !r[id].user.isActive
  {
    if id in t then t[id := t[id].(user := t[id].user.(isActive := false, updatedAt := now))] else t
  }

  lemma InsertWellFormed(t: Table, data: CreateUserData, id: Id, hash: PasswordHash, now: Time)
    requires WellFormed(t) && Insertable(t, id, data.email)
    ensures WellFormed(t[id := NewRow(data, id, hash, now)])
  {
    ToLowerIsLower(data.email);
  }

  lemma PatchWellFormed(t: Table, id: Id, patch: ProfilePatch, now: Time)
    requires WellFormed(t)
    ensures WellFormed(PatchProfile(t, id, patch, now))
  {
  }

  lemma DeactivateWellFormed(t: Table, id: Id, now: Time)
    requires WellFormed(t)
    ensures WellFormed(Deactivate(t, id, now))
  {
  }

  lemma TouchWellFormed(t: Table, id: Id, now: Time)
    requires WellFormed(t)
    ensures WellFormed(TouchLastLogin(t, id, now))
  {
  }

  /** What `create` promises about the row it inserts: the email lower-cased,
      the default role, a hash (at cost 12) that verifies against the
      password, and an id that was not already taken. */
  lemma CreatedRow(t: Table, data: CreateUserData, id: Id, h: Hasher, salt: string, now: Time)
    requires Insertable(t, id, data.email)
    ensures var row := NewRow(data, id, Hash(h, data.password, salt, BcryptCost), now);
      && id !in t
      && row.user.id == id
      && IsLower(row.user.email) && row.user.email == ToLower(data.email)
      && (data.roles.None? ==> row.user.roles == ["customer"])
      && (data.roles.Some? ==> row.user.roles == data.roles.value)
      && row.passwordHash.cost == 12
      && Compare(h, data.password, row.passwordHash)
      && row.user.isActive && !row.user.isVerified && row.user.lastLogin.None?
  {
    ToLowerIsLower(data.email);
  }

  /** Emails match case-insensitively: a row created with one spelling of an
      email is what `findByEmailWithPassword` returns for every spelling that
      lower-cases to the same text. */
  lemma {:induction false} CreatedFoundByEmail(t: Table, data: CreateUserData, id: Id, hash: PasswordHash, now: Time, probe: string)
    requires WellFormed(t) && Insertable(t, id, data.email)
    requires ToLower(probe) == ToLower(data.email)
    ensures ByEmail(t[id := NewRow(data, id, hash, now)], probe) == Some(NewRow(data, id, hash, now))
  {
    var t' := t[id := NewRow(data, id, hash, now)];
    InsertWellFormed(t, data, id, hash, now);
    assert SelectsEmail(t'[id], ToLower(probe));
    var r := ByEmail(t', probe);
    assert r.Some?;
    var k :| k in t' && t'[k] == r.value;
    assert k == id;
  }

  /** The users table as the service's database holds it. */
  class UserStore {
    var rows: Table
    /** Whether the database answers; when it does not, every query throws. */
    var available: bool
    const hasher: Hasher

    ghost predicate Valid()
      reads this
    {
      WellFormed(rows)
    }

    constructor (hasher: Hasher)
      ensures Valid() && rows == map[] && available && this.hasher == hasher
    {
      this.rows := map[];
      this.available := true;
      this.hasher := hasher;
    }

    /** `UserModel.create`: `id` stands for the fresh `uuidv4()` and `salt` for
        bcrypt's random salt. The insert throws when the database is down or a
        constraint (id or email) is violated, and then the table is unchanged. */
    method Create(data: CreateUserData, id: Id, salt: string, now: Time) returns (r: Result<User, string>)
      requires Valid()
      modifies this`rows
      ensures Valid()
      ensures r.Success? <==> old(available) && Insertable(old(rows), id, data.email)
      ensures r.Success? ==>
        var row := NewRow(data, id, Hash(hasher, data.password, salt, BcryptCost), now);
        rows == old(rows)[id := row] && r.value == row.user
      ensures r.Failure? ==> rows == old(rows)
    {
      var hashed := Hash(hasher, data.password, salt, BcryptCost);
      if !available {
        return Failure("database unavailable");
      }
      if !Insertable(rows, id, data.email) {
        return Failure("constraint violation");
      }
      var row := NewRow(data, id, hashed, now);
      InsertWellFormed(rows, data, id, hashed, now);
      rows := rows[id := row];
      r := Success(row.user);
    }

    /** `UserModel.findByEmail`: the active row with the lower-cased email, without its hash. */
    method FindByEmail(email: string) returns (r: Result<Option<User>, string>)
      requires Valid()
      ensures available ==> r == Success(UserOf(ByEmail(rows, email)))
      ensures !available ==> r.Failure?
    {
      var withHash := FindByEmailWithPassword(email);
      if withHash.Failure? {
        return Failure(withHash.error);
      }
      r := Success(UserOf(withHash.value));
    }

    /** `UserModel.findByEmailWithPassword`: the same row, with its hash. */
    method FindByEmailWithPassword(email: string) returns (r: Result<Option<Row>, string>)
      requires Valid()
      ensures available ==> r == Success(ByEmail(rows, email))
      ensures !available ==> r.Failure?
    {
      if !available {
        return Failure("database unavailable");
      }
      var key := ToLower(email);
      if exists id :: id in rows && SelectsEmail(rows[id], key) {
        var id :| id in rows && SelectsEmail(rows[id], key);
        var chosen := ByEmail(rows, email);
        ghost var k :| k in rows && rows[k] == chosen.value;
        assert k == id;
        r := Success(Some(rows[id]));
      } else {
        r := Success(None);
      }
    }

    /** `UserModel.findById`: the row with that id, provided it is active. */
    method FindById(id: Id) returns (r: Result<Option<User>, string>)
      requires Valid()
      ensures available ==> r == Success(ById(rows, id))
      ensures available && r.value.Some? ==>
        id in rows && r.value.value == rows[id].user && r.value.value.id == id && r.value.value.isActive
      ensures available && r.value.None? ==> id !in rows || !rows[id].user.isActive
      ensures !available ==> r.Failure?
    {
      if !available {
        return Failure("database unavailable");
      }
      if id in rows && rows[id].user.isActive {
        r := Success(Some(rows[id].user));
      } else {
        r := Success(None);
      }
    }

    /** `UserModel.updateLastLogin`: sets `last_login` of that row (active or
        not) and nothing else; an absent id updates nothing. */
    method UpdateLastLogin(id: Id, now: Time) returns (r: Result<(), string>)
      requires Valid()
      modifies this`rows
      ensures Valid()
      ensures r.Success? <==> old(available)
      ensures r.Success? ==> rows == TouchLastLogin(old(rows), id, now)
      ensures r.Failure? ==> rows == old(rows)
    {
      if !available {
        return Failure("database unavailable");
      }
      TouchWellFormed(rows, id, now);
      rows := TouchLastLogin(rows, id, now);
      r := Success(());
    }

    /** `UserModel.verifyPassword`: exactly bcrypt's compare. */
    method VerifyPassword(password: string, hashed: PasswordHash) returns (ok: bool)
      ensures ok == Compare(hasher, password, hashed)
      ensures hashed == Hash(hasher, password, hashed.salt, hashed.cost) ==> ok
    {
      ok := Compare(hasher, password, hashed);
    }

    /** `UserModel.updateProfile`, which the service calls but the user model
        does not define: it patches the supplied fields of that row, refreshes
        `updated_at` and returns the updated user; with no such row it returns
        nothing. */
    method UpdateProfile(id: Id, patch: ProfilePatch, now: Time) returns (r: Result<Option<User>, string>)
      requires Valid()
      modifies this`rows
      ensures Valid()
      ensures r.Success? <==> old(available)
      ensures r.Success? ==> rows == PatchProfile(old(rows), id, patch, now)
      ensures r.Success? && id in old(rows) ==> r.value == Some(rows[id].user)
      ensures r.Success? && id !in old(rows) ==> r.value.None?
      ensures r.Failure? ==> rows == old(rows)
    {
      if !available {
        return Failure("database unavailable");
      }
      PatchWellFormed(rows, id, patch, now);
      rows := PatchProfile(rows, id, patch, now);
      if id in rows {
        r := Success(Some(rows[id].user));
      } else {
        r := Success(None);
      }
    }

    /** `UserModel.deactivateUser`, which the service calls but the user model
        does not define: the soft delete of that row; with no row under that
        id it throws (user not found) and changes nothing. */
    method DeactivateUser(id: Id, now: Time) returns (r: Result<(), string>)
      requires Valid()
      modifies this`rows
      ensures Valid()
      ensures r.Success? <==> old(available) && id in old(rows)
      ensures r.Success? ==> rows == Deactivate(old(rows), id, now)
      ensures r.Failure? ==> rows == old(rows)
    {
      if !available {
        return Failure("database unavailable");
      }
      if id !in rows {
        return Failure("user not found");
      }
      DeactivateWellFormed(rows, id, now);
      rows := Deactivate(rows, id, now);
      r := Success(());
    }
  }
}
