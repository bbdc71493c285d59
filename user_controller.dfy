/**
 * The profile handlers and the profile-update schema
 * (services/user-service/src/controllers/userController.ts).
 *
 * The schema is written as explicit predicates: a reference definition of a
 * valid patch, and the validator that checks the fields in schema order and
 * the rules of each field in declaration order, reporting the first failure.
 */
module UserController {
  import opened Base
  import opened Users
  import opened Http

  predicate IsAsciiLetter(c: char)
  {
    'a' <= c <= 'z' || 'A' <= c <= 'Z'
  }

  /** The characters the JavaScript regular-expression class `\s` matches. */
  predicate IsRegexSpace(c: char)
  {
    || '\t' <= c <= '\r'
    || c == ' ' || c == '\U{00A0}' || c == '\U{1680}'
    || '\U{2000}' <= c <= '\U{200A}'
    || c == '\U{2028}' || c == '\U{2029}' || c == '\U{202F}' || c == '\U{205F}'
    || c == '\U{3000}' || c == '\U{FEFF}'
  }

  predicate IsNameChar(c: char)
  {
    IsAsciiLetter(c) || IsRegexSpace(c)
  }

  predicate IsDigit(c: char)
  {
    '0' <= c <= '9'
  }

  /** A valid first or last name: 2 to 50 characters, letters and white space only. */
  predicate ValidName(s: string)
  {
    2 <= |s| <= 50 && forall i :: 0 <= i < |s| ==> IsNameChar(s[i])
  }

  /** A valid South African phone number, or the empty string that clears it:
      `+27` or `0` followed by exactly nine digits. */
  predicate ValidPhone(s: string)
  {
    || s == ""
    || (|s| == 12 && s[..3] == "+27" && forall i :: 3 <= i < 12 ==> IsDigit(s[i]))
    || (|s| == 10 && s[0] == '0' && forall i :: 1 <= i < 10 ==> IsDigit(s[i]))
  }

  /** Every supplied field is valid; absent fields are not checked. */
  predicate ValidPatch(p: ProfilePatch)
  {
    && (p.firstName.Some? ==> ValidName(p.firstName.value))
    && (p.lastName.Some? ==> ValidName(p.lastName.value))
    && (p.phone.Some? ==> ValidPhone(p.phone.value))
  }

  /** `[a-zA-Z\s]*` matched character by character. */
  predicate NameChars(s: string)
  {
    s == [] || (IsNameChar(s[0]) && NameChars(s[1..]))
  }

  /** `[0-9]{n}`, matched character by character. */
  predicate Digits(s: string, n: nat)
  {
    if n == 0 then s == [] else s != [] && IsDigit(s[0]) && Digits(s[1..], n - 1)
  }

  lemma {:induction false} NameCharsAll(s: string)
    ensures NameChars(s) <==> forall i :: 0 <= i < |s| ==> IsNameChar(s[i])
  {
    if s != [] {
      NameCharsAll(s[1..]);
      assert forall i :: 1 <= i < |s| ==> s[i] == s[1..][i - 1];
    }
  }

  lemma {:induction false} DigitsAll(s: string, n: nat)
    ensures Digits(s, n) <==> |s| == n && forall i :: 0 <= i < |s| ==> IsDigit(s[i])
  {
    if n > 0 && s != [] {
      DigitsAll(s[1..], n - 1);
      assert forall i :: 1 <= i < |s| ==> s[i] == s[1..][i - 1];
    }
  }

  /** `/^[a-zA-Z\s]+$/`. */
  predicate NamePattern(s: string)
  {
    s != [] && NameChars(s)
  }

  /** `/^(\+27|0)[0-9]{9}$/`: one of the two prefixes, then nine digits. */
  predicate PhonePattern(s: string)
  {
    || (|s| >= 3 && s[..3] == "+27" && Digits(s[3..], 9))
    || (|s| >= 1 && s[0] == '0' && Digits(s[1..], 9))
  }

  /** The messages of one name field's rules. */
  datatype NameMessages = NameMessages(empty: string, min: string, max: string, pattern: string)

  const FirstNameMessages := NameMessages(
    "\"first_name\" is not allowed to be empty",
    "First name must be at least 2 characters",
    "First name cannot exceed 50 characters",
    "First name can only contain letters and spaces")

  const LastNameMessages := NameMessages(
    "\"last_name\" is not allowed to be empty",
    "Last name must be at least 2 characters",
    "Last name cannot exceed 50 characters",
    "Last name can only contain letters and spaces")

  const PhoneMessage := "Please provide a valid South African phone number"

  /** A name field's rules in order: non-empty, `min(2)`, `max(50)`, `pattern`. */
  function CheckName(s: string, m: NameMessages): (r: Option<string>)
    ensures r.None? <==> ValidName(s)
    ensures r.Some? ==> r.value in {m.empty, m.min, m.max, m.pattern}
  {
    NameCharsAll(s);
    if s == "" then Some(m.empty)
    else if |s| < 2 then Some(m.min)
    else if |s| > 50 then Some(m.max)
    else if !NamePattern(s) then Some(m.pattern)
    else None
  }

  /** The phone field: `''` is allowed outright, anything else must match the pattern. */
  function CheckPhone(s: string): (r: Option<string>)
    ensures r.None? <==> ValidPhone(s)
    ensures r.Some? ==> r.value == PhoneMessage
  {
    if s == "" then None
    else
      assert |s| >= 3 ==> Digits(s[3..], 9) == (|s| == 12 && forall i :: 3 <= i < 12 ==> IsDigit(s[i])) by {
        if |s| >= 3 {
          DigitsAll(s[3..], 9);
          assert forall i :: 3 <= i < |s| ==> s[i] == s[3..][i - 3];
        }
      }
      assert |s| >= 1 ==> Digits(s[1..], 9) == (|s| == 10 && forall i :: 1 <= i < 10 ==> IsDigit(s[i])) by {
        if |s| >= 1 {
          DigitsAll(s[1..], 9);
          assert forall i :: 1 <= i < |s| ==> s[i] == s[1..][i - 1];
        }
      }
      if PhonePattern(s) then None else Some(PhoneMessage)
  }

  /** `updateProfileSchema.validate(body)`: the first error's message, if any. */
  function ValidateProfile(p: ProfilePatch): (r: Option<string>)
    ensures r.None? <==> ValidPatch(p)
    ensures p.firstName.Some? && !ValidName(p.firstName.value) ==>
      r.Some? && r.value in {FirstNameMessages.empty, FirstNameMessages.min, FirstNameMessages.max, FirstNameMessages.pattern}
    ensures (p.firstName.None? || ValidName(p.firstName.value)) && p.lastName.Some? && !ValidName(p.lastName.value) ==>
      r.Some? && r.value in {LastNameMessages.empty, LastNameMessages.min, LastNameMessages.max, LastNameMessages.pattern}
    ensures ((p.firstName.None? || ValidName(p.firstName.value)) && (p.lastName.None? || ValidName(p.lastName.value)) &&
             p.phone.Some? && !ValidPhone(p.phone.value)) ==> r == Some(PhoneMessage)
  {
    if p.firstName.Some? && CheckName(p.firstName.value, FirstNameMessages).Some? then
      CheckName(p.firstName.value, FirstNameMessages)
    else if p.lastName.Some? && CheckName(p.lastName.value, LastNameMessages).Some? then
      CheckName(p.lastName.value, LastNameMessages)
    else if p.phone.Some? then
      CheckPhone(p.phone.value)
    else
      None
  }

  /** Names of white space alone pass, hyphens and apostrophes do not; the
      three phone shapes that pass and two near misses. */
  lemma ValidationExamples()
    ensures ValidName("  ") && ValidName("Jo")
    ensures CheckName("J", FirstNameMessages) == Some(FirstNameMessages.min)
    ensures CheckName("", FirstNameMessages) == Some(FirstNameMessages.empty)
    ensures CheckName("Anne-Marie", FirstNameMessages) == Some(FirstNameMessages.pattern)
    ensures ValidPhone("") && ValidPhone("+27821234567") && ValidPhone("0821234567")
    ensures !ValidPhone("27821234567") && !ValidPhone("+270821234567")
  {
    assert IsNameChar("Anne-Marie"[0]) && !IsNameChar("Anne-Marie"[4]);
    assert "+27821234567"[..3] == "+27";
    assert "+270821234567"[0] != '0';
    assert !IsDigit("27821234567"[0]) || "27821234567"[0] != '0';
  }

  /** The profile `user` object: every column but `password_hash` and `is_active`. */
  datatype ProfileView = ProfileView(
    id: Id, email: string, firstName: string, lastName: string, phone: Option<string>,
    avatarUrl: Option<string>, roles: seq<string>, isVerified: bool, lastLogin: Option<Time>,
    createdAt: Time, updatedAt: Time)

  function ProfileViewOf(u: User): (view: ProfileView)
    ensures view.id == u.id && view.email == u.email && view.roles == u.roles && view.isVerified == u.isVerified
    ensures view.firstName == u.firstName && view.lastName == u.lastName && view.phone == u.phone
    ensures view.avatarUrl == u.avatarUrl && view.lastLogin == u.lastLogin
    ensures view.createdAt == u.createdAt && view.updatedAt == u.updatedAt
  {
    ProfileView(u.id, u.email, u.firstName, u.lastName, u.phone, u.avatarUrl, u.roles,
                u.isVerified, u.lastLogin, u.createdAt, u.updatedAt)
  }

  /** The view does not depend on the active flag, and the password hash is
      not in the `User` record it is built from. */
  lemma ProfileViewHidesActiveFlag(u: User, b: bool)
    ensures ProfileViewOf(u.(isActive := b)) == ProfileViewOf(u)
  {
  }

  /** The body of the account-deletion response. */
  datatype Farewell = AccountDeactivated

  const ProfileNotFoundProblem := Problem(404, UserNotFound, "User profile not found")
  const RetrievalFailedProblem := Problem(500, InternalError, "Unable to retrieve user profile at this time")
  const UpdateFailedProblem := Problem(500, InternalError, "Unable to update user profile at this time")
  const DeletionFailedProblem := Problem(500, InternalError, "Unable to deactivate account at this time")

  /** `UserController.getProfile` for the caller in `req.user` (a missing one
      makes `req.user!.id` throw, which ends in the 500). */
  method GetProfile(store: UserStore, caller: Option<AuthUser>) returns (reply: Reply<ProfileView>)
    requires store.Valid()
    ensures caller.None? || !store.available ==> reply == Rejected(RetrievalFailedProblem)
    ensures caller.Some? && store.available && ById(store.rows, caller.value.id).None? ==>
      reply == Rejected(ProfileNotFoundProblem)
    ensures caller.Some? && store.available && ById(store.rows, caller.value.id).Some? ==>
      reply == Ok(200, ProfileViewOf(store.rows[caller.value.id].user))
  {
    if caller.None? {
      return Rejected(RetrievalFailedProblem);
    }
    var userId := caller.value.id;
    var found := store.FindById(userId);
    if found.Failure? {
      return Rejected(RetrievalFailedProblem);
    }
    if found.value.None? {
      return Rejected(ProfileNotFoundProblem);
    }
    reply := Ok(200, ProfileViewOf(found.value.value));
  }

  /** `UserController.updateProfile`: validate, then look the caller up, then
      update; every failure before the update leaves the table as it was. */
  method UpdateProfile(store: UserStore, caller: Option<AuthUser>, patch: ProfilePatch, now: Time)
    returns (reply: Reply<ProfileView>)
    requires store.Valid()
    modifies store`rows
    ensures store.Valid()
    ensures caller.None? ==> reply == Rejected(UpdateFailedProblem) && store.rows == old(store.rows)
    ensures caller.Some? && ValidateProfile(patch).Some? ==>
      reply == Rejected(ValidationProblem(ValidateProfile(patch).value)) && store.rows == old(store.rows)
    ensures caller.Some? && ValidateProfile(patch).None? && !store.available ==>
      reply == Rejected(UpdateFailedProblem) && store.rows == old(store.rows)
    ensures caller.Some? && ValidateProfile(patch).None? && store.available && ById(old(store.rows), caller.value.id).None? ==>
      reply == Rejected(ProfileNotFoundProblem) && store.rows == old(store.rows)
    ensures caller.Some? && ValidateProfile(patch).None? && store.available && ById(old(store.rows), caller.value.id).Some? ==>
      && store.rows == PatchProfile(old(store.rows), caller.value.id, patch, now)
      && reply == Ok(200, ProfileViewOf(store.rows[caller.value.id].user))
  {
    if caller.None? {
      return Rejected(UpdateFailedProblem);
    }
    var userId := caller.value.id;
    var error := ValidateProfile(patch);
    if error.Some? {
      return Rejected(ValidationProblem(error.value));
    }
    var current := store.FindById(userId);
    if current.Failure? {
      return Rejected(UpdateFailedProblem);
    }
    if current.value.None? {
      return Rejected(ProfileNotFoundProblem);
    }
    var updated := store.UpdateProfile(userId, patch, now);
    if updated.Failure? || updated.value.None? {
      return Rejected(UpdateFailedProblem);
    }
    reply := Ok(200, ProfileViewOf(updated.value.value));
  }

  /** `UserController.deleteAccount`: deactivates the caller's own row and
      reports success; there is no 404 answer, so a row that is not there
      ends, through `deactivateUser`'s throw, in the generic 500. */
  method DeleteAccount(store: UserStore, caller: Option<AuthUser>, now: Time) returns (reply: Reply<Farewell>)
    requires store.Valid()
    modifies store`rows
    ensures store.Valid()
    ensures caller.None? || !store.available || caller.value.id !in old(store.rows) ==>
      reply == Rejected(DeletionFailedProblem) && store.rows == old(store.rows)
    ensures caller.Some? && store.available && caller.value.id in old(store.rows) ==>
      reply == Ok(200, AccountDeactivated) && store.rows == Deactivate(old(store.rows), caller.value.id, now)
  {
    if caller.None? {
      return Rejected(DeletionFailedProblem);
    }
    var userId := caller.value.id;
    var done := store.DeactivateUser(userId, now);
    if done.Failure? {
      return Rejected(DeletionFailedProblem);
    }
    reply := Ok(200, AccountDeactivated);
  }

  /** A patch that supplies only the phone keeps both names, sets the phone
      and refreshes `updated_at`; no other row changes. */
  lemma PhoneOnlyPatch(t: Table, id: Id, phone: string, now: Time)
    requires id in t
    ensures var r := PatchProfile(t, id, ProfilePatch(None, None, Some(phone)), now);
      && r[id].user.firstName == t[id].user.firstName
      && r[id].user.lastName == t[id].user.lastName
      && r[id].user.phone == Some(phone)
      && r[id].user.updatedAt == now
      && r[id].user.email == t[id].user.email && r[id].user.roles == t[id].user.roles
      && r[id].passwordHash == t[id].passwordHash
      && forall k :: k in t && k != id ==> r[k] == t[k]
  {
  }

  /** After its account is deleted the caller's profile is gone: `getProfile`
      would answer 404, because the row is now inactive. */
  lemma DeletedProfileNotFound(t: Table, id: Id, now: Time)
    ensures ById(Deactivate(t, id, now), id).None?
  {
  }
}
