/**
 * `AppUserService` with `UpdateAppUserRequestDTOMapper`: reading, creating, editing and
 * deleting accounts and listing roles. The password encoder is the parameter `hash`;
 * the new tsid, the token UUID, the clock and the outcome of the mail transport are
 * parameters too.
 */
module AppUserService {
  import opened Base
  import opened JavaText
  import opened Entities
  import opened Store
  import opened Mappers
  import opened Requests
  import opened Credentials
  import opened RoleConverter
  import opened Verification
  import opened CountUtil

  const NO_ROLES: string := "No roles found"
  /** The `@NotNull` property of `AppUser` a request without an email leaves null. */
  const EMAIL_PROPERTY: string := "email"

  // ---- UpdateAppUserRequestDTOMapper -----------------------------------------------

  /** The mapper's guard `x != null && !x.isBlank()`: only such a value is written. */
  predicate Given(s: Option<string>)
  {
    s.Some? && !IsBlank(s.value)
  }

  /** `setInitialValues`: names, phone and password are overwritten by given values
      only; a new phone is unverified and a new password is stored hashed. Tsid, email,
      `isEnabled` and roles are not touched here. */
  function SetInitialValues(u: AppUser, d: UpdateAppUserRequest, hash: string -> string): (r: AppUser)
    ensures r.tsid == u.tsid && r.email == u.email && r.isEnabled == u.isEnabled && r.roles == u.roles
    ensures Given(d.firstName) ==> r.firstName == d.firstName.value
    ensures !Given(d.firstName) ==> r.firstName == u.firstName
    ensures Given(d.lastName) ==> r.lastName == d.lastName.value
    ensures !Given(d.lastName) ==> r.lastName == u.lastName
    ensures Given(d.phoneNumber) ==> r.phoneNumber == d.phoneNumber && !r.isPhoneVerified
    ensures !Given(d.phoneNumber) ==> r.phoneNumber == u.phoneNumber && r.isPhoneVerified == u.isPhoneVerified
    ensures Given(d.password) ==> r.password == hash(d.password.value)
    ensures !Given(d.password) ==> r.password == u.password
  {
    var u1 := if Given(d.firstName) then u.(firstName := d.firstName.value) else u;
    var u2 := if Given(d.lastName) then u1.(lastName := d.lastName.value) else u1;
    var u3 := if Given(d.phoneNumber) then u2.(phoneNumber := d.phoneNumber, isPhoneVerified := false) else u2;
    if Given(d.password) then u3.(password := hash(d.password.value)) else u3
  }

  /** The administrator path is taken when the caller holds "ROLE_ADMIN" and the request
      names a tsid; every other request edits the caller. */
  predicate AdminPath(d: UpdateAppUserRequest, caller: AppUser)
  {
    IsAdmin(caller) && d.tsid.Some?
  }

  /** `map(requestDTO, loggedInUser)`. On the administrator path the named user is
      loaded (`Long.parseLong`, then `AppUserNotFoundException("tsid", ...)`), a given
      email replaces the old one and disables the account, and the roles are replaced by
      `convertToRoles`; on the other path the caller is edited as it is. */
  function MappedUser(t: Tables, d: UpdateAppUserRequest, caller: AppUser, hash: string -> string): (r: Result<AppUser>)
    ensures !AdminPath(d, caller) ==> r == Success(SetInitialValues(caller, d, hash))
    ensures AdminPath(d, caller) && ParseLong(d.tsid).None? ==> r == Failure(NumberFormat(d.tsid))
    ensures AdminPath(d, caller) && ParseLong(d.tsid).Some? && ParseLong(d.tsid).value !in t.users ==>
      r == Failure(AppUserNotFound("tsid", d.tsid.value))
    ensures AdminPath(d, caller) && ParseLong(d.tsid).Some? && ParseLong(d.tsid).value in t.users ==>
      var target := t.users[ParseLong(d.tsid).value];
      var roles := ConvertToRoles(d.userRoleTsids, t.roles);
      (roles.Failure? ==> r == Failure(roles.error))
      && (roles.Success? ==>
            r.Success? && r.value.tsid == target.tsid && r.value.roles == roles.value
            && (Given(d.email) ==> r.value.email == d.email && !r.value.isEnabled)
            && (!Given(d.email) ==> r.value.email == target.email && r.value.isEnabled == target.isEnabled)
            && r.value.(email := target.email, isEnabled := target.isEnabled, roles := target.roles)
               == SetInitialValues(target, d, hash))
  {
    if AdminPath(d, caller) then
      match ParseLong(d.tsid)
      case None => Failure(NumberFormat(d.tsid))
      case Some(id) =>
        if id !in t.users then Failure(AppUserNotFound("tsid", d.tsid.value))
        else
          var u := t.users[id];
          var u1 := if Given(d.email) then u.(email := d.email, isEnabled := false) else u;
          match ConvertToRoles(d.userRoleTsids, t.roles)
          case Failure(e) => Failure(e)
          case Success(roles) => Success(SetInitialValues(u1.(roles := roles), d, hash))
    else Success(SetInitialValues(caller, d, hash))
  }

  /** The mapper as the Java code runs it, one setter at a time on the loaded or the
      logged-in user. It reads the store and changes nothing. */
  method MapUpdateAppUserRequest(db: Database, d: UpdateAppUserRequest, caller: AppUser, hash: string -> string)
    returns (r: Result<AppUser>)
    ensures r == MappedUser(db.Snapshot(), d, caller, hash)
  {
    var u: AppUser;
    if IsAdmin(caller) && d.tsid.Some? {
      var id := ParseLong(d.tsid);
      if id.None? {
        return Failure(NumberFormat(d.tsid));
      }
      if id.value !in db.users {
        return Failure(AppUserNotFound("tsid", d.tsid.value));
      }
      u := db.users[id.value];
      if d.email.Some? {
        if !IsBlank(d.email.value) {
          u := u.(email := d.email);
          u := u.(isEnabled := false);
        }
      }
      var roles := ConvertToRoles(d.userRoleTsids, db.roles);
      if roles.Failure? {
        return Failure(roles.error);
      }
      u := u.(roles := roles.value);
    } else {
      u := caller;
    }
    u := SetInitialValuesSteps(u, d, hash);
    r := Success(u);
  }

  /** `setInitialValues` as the Java code runs it: one guarded setter per field. */
  method SetInitialValuesSteps(user: AppUser, d: UpdateAppUserRequest, hash: string -> string) returns (r: AppUser)
    ensures r == SetInitialValues(user, d, hash)
  {
    var u := user;
    if d.firstName.Some? {
      if !IsBlank(d.firstName.value) {
        u := u.(firstName := d.firstName.value);
      }
    }
    assert u == if Given(d.firstName) then user.(firstName := d.firstName.value) else user;
    ghost var u1 := u;
    if d.lastName.Some? {
      if !IsBlank(d.lastName.value) {
        u := u.(lastName := d.lastName.value);
      }
    }
    assert u == if Given(d.lastName) then u1.(lastName := d.lastName.value) else u1;
    ghost var u2 := u;
    if d.phoneNumber.Some? {
      if !IsBlank(d.phoneNumber.value) {
        u := u.(phoneNumber := d.phoneNumber);
        u := u.(isPhoneVerified := false);
      }
    }
    assert u == if Given(d.phoneNumber) then u2.(phoneNumber := d.phoneNumber, isPhoneVerified := false) else u2;
    ghost var u3 := u;
    if d.password.Some? {
      if !IsBlank(d.password.value) {
        u := u.(password := hash(d.password.value));
      }
    }
    assert u == if Given(d.password) then u3.(password := hash(d.password.value)) else u3;
    r := u;
  }

  /** A user who is not an administrator, or a request without a tsid, edits the caller
      whatever else the request says: the caller's tsid, email, enabled flag and roles
      stay. */
  lemma SelfEditKeepsIdentity(t: Tables, d: UpdateAppUserRequest, caller: AppUser, hash: string -> string)
    requires !IsAdmin(caller) || d.tsid.None?
    ensures MappedUser(t, d, caller, hash).Success?
    ensures var u := MappedUser(t, d, caller, hash).value;
      u.tsid == caller.tsid && u.email == caller.email && u.isEnabled == caller.isEnabled
      && u.roles == caller.roles
  {
  }

  /** Blank or missing fields leave the user as it was: a request that gives nothing
      changes nothing on the caller's own path. */
  lemma NothingGivenKeepsUser(d: UpdateAppUserRequest, u: AppUser, hash: string -> string)
    requires !Given(d.firstName) && !Given(d.lastName) && !Given(d.phoneNumber) && !Given(d.password)
    ensures SetInitialValues(u, d, hash) == u
  {
  }

  /** Writing the same fields twice is writing them once. */
  lemma SetInitialValuesIdempotent(u: AppUser, d: UpdateAppUserRequest, hash: string -> string)
    ensures SetInitialValues(SetInitialValues(u, d, hash), d, hash) == SetInitialValues(u, d, hash)
  {
  }

  // ---- getAppUser -------------------------------------------------------------------

  /** `getAppUser(tsid)`: the projection of the stored user, or
      `AppUserNotFoundException("TSID", tsid)`. */
  function GetAppUser(t: Tables, tsid: int): (r: Result<AppUserResponse>)
    ensures r.Failure? <==> tsid !in t.users
    ensures r.Failure? ==> r.error == AppUserNotFound("TSID", IntToString(tsid))
    ensures r.Success? ==> r.value == AppUserResponseOf(t.users[tsid])
  {
    if tsid in t.users then Success(AppUserResponseOf(t.users[tsid]))
    else Failure(AppUserNotFound("TSID", IntToString(tsid)))
  }

  // ---- addAppUser --------------------------------------------------------------------

  /** `addAppUser`: the mapped user gets the fresh tsid, the hashed password and the
      converted roles, is saved, gets one verification token, and is mailed; the reply is
      the saved user re-read. A failed role conversion saves nothing. The request lets a
      null email through, but the entity's email is `@NotNull`, so the save refuses
      it and nothing is stored. A mail failure (`MessagingException` or Spring's
      `MailException`) propagates after the user and the token were saved. */
  function AddAppUserSpec(t: Tables, d: AddAppUserRequest, hash: string -> string, tsid: int,
                          uuid: string, now: int, mail: MailOutcome): (o: Outcome<Reply<AppUserResponse>>)
    requires d.firstName.Some? && d.lastName.Some? && d.password.Some?
    ensures ConvertToRoles(d.userRoleTsids, t.roles).Failure? ==>
      o == Outcome(t, Failure(ConvertToRoles(d.userRoleTsids, t.roles).error))
    ensures ConvertToRoles(d.userRoleTsids, t.roles).Success? && d.email.None? ==>
      o == Outcome(t, Failure(ConstraintViolation(EMAIL_PROPERTY)))
    ensures ConvertToRoles(d.userRoleTsids, t.roles).Success? && d.email.Some? ==>
      tsid in o.tables.users
      && o.tables == t.(users := t.users[tsid := o.tables.users[tsid]],
                        emailTokens := t.emailTokens + [EmailToken(tsid, uuid, now)])
      && var u := o.tables.users[tsid];
         u.tsid == tsid && !u.isEnabled && !u.isPhoneVerified
         && Some(u.firstName) == d.firstName && Some(u.lastName) == d.lastName
         && u.email == d.email && u.phoneNumber == d.phoneNumber
         && u.password == hash(d.password.value)
         && u.roles == ConvertToRoles(d.userRoleTsids, t.roles).value
         && o.result == (if mail.MailSent? then Success(Done(AppUserResponseOf(u)))
                         else Failure(if mail.MessagingFailed? then MailFailure else MailSendFailure))
    ensures TablesValid(t) ==> TablesValid(o.tables)
  {
    var u := AppUserOfAddRequest(d, tsid);
    var u1 := u.(password := hash(u.password));
    match ConvertToRoles(d.userRoleTsids, t.roles)
    case Failure(e) => Outcome(t, Failure(e))
    case Success(roles) =>
      if d.email.None? then Outcome(t, Failure(ConstraintViolation(EMAIL_PROPERTY)))
      else
        var added := u1.(roles := roles);
        var after := t.(users := t.users[tsid := added],
                        emailTokens := t.emailTokens + [EmailToken(tsid, uuid, now)]);
        if mail.MailSent? then Outcome(after, Success(Done(AppUserResponseOf(after.users[tsid]))))
        else Outcome(after, Failure(if mail.MessagingFailed? then MailFailure else MailSendFailure))
  }

  method AddAppUser(db: Database, d: AddAppUserRequest, hash: string -> string, tsid: int,
                    uuid: string, now: int, mail: MailOutcome) returns (r: Result<Reply<AppUserResponse>>)
    requires d.firstName.Some? && d.lastName.Some? && d.password.Some?
    modifies db
    ensures Outcome(db.Snapshot(), r) == AddAppUserSpec(old(db.Snapshot()), d, hash, tsid, uuid, now, mail)
  {
    var appUser := AppUserOfAddRequest(d, tsid);
    appUser := appUser.(password := hash(appUser.password));
    var roles := ConvertToRoles(d.userRoleTsids, db.roles);
    if roles.Failure? {
      return Failure(roles.error);
    }
    appUser := appUser.(roles := roles.value);
    if appUser.email.None? {
      return Failure(ConstraintViolation(EMAIL_PROPERTY));
    }
    db.SaveUser(appUser);
    var verification := CreateVerifyLink(db, appUser, uuid, now);
    if !mail.MailSent? {
      return Failure(if mail.MessagingFailed? then MailFailure else MailSendFailure);
    }
    var reread := db.users[tsid];
    r := Success(Done(AppUserResponseOf(reread)));
  }

  /** A new account cannot log in until its mailed token is followed: it is disabled,
      and following the link within 24 hours enables it and changes nothing else of it. */
  lemma NewAccountVerifiesByMail(t: Tables, d: AddAppUserRequest, hash: string -> string, tsid: int,
                                 uuid: string, now: int, mail: MailOutcome, later: int)
    requires d.firstName.Some? && d.lastName.Some? && d.password.Some? && d.email.Some?
    requires ConvertToRoles(d.userRoleTsids, t.roles).Success?
    requires FindEmailToken(t.emailTokens, uuid).None?
    requires now <= later < now + 24 * 3600 * NANOS_PER_SECOND
    ensures var t1 := AddAppUserSpec(t, d, hash, tsid, uuid, now, mail).tables;
      !IsEnabled(t1.users[tsid])
      && var o := VerifyAccountSpec(t1, uuid, later);
         o.result.value && o.tables.users[tsid] == t1.users[tsid].(isEnabled := true)
  {
    var t1 := AddAppUserSpec(t, d, hash, tsid, uuid, now, mail).tables;
    var tok := EmailToken(tsid, uuid, now);
    assert t1.emailTokens == t.emailTokens + [tok];
    assert (t.emailTokens + [tok])[|t.emailTokens|] == tok;
    assert FindEmailToken(t1.emailTokens, uuid) == Some(tok);
  }

  // ---- updateAppUser ----------------------------------------------------------------

  /** `updateAppUser`: the mapped user is saved and the reply is that user re-read. */
  function UpdateAppUserSpec(t: Tables, d: UpdateAppUserRequest, caller: AppUser, hash: string -> string)
    : (o: Outcome<AppUserResponse>)
    ensures MappedUser(t, d, caller, hash).Failure? ==> o == Outcome(t, Failure(MappedUser(t, d, caller, hash).error))
    ensures MappedUser(t, d, caller, hash).Success? ==>
      var u := MappedUser(t, d, caller, hash).value;
      o == Outcome(t.(users := t.users[u.tsid := u]), Success(AppUserResponseOf(u)))
  {
    match MappedUser(t, d, caller, hash)
    case Failure(e) => Outcome(t, Failure(e))
    case Success(u) =>
      var after := t.(users := t.users[u.tsid := u]);
      Outcome(after, Success(AppUserResponseOf(after.users[u.tsid])))
  }

  method UpdateAppUser(db: Database, d: UpdateAppUserRequest, caller: AppUser, hash: string -> string)
    returns (r: Result<AppUserResponse>)
    modifies db
    ensures Outcome(db.Snapshot(), r) == UpdateAppUserSpec(old(db.Snapshot()), d, caller, hash)
  {
    var mapped := MapUpdateAppUserRequest(db, d, caller, hash);
    if mapped.Failure? {
      return Failure(mapped.error);
    }
    var updatedUser := mapped.value;
    db.SaveUser(updatedUser);
    var reread := db.users[updatedUser.tsid];
    r := Success(AppUserResponseOf(reread));
  }

  /** Sending the same update twice leaves the store as sending it once, on either
      path. */
  lemma UpdateAppUserIdempotent(t: Tables, d: UpdateAppUserRequest, caller: AppUser, hash: string -> string)
    requires TablesValid(t)
    requires UpdateAppUserSpec(t, d, caller, hash).result.Success?
    ensures var t1 := UpdateAppUserSpec(t, d, caller, hash).tables;
      UpdateAppUserSpec(t1, d, caller, hash) == Outcome(t1, UpdateAppUserSpec(t, d, caller, hash).result)
  {
    var u := MappedUser(t, d, caller, hash).value;
    var t1 := UpdateAppUserSpec(t, d, caller, hash).tables;
    assert t1.roles == t.roles;
    if AdminPath(d, caller) {
      var id := ParseLong(d.tsid).value;
      assert u.tsid == id;
      var target := t1.users[id];
      assert target == u;
      var u1 := if Given(d.email) then target.(email := d.email, isEnabled := false) else target;
      assert u1 == u;
      SetInitialValuesIdempotent(t.users[id].(email := u.email, isEnabled := u.isEnabled, roles := u.roles), d, hash);
      assert MappedUser(t1, d, caller, hash) == Success(u);
    }
    assert t1.users[u.tsid := u] == t1.users;
  }

  // ---- deleteAppUser ----------------------------------------------------------------

  /** `deleteAppUser(tsid)`: an unknown tsid is `AppUserNotFoundException("TSID", tsid)`
      and nothing is deleted; otherwise exactly that user row is removed. */
  function DeleteAppUserSpec(t: Tables, tsid: int): (o: Outcome<()>)
    ensures tsid !in t.users ==> o == Outcome(t, Failure(AppUserNotFound("TSID", IntToString(tsid))))
    ensures tsid in t.users ==> o == Outcome(t.(users := t.users - {tsid}), Success(()))
    ensures TablesValid(t) ==> TablesValid(o.tables)
  {
    if tsid !in t.users then Outcome(t, Failure(AppUserNotFound("TSID", IntToString(tsid))))
    else Outcome(t.(users := t.users - {tsid}), Success(()))
  }

  method DeleteAppUser(db: Database, tsid: int) returns (r: Result<()>)
    modifies db
    ensures Outcome(db.Snapshot(), r) == DeleteAppUserSpec(old(db.Snapshot()), tsid)
  {
    if tsid !in db.users {
      return Failure(AppUserNotFound("TSID", IntToString(tsid)));
    }
    db.DeleteUser(tsid);
    r := Success(());
  }

  /** After a delete the user is gone for `getAppUser`, and every other user reads as before. */
  lemma DeletedUserIsGone(t: Tables, tsid: int, other: int)
    requires tsid in t.users && other != tsid
    ensures GetAppUser(DeleteAppUserSpec(t, tsid).tables, tsid) == Failure(AppUserNotFound("TSID", IntToString(tsid)))
    ensures GetAppUser(DeleteAppUserSpec(t, tsid).tables, other) == GetAppUser(t, other)
  {
  }

  // ---- getAllRoles and countAllAppUsers -----------------------------------------------

  /** The role records `getAllRoles` builds, in the order the roles are listed. */
  function RoleResponses(roles: seq<Role>): (out: seq<RoleResponse>)
    ensures |out| == |roles|
    ensures forall i :: 0 <= i < |out| ==> out[i] == RoleResponseOf(roles[i])
  {
    seq(|roles|, i requires 0 <= i < |roles| => RoleResponseOf(roles[i]))
  }

  /** Listing the role table answers for every role and for nothing else. */
  lemma RolesListed(m: map<int, Role>)
    ensures var out := RoleResponses(OrderedValues(m));
      (out == [] <==> m == map[])
      && (forall k :: k in m ==> RoleResponseOf(m[k]) in out)
      && (forall i :: 0 <= i < |out| ==> exists k :: k in m && out[i] == RoleResponseOf(m[k]))
  {
    assert |RoleResponses(OrderedValues(m))| == |m|;
    RolesListedAll(m);
    RolesListedOnly(m);
  }

  lemma RolesListedAll(m: map<int, Role>)
    ensures forall k :: k in m ==> RoleResponseOf(m[k]) in RoleResponses(OrderedValues(m))
  {
    var roles := OrderedValues(m);
    forall k | k in m ensures RoleResponseOf(m[k]) in RoleResponses(roles) {
      var i := OrderedValuesAt(m, k);
      assert RoleResponses(roles)[i] == RoleResponseOf(m[k]);
    }
  }

  lemma RolesListedOnly(m: map<int, Role>)
    ensures var out := RoleResponses(OrderedValues(m));
      forall i :: 0 <= i < |out| ==> exists k :: k in m && out[i] == RoleResponseOf(m[k])
  {
    var roles := OrderedValues(m);
    var out := RoleResponses(roles);
    forall i | 0 <= i < |out| ensures exists k :: k in m && out[i] == RoleResponseOf(m[k]) {
      assert roles[i] in m.Values;
    }
  }

  /** `getAllRoles`: one (tsid string, name) pair per stored role, or NOT_FOUND
   * with "No roles found" when the table is empty. */
  function GetAllRoles(t: Tables): (r: Reply<seq<RoleResponse>>)
    ensures r.NotFound? <==> t.roles == map[]
    ensures r.NotFound? ==> r.body == Some(NO_ROLES)
    ensures !r.BadRequest?
    ensures r.Done? ==> |r.value| == |t.roles|
  {
    var out := RoleResponses(OrderedValues(t.roles));
    RolesListed(t.roles);
    if out == [] then NotFound(Some(NO_ROLES)) else Done(out)
  }

  /** A successful `getAllRoles` answers for every stored role and for nothing else. */
  lemma GetAllRolesComplete(t: Tables)
    ensures GetAllRoles(t).Done? ==>
      (forall k :: k in t.roles ==> RoleResponseOf(t.roles[k]) in GetAllRoles(t).value)
      && (forall i :: 0 <= i < |GetAllRoles(t).value| ==>
            exists k :: k in t.roles && GetAllRoles(t).value[i] == RoleResponseOf(t.roles[k]))
  {
    RolesListed(t.roles);
  }

  /** `countAllAppUsers`. */
  function CountAllAppUsers(t: Tables): (r: Reply<map<string, int>>)
    ensures r.NotFound? <==> t.users == map[]
    ensures r.Done? ==> COUNT_KEY in r.value && r.value[COUNT_KEY] == |t.users|
  {
    Count(|t.users|)
  }
}
