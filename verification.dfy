/**
 * `AccountVerificationService` and the decision in `EmailService.generateNewVerificationEmail`:
 * a small state machine per user. An email token enables the account while it is less
 * than 24 whole hours old, an SMS code verifies the phone while it is less than one
 * whole hour old; tokens and codes are never deleted. Times are nanoseconds on one
 * clock, passed in with the UUIDs and SMS codes.
 */
module Verification {
  import opened Base
  import opened JavaText
  import opened Entities
  import opened Store

  const NANOS_PER_SECOND: int := 1_000_000_000
  const SECONDS_PER_HOUR: int := 3600
  const EMAIL_TOKEN_HOURS: int := 24
  const PHONE_CODE_HOURS: int := 1
  const VERIFY_URL: string := "http://localhost:8080/verification/verify/"
  const NEW_MAIL_SENT: string := "Sent a new verification email"
  const ALREADY_VERIFIED: string := "User is already verified"

  // ---- checkIfNotExpired ---------------------------------------------------------

  /** Java's `/` on `long`: the quotient rounded toward zero. */
  function JavaDiv(a: int, b: int): (q: int)
    requires b > 0
    ensures a >= 0 ==> 0 <= a - q * b < b
    ensures a < 0 ==> -b < a - q * b <= 0
  {
    if a >= 0 then a / b else -((-a) / b)
  }

  /** `Duration.between(created, now).toHours()`: the duration holds whole seconds
      rounded down (its nanosecond part is never negative), and `toHours` divides the
      seconds by 3600 the way Java's `/` does. A non-negative age is its count of whole
      hours; a negative one, rounded toward zero, is at most zero hours. */
  function DurationHours(created: int, now: int): (h: int)
    ensures now >= created ==>
      0 <= h && h * SECONDS_PER_HOUR * NANOS_PER_SECOND <= now - created < (h + 1) * SECONDS_PER_HOUR * NANOS_PER_SECOND
    ensures now < created ==> h <= 0
  {
    var d := now - created;
    if d >= 0 then
      WholeHours(d);
      JavaDiv(d / NANOS_PER_SECOND, SECONDS_PER_HOUR)
    else
      JavaDiv(d / NANOS_PER_SECOND, SECONDS_PER_HOUR)
  }

  /** The quotients of a non-negative nanosecond count by the second and then by the
      hour bracket it between two consecutive whole hours. */
  lemma WholeHours(d: int)
    requires d >= 0
    ensures var h := d / NANOS_PER_SECOND / SECONDS_PER_HOUR;
      0 <= h && h * SECONDS_PER_HOUR * NANOS_PER_SECOND <= d < (h + 1) * SECONDS_PER_HOUR * NANOS_PER_SECOND
  {
    var s := d / NANOS_PER_SECOND;
    var h := s / SECONDS_PER_HOUR;
    assert s * NANOS_PER_SECOND <= d < (s + 1) * NANOS_PER_SECOND;
    assert h * SECONDS_PER_HOUR <= s < (h + 1) * SECONDS_PER_HOUR;
    MulMonotone(h * SECONDS_PER_HOUR, s, NANOS_PER_SECOND);
    MulMonotone(s + 1, (h + 1) * SECONDS_PER_HOUR, NANOS_PER_SECOND);
  }

  /** `checkIfNotExpired(created, validFor)`, read at time `now`: a token created in the
      past is live iff it is younger than `validFor` whole hours; one created in the
      future is live for any positive window. */
  function CheckIfNotExpired(created: int, now: int, validFor: int): (live: bool)
    ensures now >= created ==> (live <==> now - created < validFor * SECONDS_PER_HOUR * NANOS_PER_SECOND)
    ensures now < created && validFor >= 1 ==> live
  {
    var h := DurationHours(created, now);
    if now >= created then
      BelowWholeHours(h, now - created, validFor);
      h < validFor
    else
      h < validFor
  }

  /** An age between `h` and `h + 1` whole hours is under `v` hours iff `h < v`. */
  lemma BelowWholeHours(h: int, d: int, v: int)
    requires h * SECONDS_PER_HOUR * NANOS_PER_SECOND <= d < (h + 1) * SECONDS_PER_HOUR * NANOS_PER_SECOND
    ensures h < v <==> d < v * SECONDS_PER_HOUR * NANOS_PER_SECOND
  {
    if h < v {
      MulMonotone(h + 1, v, SECONDS_PER_HOUR * NANOS_PER_SECOND);
      assert (h + 1) * SECONDS_PER_HOUR * NANOS_PER_SECOND == (h + 1) * (SECONDS_PER_HOUR * NANOS_PER_SECOND);
      assert v * SECONDS_PER_HOUR * NANOS_PER_SECOND == v * (SECONDS_PER_HOUR * NANOS_PER_SECOND);
    } else {
      MulMonotone(v, h, SECONDS_PER_HOUR * NANOS_PER_SECOND);
      assert h * SECONDS_PER_HOUR * NANOS_PER_SECOND == h * (SECONDS_PER_HOUR * NANOS_PER_SECOND);
      assert v * SECONDS_PER_HOUR * NANOS_PER_SECOND == v * (SECONDS_PER_HOUR * NANOS_PER_SECOND);
    }
  }

  lemma MulMonotone(x: int, y: int, b: int)
    requires x <= y && b > 0
    ensures x * b <= y * b
  {
    var d := y - x;
    assert y * b == x * b + d * b;
  }

  /** The two windows: an email token dies at 24 hours, an SMS code at one hour. */
  lemma Windows(created: int)
    ensures CheckIfNotExpired(created, created + 24 * 3600 * NANOS_PER_SECOND - 1, EMAIL_TOKEN_HOURS)
    ensures !CheckIfNotExpired(created, created + 24 * 3600 * NANOS_PER_SECOND, EMAIL_TOKEN_HOURS)
    ensures CheckIfNotExpired(created, created + 3600 * NANOS_PER_SECOND - 1, PHONE_CODE_HOURS)
    ensures !CheckIfNotExpired(created, created + 3600 * NANOS_PER_SECOND, PHONE_CODE_HOURS)
  {
  }

  // ---- createVerifyLink and the mailed link ---------------------------------------

  /** `createVerifyLink`: one new token row for the user, created now. */
  method CreateVerifyLink(db: Database, user: AppUser, uuid: string, now: int) returns (tok: EmailToken)
    modifies db
    ensures tok == EmailToken(user.tsid, uuid, now)
    ensures db.Snapshot() == old(db.Snapshot()).(emailTokens := old(db.emailTokens) + [tok])
  {
    tok := EmailToken(user.tsid, uuid, now);
    db.SaveEmailToken(tok);
  }

  /** The link `sendMail` puts in the message. */
  function VerifyLink(tok: EmailToken): (link: string)
    ensures |link| == |VERIFY_URL| + |tok.token|
    ensures link[..|VERIFY_URL|] == VERIFY_URL && link[|VERIFY_URL|..] == tok.token
  {
    VERIFY_URL + tok.token
  }

  /** The token is recovered from the link by stripping the fixed prefix, so distinct
      tokens give distinct links. */
  lemma VerifyLinkInjective(a: EmailToken, b: EmailToken)
    ensures VerifyLink(a) == VerifyLink(b) <==> a.token == b.token
  {
    if VerifyLink(a) == VerifyLink(b) {
      assert a.token == VerifyLink(a)[|VERIFY_URL|..];
    }
  }

  // ---- verifyAccount ---------------------------------------------------------------

  /** `verifyAccount(uuid)`: a live token enables its user and answers true; an unknown
      or expired token answers false and changes nothing. A token whose user row is gone
      also answers false. */
  function VerifyAccountSpec(t: Tables, uuid: string, now: int): (o: Outcome<bool>)
    ensures o.result.Success?
    ensures o.result.value <==>
      FindEmailToken(t.emailTokens, uuid).Some?
      && CheckIfNotExpired(FindEmailToken(t.emailTokens, uuid).value.created, now, EMAIL_TOKEN_HOURS)
      && FindEmailToken(t.emailTokens, uuid).value.user in t.users
    ensures !o.result.value ==> o.tables == t
    ensures o.result.value ==>
      var u := FindEmailToken(t.emailTokens, uuid).value.user;
      o.tables == t.(users := t.users[u := t.users[u].(isEnabled := true)])
    ensures TablesValid(t) ==> TablesValid(o.tables)
  {
    match FindEmailToken(t.emailTokens, uuid)
    case None => Outcome(t, Success(false))
    case Some(tok) =>
      if CheckIfNotExpired(tok.created, now, EMAIL_TOKEN_HOURS) && tok.user in t.users then
        Outcome(t.(users := t.users[tok.user := t.users[tok.user].(isEnabled := true)]), Success(true))
      else Outcome(t, Success(false))
  }

  method VerifyAccount(db: Database, uuid: string, now: int) returns (ok: bool)
    requires db.Valid()
    modifies db
    ensures Outcome(db.Snapshot(), Success(ok)) == VerifyAccountSpec(old(db.Snapshot()), uuid, now)
  {
    var verification := FindEmailToken(db.emailTokens, uuid);
    if verification.Some? && CheckIfNotExpired(verification.value.created, now, EMAIL_TOKEN_HOURS)
       && verification.value.user in db.users
    {
      var user := db.users[verification.value.user];
      user := user.(isEnabled := true);
      db.SaveUser(user);
      return true;
    }
    return false;
  }

  /** Tokens are never consumed: a successful verification succeeds again, later or at
      once, while the token is live, and the second call changes nothing more. */
  lemma VerifyAccountRepeats(t: Tables, uuid: string, now: int, later: int)
    requires VerifyAccountSpec(t, uuid, now).result.value
    requires CheckIfNotExpired(FindEmailToken(t.emailTokens, uuid).value.created, later, EMAIL_TOKEN_HOURS)
    ensures var t1 := VerifyAccountSpec(t, uuid, now).tables;
      VerifyAccountSpec(t1, uuid, later) == Outcome(t1, Success(true))
  {
    var t1 := VerifyAccountSpec(t, uuid, now).tables;
    var u := FindEmailToken(t.emailTokens, uuid).value.user;
    assert t1.emailTokens == t.emailTokens;
    assert t1.users[u := t1.users[u].(isEnabled := true)] == t1.users;
  }

  /** Only the token's own user is touched, and only its `isEnabled` flag. */
  lemma VerifyAccountTouchesOneUser(t: Tables, uuid: string, now: int, k: int)
    requires k in t.users
    ensures var t1 := VerifyAccountSpec(t, uuid, now).tables;
      k in t1.users && t1.users[k].(isEnabled := t.users[k].isEnabled) == t.users[k]
      && (!VerifyAccountSpec(t, uuid, now).result.value || k != FindEmailToken(t.emailTokens, uuid).value.user
          ==> t1.users[k] == t.users[k])
  {
  }

  // ---- createPhoneVerificationCode ------------------------------------------------

  /** `createPhoneVerificationCode`: a caller whose phone is verified is refused with
      BAD_REQUEST and nothing is sent or stored. Otherwise the SMS gateway is called and,
      unless it throws, one code row (caller, code, now) is stored. */
  function CreatePhoneCodeSpec(t: Tables, caller: AppUser, code: string, smsOk: bool, now: int): (o: Outcome<Reply<()>>)
    ensures caller.isPhoneVerified ==> o == Outcome(t, Success(BadRequest(None)))
    ensures !caller.isPhoneVerified && !smsOk ==> o == Outcome(t, Failure(SmsFailure))
    ensures !caller.isPhoneVerified && smsOk ==>
      o == Outcome(t.(phoneCodes := t.phoneCodes + [PhoneCode(caller.tsid, code, now)]), Success(Done(())))
    ensures o.tables.users == t.users && o.tables.emailTokens == t.emailTokens
  {
    if caller.isPhoneVerified then Outcome(t, Success(BadRequest(None)))
    else if !smsOk then Outcome(t, Failure(SmsFailure))
    else Outcome(t.(phoneCodes := t.phoneCodes + [PhoneCode(caller.tsid, code, now)]), Success(Done(())))
  }

  method CreatePhoneVerificationCode(db: Database, caller: AppUser, code: string, smsOk: bool, now: int)
    returns (r: Result<Reply<()>>)
    modifies db
    ensures Outcome(db.Snapshot(), r) == CreatePhoneCodeSpec(old(db.Snapshot()), caller, code, smsOk, now)
  {
    if !caller.isPhoneVerified {
      if !smsOk {
        return Failure(SmsFailure);
      }
      db.SavePhoneCode(PhoneCode(caller.tsid, code, now));
      return Success(Done(()));
    }
    r := Success(BadRequest(None));
  }

  // ---- verifyPhoneNumber ----------------------------------------------------------

  /** `verifyPhoneNumber(code)`: a code less than one whole hour old marks its user's
      phone verified, whether or not the account is enabled, and answers true. */
  function VerifyPhoneSpec(t: Tables, code: string, now: int): (o: Outcome<bool>)
    ensures o.result.Success?
    ensures o.result.value <==>
      FindPhoneCode(t.phoneCodes, code).Some?
      && CheckIfNotExpired(FindPhoneCode(t.phoneCodes, code).value.created, now, PHONE_CODE_HOURS)
      && FindPhoneCode(t.phoneCodes, code).value.user in t.users
    ensures !o.result.value ==> o.tables == t
    ensures o.result.value ==>
      var u := FindPhoneCode(t.phoneCodes, code).value.user;
      o.tables == t.(users := t.users[u := t.users[u].(isPhoneVerified := true)])
    ensures TablesValid(t) ==> TablesValid(o.tables)
  {
    match FindPhoneCode(t.phoneCodes, code)
    case None => Outcome(t, Success(false))
    case Some(pc) =>
      if CheckIfNotExpired(pc.created, now, PHONE_CODE_HOURS) && pc.user in t.users then
        Outcome(t.(users := t.users[pc.user := t.users[pc.user].(isPhoneVerified := true)]), Success(true))
      else Outcome(t, Success(false))
  }

  method VerifyPhoneNumber(db: Database, code: string, now: int) returns (ok: bool)
    requires db.Valid()
    modifies db
    ensures Outcome(db.Snapshot(), Success(ok)) == VerifyPhoneSpec(old(db.Snapshot()), code, now)
  {
    var verification := FindPhoneCode(db.phoneCodes, code);
    if verification.Some? && CheckIfNotExpired(verification.value.created, now, PHONE_CODE_HOURS)
       && verification.value.user in db.users
    {
      var user := db.users[verification.value.user];
      user := user.(isPhoneVerified := true);
      db.SaveUser(user);
      return true;
    }
    return false;
  }

  /** A code sent now verifies the phone when it comes back within the hour, provided
      no older row holds the same code. */
  lemma SentCodeVerifies(t: Tables, caller: AppUser, code: string, now: int, later: int)
    requires !caller.isPhoneVerified && caller.tsid in t.users
    requires FindPhoneCode(t.phoneCodes, code).None?
    requires now <= later < now + 3600 * NANOS_PER_SECOND
    ensures var t1 := CreatePhoneCodeSpec(t, caller, code, true, now).tables;
      var o := VerifyPhoneSpec(t1, code, later);
      o.result.value && o.tables.users[caller.tsid].isPhoneVerified
      && o.tables.users[caller.tsid].isEnabled == t.users[caller.tsid].isEnabled
  {
    var t1 := CreatePhoneCodeSpec(t, caller, code, true, now).tables;
    var pc := PhoneCode(caller.tsid, code, now);
    assert t1.phoneCodes == t.phoneCodes + [pc];
    assert (t.phoneCodes + [pc])[|t.phoneCodes|] == pc;
    assert FindPhoneCode(t1.phoneCodes, code) == Some(pc);
  }

  // ---- generateNewVerificationEmail -------------------------------------------------

  /** `generateNewVerificationEmail(tsid)`: an unknown tsid is `AppUserNotFoundException`
      ("tsid", ...); an enabled user is answered BAD_REQUEST "User is already verified"
      with no token; otherwise one token is stored, then mailed. After the token is
      stored, a `MessagingException` from composing the mail is rethrown as a bare
      `RuntimeException`, and a `MailException` from sending it propagates as itself. */
  function NewVerificationEmailSpec(t: Tables, tsid: int, uuid: string, now: int, mail: MailOutcome): (o: Outcome<Reply<string>>)
    ensures tsid !in t.users ==> o == Outcome(t, Failure(AppUserNotFound("tsid", IntToString(tsid))))
    ensures tsid in t.users && t.users[tsid].isEnabled ==>
      o == Outcome(t, Success(BadRequest(Some(ALREADY_VERIFIED))))
    ensures tsid in t.users && !t.users[tsid].isEnabled ==>
      o.tables == t.(emailTokens := t.emailTokens + [EmailToken(tsid, uuid, now)])
      && o.result == (if mail.MailSent? then Success(Done(NEW_MAIL_SENT))
                     else Failure(if mail.MessagingFailed? then MailFailureWrapped else MailSendFailure))
  {
    if tsid !in t.users then Outcome(t, Failure(AppUserNotFound("tsid", IntToString(tsid))))
    else
      var user := t.users[tsid];
      if !user.isEnabled then
        var after := t.(emailTokens := t.emailTokens + [EmailToken(tsid, uuid, now)]);
        if mail.MailSent? then Outcome(after, Success(Done(NEW_MAIL_SENT)))
        else Outcome(after, Failure(if mail.MessagingFailed? then MailFailureWrapped else MailSendFailure))
      else Outcome(t, Success(BadRequest(Some(ALREADY_VERIFIED))))
  }

  method GenerateNewVerificationEmail(db: Database, tsid: int, uuid: string, now: int, mail: MailOutcome)
    returns (r: Result<Reply<string>>)
    requires db.Valid()
    modifies db
    ensures Outcome(db.Snapshot(), r) == NewVerificationEmailSpec(old(db.Snapshot()), tsid, uuid, now, mail)
  {
    if tsid !in db.users {
      return Failure(AppUserNotFound("tsid", IntToString(tsid)));
    }
    var user := db.users[tsid];
    if !user.isEnabled {
      var verification := CreateVerifyLink(db, user, uuid, now);
      if !mail.MailSent? {
        return Failure(if mail.MessagingFailed? then MailFailureWrapped else MailSendFailure);
      }
      return Success(Done(NEW_MAIL_SENT));
    }
    r := Success(BadRequest(Some(ALREADY_VERIFIED)));
  }

  /** The lifecycle of one account: a new mail for a disabled user, with a fresh UUID,
      gives a link whose token enables that user when followed within 24 hours. The mail
      transport failing does not matter, since the token row stays. */
  lemma MailedTokenEnables(t: Tables, tsid: int, uuid: string, now: int, mail: MailOutcome, later: int)
    requires tsid in t.users && !t.users[tsid].isEnabled
    requires FindEmailToken(t.emailTokens, uuid).None?
    requires now <= later < now + 24 * 3600 * NANOS_PER_SECOND
    ensures var t1 := NewVerificationEmailSpec(t, tsid, uuid, now, mail).tables;
      var o := VerifyAccountSpec(t1, uuid, later);
      o.result.value && o.tables.users[tsid].isEnabled
      && o.tables.users[tsid].(isEnabled := false) == t.users[tsid]
  {
    var tok := EmailToken(tsid, uuid, now);
    var t1 := NewVerificationEmailSpec(t, tsid, uuid, now, mail).tables;
    assert t1.emailTokens == t.emailTokens + [tok];
    assert (t.emailTokens + [tok])[|t.emailTokens|] == tok;
    assert FindEmailToken(t1.emailTokens, uuid) == Some(tok);
  }

  /** An enabled user cannot be sent a new mail: no token is made. */
  lemma EnabledGetsNoToken(t: Tables, tsid: int, uuid: string, now: int, mail: MailOutcome)
    requires tsid in t.users && t.users[tsid].isEnabled
    ensures NewVerificationEmailSpec(t, tsid, uuid, now, mail).tables.emailTokens == t.emailTokens
    ensures NewVerificationEmailSpec(t, tsid, uuid, now, mail).result.Success?
  {
  }
}
