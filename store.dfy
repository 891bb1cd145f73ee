/**
 * The repositories as one store. `Tables` is its value; `Database` holds the same
 * tables in fields that the repository methods (`save`, `delete...`) reassign.
 * Rows are enumerated in ascending tsid order; TSIDs are time-ordered, so that is
 * creation order.
 */
module Store {
  import opened Base
  import opened Entities

  datatype Tables = Tables(
    users: map<int, AppUser>,
    contacts: map<int, Contact>,
    contactTypes: map<int, ContactType>,
    roles: map<int, Role>,
    emailTokens: seq<EmailToken>,
    phoneCodes: seq<PhoneCode>)

  /** What a service call leaves behind: the tables after it, and its value or the
      exception it threw. The statements before an exception keep their effect. */
  datatype Outcome<T> = Outcome(tables: Tables, result: Result<T>)

  /** Every row is stored under its own tsid, and every saved contact has an owner
      and a stored contact type. */
  predicate TablesValid(t: Tables)
  {
    (forall k :: k in t.users ==> t.users[k].tsid == k)
    && (forall k :: k in t.contacts ==> t.contacts[k].tsid == k)
    && (forall k :: k in t.contactTypes ==> t.contactTypes[k].tsid == k)
    && (forall k :: k in t.roles ==> t.roles[k].tsid == k)
    && (forall k :: k in t.contacts ==> StoredContact(t, t.contacts[k]))
  }

  /** A contact as the store holds it: owned, and typed by a stored type. */
  predicate StoredContact(t: Tables, c: Contact)
  {
    c.owner.Some? && c.contactType.Some? && c.contactType.value in t.contactTypes
  }

  // ---- ordered enumeration -----------------------------------------------------

  predicate IsLeast(m: int, s: set<int>)
  {
    m in s && forall x :: x in s ==> m <= x
  }

  lemma HasElement(s: set<int>)
    requires s != {}
    ensures exists y :: y in s
  {
    if forall y :: y !in s {
      assert false;
    }
  }

  lemma {:induction false} LeastExists(s: set<int>)
    requires s != {}
    ensures exists m :: IsLeast(m, s)
    decreases |s|
  {
    HasElement(s);
    var y :| y in s;
    if s == {y} {
      assert IsLeast(y, s);
    } else {
      var rest := s - {y};
      LeastExists(rest);
      var m :| IsLeast(m, rest);
      var least := if y < m then y else m;
      forall x | x in s ensures least <= x {
        if x != y {
          assert x in rest;
        }
      }
      assert IsLeast(least, s);
    }
  }

  /** The least element of a non-empty set. */
  function Least(s: set<int>): (m: int)
    requires s != {}
    ensures IsLeast(m, s)
  {
    LeastExists(s);
    var m :| IsLeast(m, s);
    m
  }

  /** The elements of `s` in ascending order. */
  function SortedKeys(s: set<int>): (r: seq<int>)
    ensures |r| == |s|
    ensures forall i :: 0 <= i < |r| ==> r[i] in s
    ensures forall x :: x in s ==> x in r
    ensures forall i, j :: 0 <= i < j < |r| ==> r[i] < r[j]
    decreases |s|
  {
    if s == {} then []
    else
      var m := Least(s);
      var smaller := s - {m};
      assert |smaller| == |s| - 1;
      var rest := SortedKeys(smaller);
      LeastPrepended(m, s, rest);
      [m] + rest
  }

  lemma LeastPrepended(m: int, s: set<int>, rest: seq<int>)
    requires IsLeast(m, s)
    requires forall i :: 0 <= i < |rest| ==> rest[i] in s - {m}
    requires forall x :: x in s - {m} ==> x in rest
    requires forall i, j :: 0 <= i < j < |rest| ==> rest[i] < rest[j]
    ensures forall i :: 0 <= i < |[m] + rest| ==> ([m] + rest)[i] in s
    ensures forall x :: x in s ==> x in [m] + rest
    ensures forall i, j :: 0 <= i < j < |[m] + rest| ==> ([m] + rest)[i] < ([m] + rest)[j]
  {
    var r := [m] + rest;
    forall x | x in s ensures x in r {
      if x != m {
        assert x in s - {m};
        var k :| 0 <= k < |rest| && rest[k] == x;
        assert r[k + 1] == x;
      }
    }
    forall i, j | 0 <= i < j < |r| ensures r[i] < r[j] {
      assert r[j] == rest[j - 1];
      if i > 0 {
        assert r[i] == rest[i - 1];
      }
    }
  }

  /** A table's rows in tsid order. */
  function OrderedValues<T(==)>(m: map<int, T>): (r: seq<T>)
    ensures |r| == |m|
    ensures forall i :: 0 <= i < |r| ==> r[i] in m.Values
    ensures forall k :: k in m ==> m[k] in r
  {
    var keys := SortedKeys(m.Keys);
    var r := seq(|keys|, i requires 0 <= i < |keys| => m[keys[i]]);
    EveryValueListed(m, keys, r);
    r
  }

  /** The position at which a stored row is listed. */
  lemma OrderedValuesAt<T>(m: map<int, T>, k: int) returns (i: nat)
    requires k in m
    ensures i < |OrderedValues(m)| && OrderedValues(m)[i] == m[k]
  {
    var r := OrderedValues(m);
    assert m[k] in r;
    i :| 0 <= i < |r| && r[i] == m[k];
  }

  lemma EveryValueListed<T>(m: map<int, T>, keys: seq<int>, r: seq<T>)
    requires forall k :: k in m ==> k in keys
    requires forall i :: 0 <= i < |keys| ==> keys[i] in m
    requires |r| == |keys| && forall i :: 0 <= i < |keys| ==> r[i] == m[keys[i]]
    ensures forall k :: k in m ==> m[k] in r
    ensures forall i :: 0 <= i < |r| ==> r[i] in m.Values
  {
    forall k | k in m ensures m[k] in r {
      var i :| 0 <= i < |keys| && keys[i] == k;
      assert r[i] == m[k];
    }
  }

  // ---- lookups -----------------------------------------------------------------

  /** `getContactTypeByType`: the tsid of the first stored type, in tsid order, with
      that label. */
  function FindTypeByName(types: map<int, ContactType>, name: string): (r: Option<int>)
    ensures r.Some? ==> r.value in types && types[r.value].name == name
    ensures r.None? <==> forall k :: k in types ==> types[k].name != name
  {
    var keys := SortedKeys(types.Keys);
    var i := FirstKeyNamed(keys, types, name);
    if i < |keys| then Some(keys[i]) else None
  }

  function FirstKeyNamed(keys: seq<int>, m: map<int, ContactType>, name: string): (i: nat)
    requires forall j :: 0 <= j < |keys| ==> keys[j] in m
    ensures i <= |keys|
    ensures i < |keys| ==> m[keys[i]].name == name
    ensures forall j :: 0 <= j < i ==> m[keys[j]].name != name
  {
    if keys == [] then 0
    else if m[keys[0]].name == name then 0
    else 1 + FirstKeyNamed(keys[1..], m, name)
  }

  /** `getAccountVerificationByVerificationUrl`: the first token with that value. */
  function FindEmailToken(s: seq<EmailToken>, token: string): (r: Option<EmailToken>)
    ensures r.Some? ==> r.value in s && r.value.token == token
    ensures r.None? <==> forall i :: 0 <= i < |s| ==> s[i].token != token
  {
    if s == [] then None else if s[0].token == token then Some(s[0]) else FindEmailToken(s[1..], token)
  }

  /** `getSmsVerificationByVerificationCode`: the first code record with that code. */
  function FindPhoneCode(s: seq<PhoneCode>, code: string): (r: Option<PhoneCode>)
    ensures r.Some? ==> r.value in s && r.value.code == code
    ensures r.None? <==> forall i :: 0 <= i < |s| ==> s[i].code != code
  {
    if s == [] then None else if s[0].code == code then Some(s[0]) else FindPhoneCode(s[1..], code)
  }

  /** Appending cannot hide an earlier token: lookups find the first match. */
  lemma {:induction false} FindEmailTokenAppend(s: seq<EmailToken>, x: EmailToken, token: string)
    requires FindEmailToken(s, token).Some?
    ensures FindEmailToken(s + [x], token) == FindEmailToken(s, token)
  {
    if s[0].token != token {
      assert (s + [x])[1..] == s[1..] + [x];
      FindEmailTokenAppend(s[1..], x, token);
    }
  }

  lemma {:induction false} FindPhoneCodeAppend(s: seq<PhoneCode>, x: PhoneCode, code: string)
    requires FindPhoneCode(s, code).Some?
    ensures FindPhoneCode(s + [x], code) == FindPhoneCode(s, code)
  {
    if s[0].code != code {
      assert (s + [x])[1..] == s[1..] + [x];
      FindPhoneCodeAppend(s[1..], x, code);
    }
  }

  /** The contacts of one owner, in tsid order. */
  function ContactsOf(t: Tables, owner: int): (r: seq<Contact>)
    ensures forall i :: 0 <= i < |r| ==> r[i] in t.contacts.Values && r[i].owner == Some(owner)
    ensures forall k :: k in t.contacts && t.contacts[k].owner == Some(owner) ==> t.contacts[k] in r
  {
    OwnedBy(OrderedValues(t.contacts), owner)
  }

  function OwnedBy(s: seq<Contact>, owner: int): (r: seq<Contact>)
    ensures forall i :: 0 <= i < |r| ==> r[i] in s && r[i].owner == Some(owner)
    ensures forall c :: c in s && c.owner == Some(owner) ==> c in r
  {
    if s == [] then []
    else (if s[0].owner == Some(owner) then [s[0]] else []) + OwnedBy(s[1..], owner)
  }

  // ---- the store object ----------------------------------------------------------

  class Database {
    var users: map<int, AppUser>
    var contacts: map<int, Contact>
    var contactTypes: map<int, ContactType>
    var roles: map<int, Role>
    var emailTokens: seq<EmailToken>
    var phoneCodes: seq<PhoneCode>

    function Snapshot(): Tables
      reads this
    {
      Tables(users, contacts, contactTypes, roles, emailTokens, phoneCodes)
    }

    predicate Valid()
      reads this
    {
      TablesValid(Snapshot())
    }

    constructor ()
      ensures Valid()
      ensures Snapshot() == Tables(map[], map[], map[], map[], [], [])
    {
      users, contacts, contactTypes, roles := map[], map[], map[], map[];
      emailTokens, phoneCodes := [], [];
    }

    /** `appUserRepo.save`: insert or overwrite by tsid. */
    method SaveUser(u: AppUser)
      modifies this
      ensures Snapshot() == old(Snapshot()).(users := old(users)[u.tsid := u])
    {
      users := users[u.tsid := u];
    }

    /** `appUserRepo.delete`: removes exactly that user. */
    method DeleteUser(tsid: int)
      modifies this
      ensures Snapshot() == old(Snapshot()).(users := old(users) - {tsid})
    {
      users := users - {tsid};
    }

    method SaveContact(c: Contact)
      modifies this
      ensures Snapshot() == old(Snapshot()).(contacts := old(contacts)[c.tsid := c])
    {
      contacts := contacts[c.tsid := c];
    }

    method DeleteContact(tsid: int)
      modifies this
      ensures Snapshot() == old(Snapshot()).(contacts := old(contacts) - {tsid})
    {
      contacts := contacts - {tsid};
    }

    method SaveContactType(ty: ContactType)
      modifies this
      ensures Snapshot() == old(Snapshot()).(contactTypes := old(contactTypes)[ty.tsid := ty])
    {
      contactTypes := contactTypes[ty.tsid := ty];
    }

    method SaveEmailToken(tok: EmailToken)
      modifies this
      ensures Snapshot() == old(Snapshot()).(emailTokens := old(emailTokens) + [tok])
    {
      emailTokens := emailTokens + [tok];
    }

    method SavePhoneCode(code: PhoneCode)
      modifies this
      ensures Snapshot() == old(Snapshot()).(phoneCodes := old(phoneCodes) + [code])
    {
      phoneCodes := phoneCodes + [code];
    }
  }
}
