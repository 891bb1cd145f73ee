/**
 * `ContactService`: reading, adding, editing and deleting one contact behind the
 * ownership guard, the CSV import and the CSV export. Each operation is a function on
 * `Tables` stating its outcome and a method that performs the same repository calls on
 * a `Database`, step by step as the service does.
 */
module ContactService {
  import opened Base
  import opened JavaText
  import opened Entities
  import opened Requests
  import opened Store
  import opened Mappers
  import opened Credentials
  import opened Search
  import opened CountUtil

  const CONTACT_NOT_FOUND: string := "Contact not found"

  // ---- getContact ----------------------------------------------------------------

  /** `getContact`: an unknown tsid is `ContactNotFoundException`; a contact of another
      user is answered NOT_FOUND "Contact not found" and not shown. */
  function GetContact(t: Tables, tsid: int, caller: AppUser): (r: Result<Reply<ContactResponse>>)
    requires TablesValid(t)
    ensures r.Failure? <==> tsid !in t.contacts
    ensures r.Failure? ==> r.error == ContactNotFound(tsid)
    ensures r.Success? ==> (r.value.Done? <==> t.contacts[tsid].owner == Some(caller.tsid))
    ensures r.Success? && r.value.Done? ==> r.value.value == ResponseInStore(t, t.contacts[tsid])
    ensures r.Success? && !r.value.Done? ==> r.value == NotFound(Some(CONTACT_NOT_FOUND))
  {
    if tsid !in t.contacts then Failure(ContactNotFound(tsid))
    else
      var c := t.contacts[tsid];
      if OwnsContact(caller, c) then Success(Done(ResponseInStore(t, c)))
      else Success(NotFound(Some(CONTACT_NOT_FOUND)))
  }

  /** A contact is shown to its owner only: an administrator sees no one else's. */
  lemma GetContactShowsOnlyOwn(t: Tables, tsid: int, caller: AppUser)
    requires TablesValid(t) && GetContact(t, tsid, caller).Success? && GetContact(t, tsid, caller).value.Done?
    ensures tsid in t.contacts && t.contacts[tsid].owner == Some(caller.tsid)
    ensures GetContact(t, tsid, caller).value.value.contactTsid == IntToString(tsid)
  {
  }

  // ---- addContact ----------------------------------------------------------------

  /** `addContact`: the owner is the caller's stored record and the type is looked up by
      the parsed tsid; a missing owner or type is thrown before anything is saved. The
      missing type is reported through the by-name constructor with the tsid string. */
  function AddContactSpec(t: Tables, d: AddContactRequest, caller: AppUser, tsid: int): (o: Outcome<ContactResponse>)
    requires TablesValid(t) && AddContactRequestValid(d)
    ensures TablesValid(o.tables)
    ensures o.result.Failure? ==> o.tables == t
    ensures caller.tsid !in t.users ==> o.result == Failure(AppUserNotFound("TSID", IntToString(caller.tsid)))
    ensures caller.tsid in t.users && ParseLong(d.contactTypeTsid).None? ==>
      o.result == Failure(NumberFormat(d.contactTypeTsid))
    ensures caller.tsid in t.users && ParseLong(d.contactTypeTsid).Some?
            && ParseLong(d.contactTypeTsid).value !in t.contactTypes ==>
      o.result == Failure(ContactTypeNotFoundByName(d.contactTypeTsid.value))
    ensures o.result.Success? ==>
      tsid in o.tables.contacts
      && o.tables == t.(contacts := t.contacts[tsid := o.tables.contacts[tsid]])
      && var c := o.tables.contacts[tsid];
         c.tsid == tsid && c.owner == Some(caller.tsid)
         && Some(c.firstName) == d.firstName && Some(c.lastName) == d.lastName
         && Some(c.address) == d.address && Some(c.phoneNumber) == d.phoneNumber
         && c.contactType == ParseLong(d.contactTypeTsid)
         && StoredContact(o.tables, c) && o.result.value == ResponseInStore(o.tables, c)
  {
    var c := ContactOfAddRequest(d, tsid);
    if caller.tsid !in t.users then Outcome(t, Failure(AppUserNotFound("TSID", IntToString(caller.tsid))))
    else
      match ParseLong(d.contactTypeTsid)
      case None => Outcome(t, Failure(NumberFormat(d.contactTypeTsid)))
      case Some(typeTsid) =>
        if typeTsid !in t.contactTypes then Outcome(t, Failure(ContactTypeNotFoundByName(d.contactTypeTsid.value)))
        else
          var saved := c.(owner := Some(caller.tsid), contactType := Some(typeTsid));
          assert saved.tsid == tsid && StoredContact(t, saved);
          SaveKeepsValid(t, saved);
          var after := t.(contacts := t.contacts[tsid := saved]);
          Outcome(after, Success(ResponseInStore(after, saved)))
  }

  /** A successful add stores exactly one more contact, under the fresh tsid. */
  lemma AddContactAddsOne(t: Tables, d: AddContactRequest, caller: AppUser, tsid: int)
    requires TablesValid(t) && AddContactRequestValid(d) && tsid !in t.contacts
    requires AddContactSpec(t, d, caller, tsid).result.Success?
    ensures AddContactSpec(t, d, caller, tsid).tables.contacts.Keys == t.contacts.Keys + {tsid}
    ensures |AddContactSpec(t, d, caller, tsid).tables.contacts| == |t.contacts| + 1
    ensures AddContactSpec(t, d, caller, tsid).result.value.contactTsid == IntToString(tsid)
  {
    var o := AddContactSpec(t, d, caller, tsid);
    var c := o.tables.contacts[tsid];
    assert o.tables.contacts == t.contacts[tsid := c];
    FreshKeyAdded(t.contacts, tsid, c);
    assert o.result.value == ResponseInStore(o.tables, c) && c.tsid == tsid;
  }

  method AddContact(db: Database, d: AddContactRequest, caller: AppUser, tsid: int) returns (r: Result<ContactResponse>)
    requires db.Valid() && AddContactRequestValid(d)
    modifies db
    ensures Outcome(db.Snapshot(), r) == AddContactSpec(old(db.Snapshot()), d, caller, tsid)
  {
    var c := ContactOfAddRequest(d, tsid);
    if caller.tsid !in db.users {
      return Failure(AppUserNotFound("TSID", IntToString(caller.tsid)));
    }
    c := c.(owner := Some(caller.tsid));
    var typeTsid := ParseLong(d.contactTypeTsid);
    if typeTsid.None? {
      return Failure(NumberFormat(d.contactTypeTsid));
    }
    if typeTsid.value !in db.contactTypes {
      return Failure(ContactTypeNotFoundByName(d.contactTypeTsid.value));
    }
    c := c.(contactType := Some(typeTsid.value));
    db.SaveContact(c);
    r := Success(ResponseInStore(db.Snapshot(), c));
  }

  // ---- updateContact -------------------------------------------------------------

  /** `UpdateContactRequestDTOMapper.apply`: the stored contact with its four text
      fields overwritten and its type replaced; owner and tsid stay. The contact is
      looked up before the type. */
  function UpdatedContact(t: Tables, d: UpdateContactRequest): (r: Result<Contact>)
    requires UpdateContactRequestValid(d)
    ensures ParseLong(d.contactTsid).None? ==> r == Failure(NumberFormat(d.contactTsid))
    ensures ParseLong(d.contactTsid).Some? && ParseLong(d.contactTsid).value !in t.contacts ==>
      r == Failure(ContactNotFound(ParseLong(d.contactTsid).value))
    ensures ParseLong(d.contactTsid).Some? && ParseLong(d.contactTsid).value in t.contacts ==>
      (ParseLong(d.contactTypeTsid).None? ==> r == Failure(NumberFormat(d.contactTypeTsid)))
      && (ParseLong(d.contactTypeTsid).Some? && ParseLong(d.contactTypeTsid).value !in t.contactTypes ==>
            r == Failure(ContactTypeNotFoundByName(d.contactTypeTsid.value)))
    ensures r.Success? ==>
      var old_ := t.contacts[ParseLong(d.contactTsid).value];
      r.value.tsid == old_.tsid && r.value.owner == old_.owner
      && Some(r.value.firstName) == d.firstName && Some(r.value.lastName) == d.lastName
      && Some(r.value.address) == d.address && Some(r.value.phoneNumber) == d.phoneNumber
      && r.value.contactType == ParseLong(d.contactTypeTsid)
      && r.value.contactType.value in t.contactTypes
  {
    match ParseLong(d.contactTsid)
    case None => Failure(NumberFormat(d.contactTsid))
    case Some(id) =>
      if id !in t.contacts then Failure(ContactNotFound(id))
      else
        var c := t.contacts[id].(firstName := d.firstName.value, lastName := d.lastName.value,
                                 address := d.address.value, phoneNumber := d.phoneNumber.value);
        match ParseLong(d.contactTypeTsid)
        case None => Failure(NumberFormat(d.contactTypeTsid))
        case Some(typeTsid) =>
          if typeTsid !in t.contactTypes then Failure(ContactTypeNotFoundByName(d.contactTypeTsid.value))
          else Success(c.(contactType := Some(typeTsid)))
  }

  /** The mapper as the Java code runs it: load, then one setter per field. It reads the
      store and changes nothing. */
  method MapUpdateRequest(db: Database, d: UpdateContactRequest) returns (r: Result<Contact>)
    requires UpdateContactRequestValid(d)
    ensures r == UpdatedContact(db.Snapshot(), d)
  {
    var id := ParseLong(d.contactTsid);
    if id.None? {
      return Failure(NumberFormat(d.contactTsid));
    }
    if id.value !in db.contacts {
      return Failure(ContactNotFound(id.value));
    }
    var c := db.contacts[id.value];
    c := c.(firstName := d.firstName.value);
    c := c.(lastName := d.lastName.value);
    c := c.(address := d.address.value);
    c := c.(phoneNumber := d.phoneNumber.value);
    var typeTsid := ParseLong(d.contactTypeTsid);
    if typeTsid.None? {
      return Failure(NumberFormat(d.contactTypeTsid));
    }
    if typeTsid.value !in db.contactTypes {
      return Failure(ContactTypeNotFoundByName(d.contactTypeTsid.value));
    }
    c := c.(contactType := Some(typeTsid.value));
    r := Success(c);
  }

  /** `updateContact`: the mapped contact is saved only when the caller owns it;
      otherwise the answer is NOT_FOUND "Contact not found" and nothing is saved. */
  function UpdateContactSpec(t: Tables, d: UpdateContactRequest, caller: AppUser): (o: Outcome<Reply<ContactResponse>>)
    requires TablesValid(t) && UpdateContactRequestValid(d)
    ensures TablesValid(o.tables)
    ensures UpdatedContact(t, d).Failure? ==> o == Outcome(t, Failure(UpdatedContact(t, d).error))
    ensures UpdatedContact(t, d).Success? && UpdatedContact(t, d).value.owner != Some(caller.tsid) ==>
      o == Outcome(t, Success(NotFound(Some(CONTACT_NOT_FOUND))))
    ensures UpdatedContact(t, d).Success? && UpdatedContact(t, d).value.owner == Some(caller.tsid) ==>
      var c := UpdatedContact(t, d).value;
      o.tables == t.(contacts := t.contacts[c.tsid := c])
      && o.result == Success(Done(ResponseInStore(o.tables, c)))
  {
    match UpdatedContact(t, d)
    case Failure(e) => Outcome(t, Failure(e))
    case Success(c) =>
      if OwnsContact(caller, c) then
        var after := t.(contacts := t.contacts[c.tsid := c]);
        UpdatedIsStored(t, d);
        Outcome(after, Success(Done(ResponseInStore(after, c))))
      else Outcome(t, Success(NotFound(Some(CONTACT_NOT_FOUND))))
  }

  /** The updated contact replaces the stored row under its own tsid and keeps the
      tables valid. */
  lemma UpdatedIsStored(t: Tables, d: UpdateContactRequest)
    requires TablesValid(t) && UpdateContactRequestValid(d) && UpdatedContact(t, d).Success?
    ensures var c := UpdatedContact(t, d).value;
      var after := t.(contacts := t.contacts[c.tsid := c]);
      StoredContact(after, c) && TablesValid(after)
  {
    var c := UpdatedContact(t, d).value;
    assert t.contacts[ParseLong(d.contactTsid).value].owner.Some?;
  }

  /** An update never moves a contact to another tsid or another owner, and adds no row. */
  lemma UpdateKeepsKeysAndOwners(t: Tables, d: UpdateContactRequest, caller: AppUser)
    requires TablesValid(t) && UpdateContactRequestValid(d)
    ensures UpdateContactSpec(t, d, caller).tables.contacts.Keys == t.contacts.Keys
    ensures forall k :: k in t.contacts ==> UpdateContactSpec(t, d, caller).tables.contacts[k].owner == t.contacts[k].owner
  {
    var o := UpdateContactSpec(t, d, caller);
    if UpdatedContact(t, d).Success? && UpdatedContact(t, d).value.owner == Some(caller.tsid) {
      var c := UpdatedContact(t, d).value;
      var id := ParseLong(d.contactTsid).value;
      assert c.tsid == id;
      assert o.tables.contacts.Keys == t.contacts.Keys;
    }
  }

  method UpdateContact(db: Database, d: UpdateContactRequest, caller: AppUser) returns (r: Result<Reply<ContactResponse>>)
    requires db.Valid() && UpdateContactRequestValid(d)
    modifies db
    ensures Outcome(db.Snapshot(), r) == UpdateContactSpec(old(db.Snapshot()), d, caller)
  {
    var mapped := MapUpdateRequest(db, d);
    if mapped.Failure? {
      return Failure(mapped.error);
    }
    var c := mapped.value;
    if OwnsContact(caller, c) {
      db.SaveContact(c);
      return Success(Done(ResponseInStore(db.Snapshot(), c)));
    }
    r := Success(NotFound(Some(CONTACT_NOT_FOUND)));
  }

  // ---- deleteContact -------------------------------------------------------------

  /** `deleteContact`: an unknown tsid is `ContactNotFoundException`; the owner's contact
      is removed (OK, no body); another user's is kept and answered NOT_FOUND with no body. */
  function DeleteContactSpec(t: Tables, tsid: int, caller: AppUser): (o: Outcome<Reply<()>>)
    requires TablesValid(t)
    ensures TablesValid(o.tables)
    ensures tsid !in t.contacts ==> o == Outcome(t, Failure(ContactNotFound(tsid)))
    ensures tsid in t.contacts && t.contacts[tsid].owner == Some(caller.tsid) ==>
      o == Outcome(t.(contacts := t.contacts - {tsid}), Success(Done(())))
    ensures tsid in t.contacts && t.contacts[tsid].owner != Some(caller.tsid) ==>
      o == Outcome(t, Success(NotFound(None)))
  {
    if tsid !in t.contacts then Outcome(t, Failure(ContactNotFound(tsid)))
    else if OwnsContact(caller, t.contacts[tsid]) then Outcome(t.(contacts := t.contacts - {tsid}), Success(Done(())))
    else Outcome(t, Success(NotFound(None)))
  }

  method DeleteContact(db: Database, tsid: int, caller: AppUser) returns (r: Result<Reply<()>>)
    requires db.Valid()
    modifies db
    ensures Outcome(db.Snapshot(), r) == DeleteContactSpec(old(db.Snapshot()), tsid, caller)
  {
    if tsid !in db.contacts {
      return Failure(ContactNotFound(tsid));
    }
    if OwnsContact(caller, db.contacts[tsid]) {
      db.DeleteContact(tsid);
      return Success(Done(()));
    }
    r := Success(NotFound(None));
  }

  /** Whatever a non-owner asks, get, update and delete leave the store as it was and
      reveal nothing of the contact. */
  lemma NonOwnerChangesNothing(t: Tables, tsid: int, d: UpdateContactRequest, caller: AppUser)
    requires TablesValid(t) && UpdateContactRequestValid(d)
    requires tsid in t.contacts && t.contacts[tsid].owner != Some(caller.tsid)
    requires ParseLong(d.contactTsid) == Some(tsid)
    ensures GetContact(t, tsid, caller) == Success(NotFound(Some(CONTACT_NOT_FOUND)))
    ensures UpdateContactSpec(t, d, caller).tables == t
    ensures UpdateContactSpec(t, d, caller).result.Success? ==>
      UpdateContactSpec(t, d, caller).result.value == NotFound(Some(CONTACT_NOT_FOUND))
    ensures DeleteContactSpec(t, tsid, caller) == Outcome(t, Success(NotFound(None)))
  {
  }

  // ---- importContactsFromCsvFile ------------------------------------------------

  const WRONG_FILE_TYPE: string := "File type is not .csv"
  const FILE_IS_EMPTY: string := "File is empty"

  /** The file-name test: a name containing '.' whose text after the last '.' is not
      exactly "csv". A missing name, or one without '.', passes. */
  predicate WrongExtension(fileName: Option<string>)
  {
    fileName.Some? && LastIndexOf(fileName.value, '.').Some?
    && fileName.value[LastIndexOf(fileName.value, '.').value + 1..] != "csv"
  }

  /** The file-name test in terms of the last dot itself: a name is refused exactly when
      it holds a '.' with no '.' after it, and the text after that dot is not "csv". */
  lemma WrongExtensionIff(name: string)
    ensures WrongExtension(Some(name)) <==>
      exists i :: 0 <= i < |name| && name[i] == '.' && (forall j :: i < j < |name| ==> name[j] != '.')
        && name[i + 1..] != "csv"
  {
    if !WrongExtension(Some(name)) {
      forall i | 0 <= i < |name| && name[i] == '.' && (forall j :: i < j < |name| ==> name[j] != '.')
        ensures name[i + 1..] == "csv"
      {
        LastIndexOfAt(name, '.', i);
      }
    }
  }

  /** The extension is compared case-sensitively and only after the last dot. */
  lemma WrongExtensionExamples()
    ensures !WrongExtension(Some("contacts.csv")) && !WrongExtension(Some("backup.txt.csv"))
    ensures WrongExtension(Some("contacts.CSV")) && WrongExtension(Some("contacts.csv.txt"))
    ensures !WrongExtension(Some("contacts")) && !WrongExtension(None)
  {
    LastIndexOfAt("contacts.csv", '.', 8);
    assert "contacts.csv"[9..] == "csv";
    LastIndexOfAt("backup.txt.csv", '.', 10);
    assert "backup.txt.csv"[11..] == "csv";
    LastIndexOfAt("contacts.CSV", '.', 8);
    assert "contacts.CSV"[9..][0] != "csv"[0];
    LastIndexOfAt("contacts.csv.txt", '.', 12);
    assert "contacts.csv.txt"[13..][0] != "csv"[0];
    assert forall j :: 0 <= j < |"contacts"| ==> "contacts"[j] != '.';
  }

  /** The state of the import after some rows: the tables, the `AtomicInteger` count,
      and the exception that stopped the stream, if any. */
  datatype ImportState = ImportState(tables: Tables, added: nat, failure: Option<Error>)

  /** Saving a contact that has an owner and a stored type keeps valid tables valid. */
  lemma SaveKeepsValid(t: Tables, c: Contact)
    requires StoredContact(t, c)
    ensures TablesValid(t) ==> TablesValid(t.(contacts := t.contacts[c.tsid := c]))
  {
  }

  /** One CSV line through `filter(validate)`, `map(addContactCsvDTOMapper)` and the
      `forEach` that counts, sets the caller as owner and saves. Once the mapper has
      thrown, no further line is read. */
  function ImportStep(s: ImportState, line: seq<string>, tsid: int, owner: int): (r: ImportState)
    ensures s.failure.Some? ==> r == s
    ensures s.failure.None? && !CsvRowValid(Bind(line)) ==> r == s
    ensures r.tables == s.tables.(contacts := r.tables.contacts)
    ensures TablesValid(s.tables) ==> TablesValid(r.tables)
    ensures r.added <= s.added + 1
    ensures s.failure.None? && CsvRowValid(Bind(line)) ==>
      (r.failure.Some? <==> FindTypeByName(s.tables.contactTypes, Bind(line).contactType.value).None?)
      && (r.failure.Some? ==> r.failure.value == ContactTypeNotFoundByName(Bind(line).contactType.value))
      && (r.failure.None? ==> r.added == s.added + 1)
  {
    if s.failure.Some? || !CsvRowValid(Bind(line)) then s
    else
      match ContactOfCsvRow(s.tables.contactTypes, Bind(line), tsid)
      case Failure(e) => s.(failure := Some(e))
      case Success(c) =>
        var saved := c.(owner := Some(owner));
        assert saved.tsid == tsid && StoredContact(s.tables, saved);
        SaveKeepsValid(s.tables, saved);
        ImportState(s.tables.(contacts := s.tables.contacts[tsid := saved]), s.added + 1, None)
  }

  /** The lines are processed in file order; line `i` is mapped with tsid `tsids[i]`.
      Only the contact table changes, and stored contacts stay stored contacts. */
  function ImportRows(t: Tables, lines: seq<seq<string>>, tsids: seq<int>, owner: int): (s: ImportState)
    requires |tsids| == |lines|
    ensures s.tables == t.(contacts := s.tables.contacts)
    ensures TablesValid(t) ==> TablesValid(s.tables)
    ensures s.added <= |lines|
    decreases |lines|
  {
    if lines == [] then ImportState(t, 0, None)
    else
      var n := |lines| - 1;
      ImportStep(ImportRows(t, lines[..n], tsids[..n], owner), lines[n], tsids[n], owner)
  }

  /** The import of the first `i + 1` lines is the import of the first `i` followed by
      line `i`. */
  lemma ImportRowsPrefix(t: Tables, lines: seq<seq<string>>, tsids: seq<int>, owner: int, i: int)
    requires |tsids| == |lines| && 0 <= i < |lines|
    ensures ImportRows(t, lines[..i + 1], tsids[..i + 1], owner)
      == ImportStep(ImportRows(t, lines[..i], tsids[..i], owner), lines[i], tsids[i], owner)
  {
    assert lines[..i + 1][..i] == lines[..i] && tsids[..i + 1][..i] == tsids[..i];
  }

  /** The number of lines that pass the row checks. */
  function ValidCount(lines: seq<seq<string>>): nat
  {
    if lines == [] then 0
    else ValidCount(lines[..|lines| - 1]) + (if CsvRowValid(Bind(lines[|lines| - 1])) then 1 else 0)
  }

  /** A valid line whose type label names no stored type. */
  predicate UnknownLabel(types: map<int, ContactType>, line: seq<string>)
  {
    CsvRowValid(Bind(line)) && FindTypeByName(types, Bind(line).contactType.value).None?
  }

  /** Line `i` is the first line with an unknown label. */
  predicate FirstUnknownLabel(t: Tables, lines: seq<seq<string>>, i: int)
  {
    0 <= i < |lines| && UnknownLabel(t.contactTypes, lines[i]) && forall j :: 0 <= j < i ==> !UnknownLabel(t.contactTypes, lines[j])
  }

  /** One more line stops the import exactly when it is valid and its label is unknown. */
  lemma ImportStepFails(s: ImportState, line: seq<string>, tsid: int, owner: int)
    ensures ImportStep(s, line, tsid, owner).failure.None?
      <==> s.failure.None? && !UnknownLabel(s.tables.contactTypes, line)
  {
  }

  /** The import stops exactly when some valid line has an unknown label. */
  lemma {:induction false} ImportFailsIff(t: Tables, lines: seq<seq<string>>, tsids: seq<int>, owner: int)
    requires |tsids| == |lines|
    ensures ImportRows(t, lines, tsids, owner).failure.None? <==> forall i :: 0 <= i < |lines| ==> !UnknownLabel(t.contactTypes, lines[i])
    decreases |lines|
  {
    if lines != [] {
      var n := |lines| - 1;
      var init := lines[..n];
      ImportFailsIff(t, init, tsids[..n], owner);
      ImportRowsFailsLast(t, lines, tsids, owner);
      NoUnknownLabelSplit(t.contactTypes, lines);
    }
  }

  /** The import is still running after the last line exactly when it was running
      before it and the last line's label is not unknown. */
  lemma ImportRowsFailsLast(t: Tables, lines: seq<seq<string>>, tsids: seq<int>, owner: int)
    requires |tsids| == |lines| > 0
    ensures var n := |lines| - 1;
      ImportRows(t, lines, tsids, owner).failure.None?
      <==> ImportRows(t, lines[..n], tsids[..n], owner).failure.None? && !UnknownLabel(t.contactTypes, lines[n])
  {
    var n := |lines| - 1;
    var s0 := ImportRows(t, lines[..n], tsids[..n], owner);
    assert ImportRows(t, lines, tsids, owner) == ImportStep(s0, lines[n], tsids[n], owner);
    ImportStepFails(s0, lines[n], tsids[n], owner);
    assert s0.tables.contactTypes == t.contactTypes;
  }

  /** No line has an unknown label exactly when no earlier line has one and the last
      line does not either. */
  lemma NoUnknownLabelSplit(types: map<int, ContactType>, lines: seq<seq<string>>)
    requires lines != []
    ensures var init := lines[..|lines| - 1];
      (forall i :: 0 <= i < |lines| ==> !UnknownLabel(types, lines[i]))
      <==> (forall i :: 0 <= i < |init| ==> !UnknownLabel(types, init[i]))
           && !UnknownLabel(types, lines[|lines| - 1])
  {
    var init := lines[..|lines| - 1];
    assert forall i :: 0 <= i < |init| ==> init[i] == lines[i];
  }

  /** A completed import has counted every valid line. */
  lemma {:induction false} ImportCountsValid(t: Tables, lines: seq<seq<string>>, tsids: seq<int>, owner: int)
    requires |tsids| == |lines|
    requires ImportRows(t, lines, tsids, owner).failure.None?
    ensures ImportRows(t, lines, tsids, owner).added == ValidCount(lines)
    decreases |lines|
  {
    if lines != [] {
      var n := |lines| - 1;
      ImportRowsCountsLast(t, lines, tsids, owner);
      ImportCountsValid(t, lines[..n], tsids[..n], owner);
    }
  }

  /** An import still running after the last line was running before it, and the last
      line added one to the count exactly when it is valid. */
  lemma ImportRowsCountsLast(t: Tables, lines: seq<seq<string>>, tsids: seq<int>, owner: int)
    requires |tsids| == |lines| > 0
    requires ImportRows(t, lines, tsids, owner).failure.None?
    ensures var n := |lines| - 1; var s0 := ImportRows(t, lines[..n], tsids[..n], owner);
      s0.failure.None?
      && ImportRows(t, lines, tsids, owner).added == s0.added + (if CsvRowValid(Bind(lines[n])) then 1 else 0)
  {
    var n := |lines| - 1;
    var s0 := ImportRows(t, lines[..n], tsids[..n], owner);
    assert ImportRows(t, lines, tsids, owner) == ImportStep(s0, lines[n], tsids[n], owner);
    ImportStepCounts(s0, lines[n], tsids[n], owner);
  }

  /** A step that leaves the import running counts its line exactly when it is valid. */
  lemma ImportStepCounts(s: ImportState, line: seq<string>, tsid: int, owner: int)
    requires ImportStep(s, line, tsid, owner).failure.None?
    ensures s.failure.None?
    ensures ImportStep(s, line, tsid, owner).added == s.added + (if CsvRowValid(Bind(line)) then 1 else 0)
  {
  }

  /** A stopped import reports the label of the first line whose label is unknown. */
  lemma {:induction false} ImportFailsAtFirst(t: Tables, lines: seq<seq<string>>, tsids: seq<int>, owner: int)
    requires |tsids| == |lines|
    requires ImportRows(t, lines, tsids, owner).failure.Some?
    ensures exists i :: (FirstUnknownLabel(t, lines, i)
      && ImportRows(t, lines, tsids, owner).failure.value == ContactTypeNotFoundByName(Bind(lines[i]).contactType.value))
    decreases |lines|
  {
    var n := |lines| - 1;
    var init := lines[..n];
    var s0 := ImportRows(t, init, tsids[..n], owner);
    if s0.failure.Some? {
      assert ImportRows(t, lines, tsids, owner) == s0;
      ImportFailsAtFirst(t, init, tsids[..n], owner);
      var i :| FirstUnknownLabel(t, init, i)
               && s0.failure.value == ContactTypeNotFoundByName(Bind(init[i]).contactType.value);
      FirstUnknownLabelExtends(t, lines, n, i);
    } else {
      ImportFailsAtLast(t, lines, tsids, owner);
    }
  }

  /** The first unknown label of a prefix is the first unknown label of the whole file. */
  lemma FirstUnknownLabelExtends(t: Tables, lines: seq<seq<string>>, n: nat, i: int)
    requires n <= |lines| && FirstUnknownLabel(t, lines[..n], i)
    ensures FirstUnknownLabel(t, lines, i) && lines[i] == lines[..n][i]
  {
    assert forall j :: 0 <= j < n ==> lines[j] == lines[..n][j];
  }

  /** An import that ran through all lines but the last and then stopped, stopped at
      the first unknown label, which is on the last line. */
  lemma ImportFailsAtLast(t: Tables, lines: seq<seq<string>>, tsids: seq<int>, owner: int)
    requires |tsids| == |lines| > 0
    requires ImportRows(t, lines, tsids, owner).failure.Some?
    requires ImportRows(t, lines[..|lines| - 1], tsids[..|lines| - 1], owner).failure.None?
    ensures FirstUnknownLabel(t, lines, |lines| - 1)
    ensures ImportRows(t, lines, tsids, owner).failure.value
      == ContactTypeNotFoundByName(Bind(lines[|lines| - 1]).contactType.value)
  {
    var n := |lines| - 1;
    var init := lines[..n];
    var s0 := ImportRows(t, init, tsids[..n], owner);
    assert s0.tables.contactTypes == t.contactTypes;
    assert ImportRows(t, lines, tsids, owner) == ImportStep(s0, lines[n], tsids[n], owner);
    ImportStepFails(s0, lines[n], tsids[n], owner);
    assert UnknownLabel(t.contactTypes, lines[n]);
    ImportFailsIff(t, init, tsids[..n], owner);
    forall j | 0 <= j < n ensures !UnknownLabel(t.contactTypes, lines[j]) {
      assert lines[j] == init[j];
    }
  }

  /** Without an unknown label the import counts exactly the valid lines; with one, it
      stops with `ContactTypeNotFoundException` for the first such line. */
  lemma ImportOutcome(t: Tables, lines: seq<seq<string>>, tsids: seq<int>, owner: int)
    requires |tsids| == |lines|
    ensures var s := ImportRows(t, lines, tsids, owner);
      (s.failure.None? <==> forall i :: 0 <= i < |lines| ==> !UnknownLabel(t.contactTypes, lines[i]))
      && (s.failure.None? ==> s.added == ValidCount(lines))
      && (s.failure.Some? ==>
            exists i :: (FirstUnknownLabel(t, lines, i)
              && s.failure.value == ContactTypeNotFoundByName(Bind(lines[i]).contactType.value)))
  {
    ImportFailsIff(t, lines, tsids, owner);
    if ImportRows(t, lines, tsids, owner).failure.None? {
      ImportCountsValid(t, lines, tsids, owner);
    } else {
      ImportFailsAtFirst(t, lines, tsids, owner);
    }
  }

  /** One line of an import that has not stopped, whose label is known: a valid line
      stores its contact under the given tsid, an invalid one stores nothing. */
  lemma ImportStepSaves(s: ImportState, line: seq<string>, tsid: int, owner: int)
    requires s.failure.None? && !UnknownLabel(s.tables.contactTypes, line)
    ensures var r := ImportStep(s, line, tsid, owner);
      r.failure.None?
      && (!CsvRowValid(Bind(line)) ==> r.tables.contacts == s.tables.contacts)
      && (CsvRowValid(Bind(line)) ==>
            ContactOfCsvRow(s.tables.contactTypes, Bind(line), tsid).Success?
            && r.tables.contacts == s.tables.contacts[tsid :=
                 ContactOfCsvRow(s.tables.contactTypes, Bind(line), tsid).value.(owner := Some(owner))])
  {
  }

  /** What each line of an import with no unknown label maps to: the contact of a
      valid line, owned by the caller, and nothing for an invalid line. */
  function MappedRows(types: map<int, ContactType>, lines: seq<seq<string>>, tsids: seq<int>, owner: int)
    : (rows: seq<Option<Contact>>)
    requires |tsids| == |lines|
    requires forall i :: 0 <= i < |lines| ==> !UnknownLabel(types, lines[i])
    ensures |rows| == |lines|
  {
    seq(|lines|, i requires 0 <= i < |lines| =>
      if CsvRowValid(Bind(lines[i])) then
        assert !UnknownLabel(types, lines[i]);
        Some(ContactOfCsvRow(types, Bind(lines[i]), tsids[i]).value.(owner := Some(owner)))
      else None)
  }

  /** The mapped row of line `i`. */
  lemma MappedRowAt(types: map<int, ContactType>, lines: seq<seq<string>>, tsids: seq<int>, owner: int, i: int)
    requires |tsids| == |lines| && 0 <= i < |lines|
    requires forall j :: 0 <= j < |lines| ==> !UnknownLabel(types, lines[j])
    ensures !CsvRowValid(Bind(lines[i])) ==> MappedRows(types, lines, tsids, owner)[i].None?
    ensures CsvRowValid(Bind(lines[i])) ==>
      MappedRows(types, lines, tsids, owner)[i] == Some(ContactOfCsvRow(types, Bind(lines[i]), tsids[i]).value.(owner := Some(owner)))
  {
  }

  /** Dropping the last line drops the last mapped row. */
  lemma MappedRowsPrefix(types: map<int, ContactType>, lines: seq<seq<string>>, tsids: seq<int>, owner: int,
                         init: seq<seq<string>>, ids: seq<int>)
    requires |tsids| == |lines| > 0
    requires forall i :: 0 <= i < |lines| ==> !UnknownLabel(types, lines[i])
    requires init == lines[..|lines| - 1] && ids == tsids[..|lines| - 1]
    ensures forall i :: 0 <= i < |init| ==> !UnknownLabel(types, init[i])
    ensures MappedRows(types, init, ids, owner) == MappedRows(types, lines, tsids, owner)[..|init|]
  {
    assert forall i :: 0 <= i < |init| ==> init[i] == lines[i] && ids[i] == tsids[i];
  }

  /** The contact table built by saving mapped row `i` under `tsids[i]`, in order. */
  function SavedRows(rows: seq<Option<Contact>>, tsids: seq<int>): map<int, Contact>
    requires |tsids| == |rows|
    decreases |rows|
  {
    if rows == [] then map[]
    else
      var n := |rows| - 1;
      var m := SavedRows(rows[..n], tsids[..n]);
      if rows[n].Some? then m[tsids[n] := rows[n].value] else m
  }

  /** With distinct tsids, `tsids[i]` is saved exactly when row `i` maps to a contact,
      and holds that contact; no other key is saved. */
  lemma {:induction false} SavedRowsAt(rows: seq<Option<Contact>>, tsids: seq<int>)
    requires |tsids| == |rows|
    requires forall i, j :: 0 <= i < j < |tsids| ==> tsids[i] != tsids[j]
    ensures var m := SavedRows(rows, tsids);
      (forall i :: 0 <= i < |rows| ==> (tsids[i] in m <==> rows[i].Some?))
      && (forall i :: 0 <= i < |rows| && rows[i].Some? ==> tsids[i] in m && m[tsids[i]] == rows[i].value)
      && (forall k :: k in m ==> exists i :: 0 <= i < |rows| && tsids[i] == k)
    decreases |rows|
  {
    if rows != [] {
      var n := |rows| - 1;
      var init, ids := rows[..n], tsids[..n];
      forall i | 0 <= i < n ensures rows[i] == init[i] && tsids[i] == ids[i] { }
      SavedRowsAt(init, ids);
      var m0 := SavedRows(init, ids);
      var m := SavedRows(rows, tsids);
      forall i | 0 <= i < n
        ensures tsids[i] in m <==> rows[i].Some?
        ensures rows[i].Some? ==> tsids[i] in m && m[tsids[i]] == rows[i].value
      {
        assert tsids[i] != tsids[n];
      }
      forall k | k in m ensures exists i :: 0 <= i < |rows| && tsids[i] == k
      {
        if k != tsids[n] {
          var i :| 0 <= i < n && ids[i] == k;
          assert tsids[i] == k;
        }
      }
    }
  }

  /** `SavedRows` unfolded once: the last row is saved on top of the others. */
  lemma SavedRowsLast(rows: seq<Option<Contact>>, tsids: seq<int>)
    requires |tsids| == |rows| > 0
    ensures var n := |rows| - 1; var m := SavedRows(rows[..n], tsids[..n]);
      SavedRows(rows, tsids) == if rows[n].Some? then m[tsids[n] := rows[n].value] else m
  {
  }

  lemma UpdateAfterUnion(a: map<int, Contact>, b: map<int, Contact>, k: int, v: Contact)
    ensures (a + b)[k := v] == a + b[k := v]
  {
  }

  /** Without an unknown label the import runs to the end and adds the saved rows to the
      contact table. */
  lemma {:induction false} ImportRowsAdds(t: Tables, lines: seq<seq<string>>, tsids: seq<int>, owner: int)
    requires |tsids| == |lines|
    requires forall i :: 0 <= i < |lines| ==> !UnknownLabel(t.contactTypes, lines[i])
    ensures ImportRows(t, lines, tsids, owner).failure.None?
    ensures ImportRows(t, lines, tsids, owner).tables.contacts
      == t.contacts + SavedRows(MappedRows(t.contactTypes, lines, tsids, owner), tsids)
    decreases |lines|
  {
    if lines == [] {
      assert t.contacts + map[] == t.contacts;
    } else {
      var n := |lines| - 1;
      var init, ids := lines[..n], tsids[..n];
      MappedRowsPrefix(t.contactTypes, lines, tsids, owner, init, ids);
      ImportRowsAdds(t, init, ids, owner);
      ImportRowsAddsLast(t, lines, tsids, owner);
    }
  }

  /** The inductive step of `ImportRowsAdds`: if the lines before the last one add
      their saved rows, all the lines do. */
  lemma ImportRowsAddsLast(t: Tables, lines: seq<seq<string>>, tsids: seq<int>, owner: int)
    requires |tsids| == |lines| > 0
    requires forall i :: 0 <= i < |lines| ==> !UnknownLabel(t.contactTypes, lines[i])
    requires var n := |lines| - 1; var s0 := ImportRows(t, lines[..n], tsids[..n], owner);
      s0.failure.None?
      && s0.tables.contacts == t.contacts + SavedRows(MappedRows(t.contactTypes, lines, tsids, owner)[..n], tsids[..n])
    ensures ImportRows(t, lines, tsids, owner).failure.None?
    ensures ImportRows(t, lines, tsids, owner).tables.contacts
      == t.contacts + SavedRows(MappedRows(t.contactTypes, lines, tsids, owner), tsids)
  {
    var n := |lines| - 1;
    var rows := MappedRows(t.contactTypes, lines, tsids, owner);
    var s0 := ImportRows(t, lines[..n], tsids[..n], owner);
    assert ImportRows(t, lines, tsids, owner) == ImportStep(s0, lines[n], tsids[n], owner);
    MappedRowAt(t.contactTypes, lines, tsids, owner, n);
    SavedRowsLast(rows, tsids);
    ImportStepAdds(t.contactTypes, s0, lines[n], tsids[n], owner, rows[n], t.contacts, SavedRows(rows[..n], tsids[..n]));
  }

  /** One more line of an import with no unknown label adds its mapped row, if any, on
      top of the rows saved so far. */
  lemma ImportStepAdds(types: map<int, ContactType>, s0: ImportState, line: seq<string>, tsid: int, owner: int,
                       row: Option<Contact>, base: map<int, Contact>, m: map<int, Contact>)
    requires s0.tables.contactTypes == types
    requires s0.failure.None? && !UnknownLabel(types, line)
    requires s0.tables.contacts == base + m
    requires !CsvRowValid(Bind(line)) ==> row.None?
    requires CsvRowValid(Bind(line)) ==>
      row == Some(ContactOfCsvRow(types, Bind(line), tsid).value.(owner := Some(owner)))
    ensures ImportStep(s0, line, tsid, owner).failure.None?
    ensures ImportStep(s0, line, tsid, owner).tables.contacts
      == base + (if row.Some? then m[tsid := row.value] else m)
  {
    ImportStepSaves(s0, line, tsid, owner);
    if row.Some? {
      UpdateAfterUnion(base, m, tsid, row.value);
    }
  }

  /** With fresh, distinct tsids and no unknown label, each valid line is stored under its
      tsid, owned by the caller, with its fields and its labelled type; nothing else in
      the contact table changes and invalid lines store nothing. */
  lemma ImportSaves(t: Tables, lines: seq<seq<string>>, tsids: seq<int>, owner: int)
    requires |tsids| == |lines|
    requires forall i, j :: 0 <= i < j < |tsids| ==> tsids[i] != tsids[j]
    requires forall i :: 0 <= i < |tsids| ==> tsids[i] !in t.contacts
    requires forall i :: 0 <= i < |lines| ==> !UnknownLabel(t.contactTypes, lines[i])
    ensures var after := ImportRows(t, lines, tsids, owner).tables.contacts;
      (forall k :: k in t.contacts ==> k in after && after[k] == t.contacts[k])
      && (forall i :: 0 <= i < |lines| ==> (tsids[i] in after <==> CsvRowValid(Bind(lines[i]))))
      && (forall i :: 0 <= i < |lines| && CsvRowValid(Bind(lines[i])) ==>
            ContactOfCsvRow(t.contactTypes, Bind(lines[i]), tsids[i]).Success?
            && after[tsids[i]] == ContactOfCsvRow(t.contactTypes, Bind(lines[i]), tsids[i]).value.(owner := Some(owner)))
      && (forall k :: k in after ==> k in t.contacts || exists i :: 0 <= i < |lines| && tsids[i] == k)
  {
    ImportRowsAdds(t, lines, tsids, owner);
    var rows := MappedRows(t.contactTypes, lines, tsids, owner);
    SavedRowsAt(rows, tsids);
  }

  /** The reply: "<added> contact(s) added. <errored> errored.", where errored is the
      number of lines not added. */
  function ImportMessage(added: int, total: int): string
  {
    IntToString(added) + ADDED_TEXT + IntToString(total - added) + ERRORED_TEXT
  }

  const ADDED_TEXT: string := " contact(s) added. "
  const ERRORED_TEXT: string := " errored."

  /** The reply determines the counts: two imports answer with the same text exactly
      when they added as many lines out of as many. */
  lemma ImportMessageInjective(added: int, total: int, added': int, total': int)
    requires 0 <= added <= total && 0 <= added' <= total'
    ensures ImportMessage(added, total) == ImportMessage(added', total') <==> added == added' && total == total'
  {
    if ImportMessage(added, total) == ImportMessage(added', total') {
      var e, e' := NatToString(total - added), NatToString(total' - added');
      ImportMessageSplit(added, total);
      ImportMessageSplit(added', total');
      DigitsBeforeSpace(NatToString(added), ADDED_TEXT + e + ERRORED_TEXT, NatToString(added'), ADDED_TEXT + e' + ERRORED_TEXT);
      MiddleOf(ADDED_TEXT, e, e', ERRORED_TEXT);
      NatToStringInjective(added, added');
      NatToStringInjective(total - added, total' - added');
    }
  }

  /** The reply of a count within the total is the added count's digits followed by
      text that starts with a space. */
  lemma ImportMessageSplit(added: int, total: int)
    requires 0 <= added <= total
    ensures ImportMessage(added, total)
      == NatToString(added) + (ADDED_TEXT + NatToString(total - added) + ERRORED_TEXT)
    ensures (ADDED_TEXT + NatToString(total - added) + ERRORED_TEXT)[0] == ' '
  {
  }

  lemma NatToStringInjective(m: nat, n: nat)
    requires NatToString(m) == NatToString(n)
    ensures m == n
  {
    DigitsValueOfNatToString(m);
    DigitsValueOfNatToString(n);
  }

  /** A digit string followed by a space is the longest digit prefix, so it is
      recovered from the concatenation. */
  lemma DigitsBeforeSpace(a: string, r: string, a': string, r': string)
    requires AllDigits(a) && AllDigits(a') && |r| > 0 && |r'| > 0 && r[0] == ' ' && r'[0] == ' '
    requires a + r == a' + r'
    ensures a == a' && r == r'
  {
    NoDigitIsSpace(a, r, a', r');
    NoDigitIsSpace(a', r', a, r);
    assert a == (a + r)[..|a|] && a' == (a' + r')[..|a'|];
    assert r == (a + r)[|a|..] && r' == (a' + r')[|a'|..];
  }

  /** The longer digit prefix cannot reach the other's space. */
  lemma NoDigitIsSpace(a: string, r: string, a': string, r': string)
    requires AllDigits(a') && |r| > 0 && r[0] == ' ' && a + r == a' + r'
    ensures |a| >= |a'|
  {
    assert (a + r)[|a|] == ' ';
    assert forall i :: 0 <= i < |a'| ==> (a + r)[i] == a'[i] != ' ';
  }

  /** Equal texts with the same frame have the same middle. */
  lemma MiddleOf(p: string, e: string, e': string, q: string)
    requires p + e + q == p + e' + q
    ensures e == e'
  {
    assert e == (p + e + q)[|p|..|p| + |e|];
    assert e' == (p + e' + q)[|p|..|p| + |e'|];
  }

  /** `importContactsFromCsvFile` on an already parsed file: the name is checked first,
      then emptiness, and only then are lines read. */
  function ImportSpec(t: Tables, fileName: Option<string>, fileIsEmpty: bool, lines: seq<seq<string>>,
                      tsids: seq<int>, caller: AppUser): (o: Outcome<Reply<string>>)
    requires |tsids| == |lines|
    ensures WrongExtension(fileName) ==> o == Outcome(t, Success(BadRequest(Some(WRONG_FILE_TYPE))))
    ensures !WrongExtension(fileName) && fileIsEmpty ==> o == Outcome(t, Success(BadRequest(Some(FILE_IS_EMPTY))))
    ensures !WrongExtension(fileName) && !fileIsEmpty ==>
      var s := ImportRows(t, lines, tsids, caller.tsid);
      o.tables == s.tables
      && (s.failure.Some? ==> o.result == Failure(s.failure.value))
      && (s.failure.None? ==> o.result == Success(Done(ImportMessage(s.added, |lines|))))
  {
    if WrongExtension(fileName) then Outcome(t, Success(BadRequest(Some(WRONG_FILE_TYPE))))
    else if fileIsEmpty then Outcome(t, Success(BadRequest(Some(FILE_IS_EMPTY))))
    else
      var s := ImportRows(t, lines, tsids, caller.tsid);
      if s.failure.Some? then Outcome(s.tables, Failure(s.failure.value))
      else Outcome(s.tables, Success(Done(ImportMessage(s.added, |lines|))))
  }

  /** A completed import reports the valid lines as added and the rest as errored. */
  lemma ImportReportsCounts(t: Tables, fileName: Option<string>, lines: seq<seq<string>>, tsids: seq<int>, caller: AppUser)
    requires |tsids| == |lines| && !WrongExtension(fileName)
    requires forall i :: 0 <= i < |lines| ==> !UnknownLabel(t.contactTypes, lines[i])
    ensures ImportSpec(t, fileName, false, lines, tsids, caller).result
      == Success(Done(ImportMessage(ValidCount(lines), |lines|)))
  {
    ImportOutcome(t, lines, tsids, caller.tsid);
  }

  /** One line of a running import: bound, validated, mapped and, when its label is
      known, saved with the caller as owner and counted. */
  method ImportLine(db: Database, line: seq<string>, tsid: int, owner: int, added: nat)
    returns (counted: nat, failure: Option<Error>)
    modifies db
    ensures ImportState(db.Snapshot(), counted, failure)
      == ImportStep(ImportState(old(db.Snapshot()), added, None), line, tsid, owner)
  {
    ghost var s := ImportState(db.Snapshot(), added, None);
    var row := Bind(line);
    if CsvRowValid(row) {
      counted, failure := ImportValidRow(db, row, tsid, owner, added);
    } else {
      counted, failure := added, None;
      assert ImportStep(s, line, tsid, owner) == s;
    }
  }

  /** A line that passed the row checks: mapped, and when its label is known, saved
      with the caller as owner and counted; an unknown label stops the import. */
  method ImportValidRow(db: Database, row: CsvRow, tsid: int, owner: int, added: nat)
    returns (counted: nat, failure: Option<Error>)
    requires CsvRowValid(row)
    modifies db
    ensures var m := ContactOfCsvRow(old(db.contactTypes), row, tsid);
      ImportState(db.Snapshot(), counted, failure)
      == if m.Failure? then ImportState(old(db.Snapshot()), added, Some(m.error))
         else ImportState(old(db.Snapshot()).(contacts := old(db.contacts)[tsid := m.value.(owner := Some(owner))]), added + 1, None)
  {
    var mapped := ContactOfCsvRow(db.contactTypes, row, tsid);
    if mapped.Failure? {
      counted, failure := added, Some(mapped.error);
    } else {
      var saved := mapped.value.(owner := Some(owner));
      assert saved.tsid == tsid;
      counted, failure := added + 1, None;
      db.SaveContact(saved);
    }
  }

  /** Line `i` of a stream that has already stopped changes nothing. */
  lemma {:induction false} ImportAfterFailure(t: Tables, lines: seq<seq<string>>, tsids: seq<int>, owner: int, i: nat)
    requires |tsids| == |lines| && i <= |lines|
    requires ImportRows(t, lines[..i], tsids[..i], owner).failure.Some?
    ensures ImportRows(t, lines, tsids, owner) == ImportRows(t, lines[..i], tsids[..i], owner)
    decreases |lines| - i
  {
    if i < |lines| {
      var next := ImportRows(t, lines[..i + 1], tsids[..i + 1], owner);
      assert lines[..i + 1][..i] == lines[..i] && tsids[..i + 1][..i] == tsids[..i];
      assert next == ImportRows(t, lines[..i], tsids[..i], owner);
      ImportAfterFailure(t, lines, tsids, owner, i + 1);
    } else {
      assert lines[..i] == lines && tsids[..i] == tsids;
    }
  }

  method ImportContactsFromCsv(db: Database, fileName: Option<string>, fileIsEmpty: bool,
                               lines: seq<seq<string>>, tsids: seq<int>, caller: AppUser)
    returns (r: Result<Reply<string>>)
    requires |tsids| == |lines|
    modifies db
    ensures Outcome(db.Snapshot(), r) == ImportSpec(old(db.Snapshot()), fileName, fileIsEmpty, lines, tsids, caller)
  {
    if WrongExtension(fileName) {
      return Success(BadRequest(Some(WRONG_FILE_TYPE)));
    }
    if fileIsEmpty {
      return Success(BadRequest(Some(FILE_IS_EMPTY)));
    }
    ghost var t0 := db.Snapshot();
    var counter: nat := 0;
    var failure: Option<Error> := None;
    var i := 0;
    while i < |lines| && failure.None?
      invariant 0 <= i <= |lines|
      invariant ImportRows(t0, lines[..i], tsids[..i], caller.tsid) == ImportState(db.Snapshot(), counter, failure)
    {
      ImportRowsPrefix(t0, lines, tsids, caller.tsid, i);
      counter, failure := ImportLine(db, lines[i], tsids[i], caller.tsid, counter);
      i := i + 1;
    }
    if failure.Some? {
      ImportAfterFailure(t0, lines, tsids, caller.tsid, i);
      assert ImportRows(t0, lines, tsids, caller.tsid) == ImportState(db.Snapshot(), counter, failure);
      return Failure(failure.value);
    }
    assert lines[..i] == lines && tsids[..i] == tsids;
    assert ImportRows(t0, lines, tsids, caller.tsid) == ImportState(db.Snapshot(), counter, failure);
    r := Success(Done(ImportMessage(counter, |lines|)));
  }

  // ---- exportContactsToCsv -------------------------------------------------------

  /** The caller's contacts in the order `getContactsByAppUser(user, Sort.by(ASC, "firstName"))`
      returns them: by first name, ties in tsid order. */
  function ExportedContacts(t: Tables, caller: AppUser): (r: seq<Contact>)
    ensures multiset(r) == multiset(ContactsOf(t, caller.tsid))
    ensures SortedBy(r, KeyOf(FirstName))
    ensures forall k :: WithKey(r, KeyOf(FirstName), k) == WithKey(ContactsOf(t, caller.tsid), KeyOf(FirstName), k)
  {
    SortBySorted(ContactsOf(t, caller.tsid), KeyOf(FirstName));
    SortByStableAll(ContactsOf(t, caller.tsid), KeyOf(FirstName));
    SortBy(ContactsOf(t, caller.tsid), KeyOf(FirstName))
  }

  /** The rows `exportContactsToCsv` writes: one `ContactResponseDTO` per contact, in the
      column layout of `@CsvBindByPosition`. */
  function ExportLines(t: Tables, caller: AppUser): (lines: seq<seq<string>>)
    requires TablesValid(t)
    ensures |lines| == |ContactsOf(t, caller.tsid)|
  {
    var cs := ExportedContacts(t, caller);
    ExportedMembers(t, caller);
    seq(|cs|, i requires 0 <= i < |cs| => CsvLine(ResponseInStore(t, cs[i])))
  }

  lemma ExportedMembers(t: Tables, caller: AppUser)
    requires TablesValid(t)
    ensures forall i :: 0 <= i < |ExportedContacts(t, caller)| ==>
      ExportedContacts(t, caller)[i] in t.contacts.Values && StoredContact(t, ExportedContacts(t, caller)[i])
      && ExportedContacts(t, caller)[i].owner == Some(caller.tsid)
  {
    var owned := ContactsOf(t, caller.tsid);
    SortByMembers(owned, KeyOf(FirstName));
    forall c | c in owned ensures c in t.contacts.Values && StoredContact(t, c) {
      var k :| k in t.contacts && t.contacts[k] == c;
    }
  }

  /** Line `i` of the export is the response of the `i`-th exported contact. */
  lemma ExportLineAt(t: Tables, caller: AppUser, i: nat)
    requires TablesValid(t) && i < |ExportLines(t, caller)|
    ensures StoredContact(t, ExportedContacts(t, caller)[i])
    ensures ExportedContacts(t, caller)[i].owner == Some(caller.tsid)
    ensures ExportLines(t, caller)[i] == CsvLine(ResponseInStore(t, ExportedContacts(t, caller)[i]))
  {
    ExportedMembers(t, caller);
  }

  /** Every contact of the caller is exported, and nothing else: line `i` holds the
      fields of a stored contact of the caller. */
  lemma ExportIsCallersContacts(t: Tables, caller: AppUser, k: int)
    requires TablesValid(t) && k in t.contacts && t.contacts[k].owner == Some(caller.tsid)
    ensures exists i :: 0 <= i < |ExportLines(t, caller)| && ExportedContacts(t, caller)[i] == t.contacts[k]
  {
    SortByKeeps(ContactsOf(t, caller.tsid), KeyOf(FirstName), t.contacts[k]);
    var cs := ExportedContacts(t, caller);
    var i :| 0 <= i < |cs| && cs[i] == t.contacts[k];
    assert |ExportLines(t, caller)| == |cs|;
  }

  /** Export and import share the layout: each exported line binds back to the contact's
      own first name, last name, phone, address and type label. */
  lemma ExportBindsBack(t: Tables, caller: AppUser, i: nat)
    requires TablesValid(t) && i < |ExportLines(t, caller)|
    ensures var c := ExportedContacts(t, caller)[i];
      StoredContact(t, c) && c.owner == Some(caller.tsid)
      && Bind(ExportLines(t, caller)[i]) ==
        CsvRow(Some(c.firstName), Some(c.lastName), Some(c.phoneNumber), Some(c.address),
               Some(t.contactTypes[c.contactType.value].name))
  {
    ExportLineAt(t, caller, i);
    CsvLineBindsBack(ResponseInStore(t, ExportedContacts(t, caller)[i]));
  }

  /** Re-importing an exported line that passes the row checks, into the same store,
      makes a contact with the same fields and a type of the same label. */
  lemma ExportReimports(t: Tables, caller: AppUser, i: nat, tsid: int)
    requires TablesValid(t) && i < |ExportLines(t, caller)|
    requires CsvRowValid(Bind(ExportLines(t, caller)[i]))
    ensures var c := ExportedContacts(t, caller)[i];
      var r := ContactOfCsvRow(t.contactTypes, Bind(ExportLines(t, caller)[i]), tsid);
      StoredContact(t, c) && r.Success?
      && r.value.firstName == c.firstName && r.value.lastName == c.lastName
      && r.value.address == c.address && r.value.phoneNumber == c.phoneNumber
      && t.contactTypes[r.value.contactType.value].name == t.contactTypes[c.contactType.value].name
  {
    ExportBindsBack(t, caller, i);
    ExportLineAt(t, caller, i);
    var c := ExportedContacts(t, caller)[i];
    var typeName := t.contactTypes[c.contactType.value].name;
    assert c.contactType.value in t.contactTypes && t.contactTypes[c.contactType.value].name == typeName;
  }

  /** The export is ordered by first name. */
  lemma ExportSortedByFirstName(t: Tables, caller: AppUser)
    requires TablesValid(t)
    ensures forall i, j :: 0 <= i < j < |ExportLines(t, caller)| ==>
      UnitsLeq(Utf16(ExportLines(t, caller)[i][0]), Utf16(ExportLines(t, caller)[j][0]))
  {
    var cs := ExportedContacts(t, caller);
    var lines := ExportLines(t, caller);
    SortBySorted(ContactsOf(t, caller.tsid), KeyOf(FirstName));
    forall i, j | 0 <= i < j < |lines| ensures UnitsLeq(Utf16(lines[i][0]), Utf16(lines[j][0])) {
      ExportFirstNameAt(t, caller, i);
      ExportFirstNameAt(t, caller, j);
      assert UnitsLeq(KeyOf(FirstName)(cs[i]), KeyOf(FirstName)(cs[j]));
    }
  }

  lemma ExportFirstNameAt(t: Tables, caller: AppUser, i: nat)
    requires TablesValid(t) && i < |ExportLines(t, caller)|
    ensures i < |ExportedContacts(t, caller)|
    ensures Utf16(ExportLines(t, caller)[i][0]) == KeyOf(FirstName)(ExportedContacts(t, caller)[i])
  {
    ExportLineAt(t, caller, i);
  }

  // ---- countAllContacts ------------------------------------------------------------

  /** `countAllContacts`: the size of the whole contact table, whoever owns the rows. */
  function CountAllContacts(t: Tables): (r: Reply<map<string, int>>)
    ensures r.NotFound? <==> t.contacts == map[]
    ensures r.Done? ==> COUNT_KEY in r.value && r.value[COUNT_KEY] == |t.contacts|
  {
    Count(|t.contacts|)
  }
}
