/**
 * `ContactTypeService`: listing, creating and renaming contact types. A request
 * reaches the service only after bean validation (`@Valid`), so its label is
 * present and not blank, and an update names a tsid. The new tsid of a created
 * type is a parameter.
 */
module ContactTypeService {
  import opened Base
  import opened JavaText
  import opened Entities
  import opened Store
  import opened Mappers
  import opened Requests

  const NO_CONTACT_TYPES: string := "No contact types found"

  /** `ContactTypeResponseDTO`: the tsid as decimal text and the label. */
  datatype ContactTypeResponse = ContactTypeResponse(tsid: string, name: string)

  /** The type as its DTO: the label as is, and the tsid in decimal, so a client parses
      the type's tsid back from it. */
  function ContactTypeResponseOf(ty: ContactType): (r: ContactTypeResponse)
    ensures r.name == ty.name
    ensures MIN_LONG <= ty.tsid <= MAX_LONG ==> ParseLong(Some(r.tsid)) == Some(ty.tsid)
  {
    ParseLongOfIntToStringInRange(ty.tsid);
    ContactTypeResponse(IntToString(ty.tsid), ty.name)
  }

  // ---- getAllContactTypes -------------------------------------------------------

  /** The records `getAllContactTypes` builds, in the order the types are listed. */
  function TypeResponses(types: seq<ContactType>): (out: seq<ContactTypeResponse>)
    ensures |out| == |types|
    ensures forall i :: 0 <= i < |out| ==> out[i] == ContactTypeResponseOf(types[i])
  {
    seq(|types|, i requires 0 <= i < |types| => ContactTypeResponseOf(types[i]))
  }

  /** Listing the type table answers for every type and for nothing else. */
  lemma TypesListed(m: map<int, ContactType>)
    ensures var out := TypeResponses(OrderedValues(m));
      (out == [] <==> m == map[])
      && (forall k :: k in m ==> ContactTypeResponseOf(m[k]) in out)
      && (forall i :: 0 <= i < |out| ==> exists k :: k in m && out[i] == ContactTypeResponseOf(m[k]))
  {
    assert |TypeResponses(OrderedValues(m))| == |m|;
    TypesListedAll(m);
    TypesListedOnly(m);
  }

  lemma TypesListedAll(m: map<int, ContactType>)
    ensures forall k :: k in m ==> ContactTypeResponseOf(m[k]) in TypeResponses(OrderedValues(m))
  {
    var types := OrderedValues(m);
    forall k | k in m ensures ContactTypeResponseOf(m[k]) in TypeResponses(types) {
      var i := OrderedValuesAt(m, k);
      assert TypeResponses(types)[i] == ContactTypeResponseOf(m[k]);
    }
  }

  lemma TypesListedOnly(m: map<int, ContactType>)
    ensures var out := TypeResponses(OrderedValues(m));
      forall i :: 0 <= i < |out| ==> exists k :: k in m && out[i] == ContactTypeResponseOf(m[k])
  {
    var types := OrderedValues(m);
    var out := TypeResponses(types);
    forall i | 0 <= i < |out| ensures exists k :: k in m && out[i] == ContactTypeResponseOf(m[k]) {
      assert types[i] in m.Values;
    }
  }

  /** `getAllContactTypes`: one (tsid string, label) pair per stored type, or
      NOT_FOUND with "No contact types found" when the table is empty. */
  function GetAllContactTypes(t: Tables): (r: Reply<seq<ContactTypeResponse>>)
    ensures r.NotFound? <==> t.contactTypes == map[]
    ensures r.NotFound? ==> r.body == Some(NO_CONTACT_TYPES)
    ensures !r.BadRequest?
    ensures r.Done? ==> |r.value| == |t.contactTypes|
  {
    var out := TypeResponses(OrderedValues(t.contactTypes));
    TypesListed(t.contactTypes);
    if out == [] then NotFound(Some(NO_CONTACT_TYPES)) else Done(out)
  }

  /** A successful listing answers for every stored type and for nothing else. */
  lemma GetAllContactTypesComplete(t: Tables)
    ensures GetAllContactTypes(t).Done? ==>
      (forall k :: k in t.contactTypes ==> ContactTypeResponseOf(t.contactTypes[k]) in GetAllContactTypes(t).value)
      && (forall i :: 0 <= i < |GetAllContactTypes(t).value| ==>
            exists k :: k in t.contactTypes && GetAllContactTypes(t).value[i] == ContactTypeResponseOf(t.contactTypes[k]))
  {
    TypesListed(t.contactTypes);
  }

  // ---- addContactType -----------------------------------------------------------

  /** `addContactType`: a new type with the fresh tsid and the requested label is
      saved and echoed back; nothing else in the store changes. */
  function AddContactTypeSpec(t: Tables, d: AddContactTypeRequest, tsid: int): (o: Outcome<ContactTypeResponse>)
    requires AddContactTypeRequestValid(d)
    ensures o.result == Success(ContactTypeResponse(IntToString(tsid), d.name.value))
    ensures o.tables.(contactTypes := t.contactTypes) == t
    ensures tsid in o.tables.contactTypes && o.tables.contactTypes[tsid] == ContactType(tsid, d.name.value)
    ensures forall k :: k in o.tables.contactTypes && k != tsid ==>
      k in t.contactTypes && o.tables.contactTypes[k] == t.contactTypes[k]
    ensures o.tables.contactTypes.Keys == t.contactTypes.Keys + {tsid}
    ensures TablesValid(t) ==> TablesValid(o.tables)
  {
    var ty := ContactType(tsid, d.name.value);
    Outcome(t.(contactTypes := t.contactTypes[tsid := ty]), Success(ContactTypeResponseOf(ty)))
  }

  method AddContactType(db: Database, d: AddContactTypeRequest, tsid: int) returns (r: ContactTypeResponse)
    requires AddContactTypeRequestValid(d)
    modifies db
    ensures Outcome(db.Snapshot(), Success(r)) == AddContactTypeSpec(old(db.Snapshot()), d, tsid)
  {
    var ty := ContactType(tsid, d.name.value);
    db.SaveContactType(ty);
    r := ContactTypeResponseOf(ty);
  }

  /** With a fresh tsid, a new type is listed, found by its label, and changes the
      response of no stored contact. */
  lemma AddedTypeIsUsable(t: Tables, d: AddContactTypeRequest, tsid: int, c: Contact)
    requires AddContactTypeRequestValid(d) && tsid !in t.contactTypes && StoredContact(t, c)
    ensures var after := AddContactTypeSpec(t, d, tsid).tables;
      GetAllContactTypes(after).Done?
      && ContactTypeResponseOf(ContactType(tsid, d.name.value)) in GetAllContactTypes(after).value
      && FindTypeByName(after.contactTypes, d.name.value).Some?
      && |after.contactTypes| == |t.contactTypes| + 1
      && StoredContact(after, c) && ResponseInStore(after, c) == ResponseInStore(t, c)
  {
    var after := AddContactTypeSpec(t, d, tsid).tables;
    GetAllContactTypesComplete(after);
    assert after.contactTypes[tsid].name == d.name.value;
  }

  // ---- updateContactType ---------------------------------------------------------

  /** `updateContactType`: an unknown tsid is `ContactTypeNotFoundException(tsid)` and
      nothing changes; otherwise the stored type gets the new label, keeps its tsid,
      is saved back and echoed. */
  function UpdateContactTypeSpec(t: Tables, d: UpdateContactTypeRequest): (o: Outcome<ContactTypeResponse>)
    requires UpdateContactTypeRequestValid(d)
    ensures d.tsid.value !in t.contactTypes <==> o.result.Failure?
    ensures o.result.Failure? ==>
      o.tables == t && o.result.error == ContactTypeNotFoundByTsid(d.tsid.value)
    ensures o.result.Success? ==>
      var prev := t.contactTypes[d.tsid.value];
      o.result.value == ContactTypeResponse(IntToString(prev.tsid), d.name.value)
      && o.tables.(contactTypes := t.contactTypes) == t
      && o.tables.contactTypes == t.contactTypes[prev.tsid := prev.(name := d.name.value)]
    ensures TablesValid(t) ==> TablesValid(o.tables)
  {
    var tsid := d.tsid.value;
    if tsid !in t.contactTypes then Outcome(t, Failure(ContactTypeNotFoundByTsid(tsid)))
    else
      var saved := t.contactTypes[tsid].(name := d.name.value);
      Outcome(t.(contactTypes := t.contactTypes[saved.tsid := saved]), Success(ContactTypeResponseOf(saved)))
  }

  method UpdateContactType(db: Database, d: UpdateContactTypeRequest) returns (r: Result<ContactTypeResponse>)
    requires UpdateContactTypeRequestValid(d)
    modifies db
    ensures Outcome(db.Snapshot(), r) == UpdateContactTypeSpec(old(db.Snapshot()), d)
  {
    var tsid := d.tsid.value;
    if tsid !in db.contactTypes {
      return Failure(ContactTypeNotFoundByTsid(tsid));
    }
    var saved := db.contactTypes[tsid].(name := d.name.value);
    db.SaveContactType(saved);
    r := Success(ContactTypeResponseOf(saved));
  }

  /** In a consistent store a rename touches one type only: the others keep their
      labels, the table keeps its keys, and the renamed type is found by its new label. */
  lemma UpdateRenamesOneType(t: Tables, d: UpdateContactTypeRequest, k: int)
    requires TablesValid(t) && UpdateContactTypeRequestValid(d)
    requires UpdateContactTypeSpec(t, d).result.Success?
    ensures var after := UpdateContactTypeSpec(t, d).tables.contactTypes;
      after.Keys == t.contactTypes.Keys
      && after[d.tsid.value] == ContactType(d.tsid.value, d.name.value)
      && (k in t.contactTypes && k != d.tsid.value ==> after[k] == t.contactTypes[k])
      && FindTypeByName(after, d.name.value).Some?
  {
    var after := UpdateContactTypeSpec(t, d).tables.contactTypes;
    assert after[d.tsid.value].name == d.name.value;
  }

  /** Every contact of the renamed type now shows the new label and nothing else of it
      changes; contacts of other types read exactly as before. */
  lemma RenameReachesContacts(t: Tables, d: UpdateContactTypeRequest, c: Contact)
    requires TablesValid(t) && UpdateContactTypeRequestValid(d)
    requires UpdateContactTypeSpec(t, d).result.Success? && StoredContact(t, c)
    ensures var after := UpdateContactTypeSpec(t, d).tables;
      StoredContact(after, c)
      && (c.contactType.value == d.tsid.value ==>
            ResponseInStore(after, c) == ResponseInStore(t, c).(contactType := d.name.value))
      && (c.contactType.value != d.tsid.value ==> ResponseInStore(after, c) == ResponseInStore(t, c))
  {
  }

  /** Repeating a rename changes nothing more and answers the same. */
  lemma UpdateContactTypeIdempotent(t: Tables, d: UpdateContactTypeRequest)
    requires TablesValid(t) && UpdateContactTypeRequestValid(d)
    ensures var once := UpdateContactTypeSpec(t, d);
      UpdateContactTypeSpec(once.tables, d) == once
  {
    var tsid := d.tsid.value;
    if tsid in t.contactTypes {
      var once := UpdateContactTypeSpec(t, d);
      var saved := t.contactTypes[tsid].(name := d.name.value);
      assert saved.tsid == tsid;
      assert once.tables.contactTypes[tsid] == saved;
      assert saved.(name := d.name.value) == saved;
      assert once.tables.contactTypes[tsid := saved] == once.tables.contactTypes;
    }
  }
}
