/**
 * The DTO mappers: request records to entities, entities to response records, and
 * the CSV column layout that export writes and import reads.
 */
module Mappers {
  import opened Base
  import opened JavaText
  import opened Entities
  import opened Requests
  import opened Store

  // ---- contact projection and the CSV layout -----------------------------------

  /** `ContactResponseDTO`. */
  datatype ContactResponse = ContactResponse(
    contactTsid: string,
    firstName: string,
    lastName: string,
    address: string,
    phoneNumber: string,
    contactType: string,
    contactTypeTsid: string)

  /** `ContactResponseDTOMapper.apply`, given the contact's stored type. */
  function ContactResponseOf(c: Contact, ty: ContactType): (r: ContactResponse)
    ensures r.firstName == c.firstName && r.lastName == c.lastName
    ensures r.address == c.address && r.phoneNumber == c.phoneNumber
    ensures r.contactType == ty.name
  {
    ContactResponse(IntToString(c.tsid), c.firstName, c.lastName, c.address, c.phoneNumber,
                    ty.name, IntToString(ty.tsid))
  }

  /** Both tsids are written in decimal, so they parse back to the tsids they came from. */
  lemma ContactResponseTsidsParse(c: Contact, ty: ContactType)
    requires MIN_LONG <= c.tsid <= MAX_LONG && MIN_LONG <= ty.tsid <= MAX_LONG
    ensures ParseLong(Some(ContactResponseOf(c, ty).contactTsid)) == Some(c.tsid)
    ensures ParseLong(Some(ContactResponseOf(c, ty).contactTypeTsid)) == Some(ty.tsid)
  {
    ParseLongOfIntToString(c.tsid);
    ParseLongOfIntToString(ty.tsid);
  }

  /** The projection of a stored contact, with its type read from the store: the
      contact's own fields, and the label of the type it refers to. */
  function ResponseInStore(t: Tables, c: Contact): (r: ContactResponse)
    requires StoredContact(t, c)
    ensures r.firstName == c.firstName && r.lastName == c.lastName
    ensures r.address == c.address && r.phoneNumber == c.phoneNumber
    ensures r.contactType == t.contactTypes[c.contactType.value].name
  {
    ContactResponseOf(c, t.contactTypes[c.contactType.value])
  }

  /** In a consistent store both tsids of the response parse back: to the contact's
      tsid, and to the tsid of the type the contact refers to. */
  lemma ResponseInStoreTsidsParse(t: Tables, c: Contact)
    requires TablesValid(t) && StoredContact(t, c) && MIN_LONG <= c.tsid <= MAX_LONG
    requires MIN_LONG <= c.contactType.value <= MAX_LONG
    ensures ParseLong(Some(ResponseInStore(t, c).contactTsid)) == Some(c.tsid)
    ensures ParseLong(Some(ResponseInStore(t, c).contactTypeTsid)) == c.contactType
  {
    ContactResponseTsidsParse(c, t.contactTypes[c.contactType.value]);
  }

  /** The CSV line written for one response record: `@CsvBindByPosition` puts first
      name at 0, last name at 1, phone at 2, address at 3 and the type label at 4;
      the two tsids are `@CsvIgnore`d. */
  function CsvLine(r: ContactResponse): (line: seq<string>)
    ensures |line| == 5
    ensures line[0] == r.firstName && line[1] == r.lastName && line[2] == r.phoneNumber
    ensures line[3] == r.address && line[4] == r.contactType
  {
    [r.firstName, r.lastName, r.phoneNumber, r.address, r.contactType]
  }

  /** Export and import share the column layout: every field written comes back in the
      field of the same name, not its neighbour. */
  lemma {:induction false} CsvLineBindsBack(r: ContactResponse)
    ensures Bind(CsvLine(r)) ==
      CsvRow(Some(r.firstName), Some(r.lastName), Some(r.phoneNumber), Some(r.address), Some(r.contactType))
  {
    var line := CsvLine(r);
    assert Column(line, 2) == Some(r.phoneNumber);
    assert Column(line, 3) == Some(r.address);
  }

  // ---- request and CSV row to contact --------------------------------------------

  /** `AddContactRequestDTOMapper.apply`: a contact with the request's fields, a fresh
      tsid, and neither owner nor type. */
  function ContactOfAddRequest(d: AddContactRequest, tsid: int): (c: Contact)
    requires AddContactRequestValid(d)
    ensures c.tsid == tsid && c.owner.None? && c.contactType.None?
    ensures Some(c.firstName) == d.firstName && Some(c.lastName) == d.lastName
    ensures Some(c.address) == d.address && Some(c.phoneNumber) == d.phoneNumber
  {
    Contact(tsid, d.firstName.value, d.lastName.value, d.address.value, d.phoneNumber.value, None, None)
  }

  /** `AddContactCsvDTOMapper.apply`: the type is looked up by label, and a missing
      label is `ContactTypeNotFoundException(label)`. */
  function ContactOfCsvRow(types: map<int, ContactType>, row: CsvRow, tsid: int): (r: Result<Contact>)
    requires CsvRowValid(row)
    ensures r.Failure? <==> FindTypeByName(types, row.contactType.value).None?
    ensures r.Failure? ==> r.error == ContactTypeNotFoundByName(row.contactType.value)
    ensures r.Success? ==>
      var c := r.value;
      c.tsid == tsid && c.owner.None?
      && Some(c.firstName) == row.firstName && Some(c.lastName) == row.lastName
      && Some(c.address) == row.address && Some(c.phoneNumber) == row.phoneNumber
      && c.contactType.Some? && c.contactType.value in types
      && types[c.contactType.value].name == row.contactType.value
  {
    match FindTypeByName(types, row.contactType.value)
    case None => Failure(ContactTypeNotFoundByName(row.contactType.value))
    case Some(typeTsid) =>
      Success(Contact(tsid, row.firstName.value, row.lastName.value, row.address.value,
                      row.phoneNumber.value, None, Some(typeTsid)))
  }

  // ---- users ---------------------------------------------------------------------

  datatype RoleResponse = RoleResponse(tsid: string, roleName: string)

  /** `AppUserResponseDTO`. */
  datatype AppUserResponse = AppUserResponse(
    tsid: string,
    firstName: string,
    lastName: string,
    email: Option<string>,
    phoneNumber: Option<string>,
    isPhoneVerified: bool,
    roles: seq<RoleResponse>)

  function RoleResponseOf(r: Role): RoleResponse
  {
    RoleResponse(IntToString(r.tsid), r.roleName)
  }

  /** `AppUserResponseDTOMapper.apply`: the password and `isEnabled` are not exposed. */
  function AppUserResponseOf(u: AppUser): (r: AppUserResponse)
    ensures r.firstName == u.firstName && r.lastName == u.lastName
    ensures r.email == u.email && r.phoneNumber == u.phoneNumber
    ensures r.isPhoneVerified == u.isPhoneVerified
    ensures |r.roles| == |u.roles|
    ensures forall i :: 0 <= i < |r.roles| ==> r.roles[i].roleName == u.roles[i].roleName
  {
    AppUserResponse(IntToString(u.tsid), u.firstName, u.lastName, u.email, u.phoneNumber,
                    u.isPhoneVerified, seq(|u.roles|, i requires 0 <= i < |u.roles| => RoleResponseOf(u.roles[i])))
  }

  /** The rendered tsids parse back: the user's, and every role's, in role order. */
  lemma AppUserResponseTsidsParse(u: AppUser)
    requires MIN_LONG <= u.tsid <= MAX_LONG
    requires forall i :: 0 <= i < |u.roles| ==> MIN_LONG <= u.roles[i].tsid <= MAX_LONG
    ensures ParseLong(Some(AppUserResponseOf(u).tsid)) == Some(u.tsid)
    ensures forall i :: 0 <= i < |u.roles| ==> ParseLong(Some(AppUserResponseOf(u).roles[i].tsid)) == Some(u.roles[i].tsid)
  {
    ParseLongOfIntToString(u.tsid);
    forall i | 0 <= i < |u.roles|
      ensures ParseLong(Some(AppUserResponseOf(u).roles[i].tsid)) == Some(u.roles[i].tsid)
    {
      ParseLongOfIntToString(u.roles[i].tsid);
    }
  }

  /** `AddAppUserRequestDTOMapper.apply`: a new account starts disabled, with its phone
      unverified and no roles; the password is still the raw one. */
  function AppUserOfAddRequest(d: AddAppUserRequest, tsid: int): (u: AppUser)
    requires d.firstName.Some? && d.lastName.Some? && d.password.Some?
    ensures !u.isEnabled && !u.isPhoneVerified && u.roles == []
    ensures u.tsid == tsid
    ensures Some(u.firstName) == d.firstName && Some(u.lastName) == d.lastName
    ensures u.email == d.email && Some(u.password) == d.password && u.phoneNumber == d.phoneNumber
  {
    AppUser(tsid, d.firstName.value, d.lastName.value, d.email, d.password.value, d.phoneNumber,
            false, false, [])
  }
}
