/**
 * The request records and the CSV row record, with their Bean Validation constraints.
 * A field is `None` when the JSON (or the CSV row) leaves it null. Each constraint
 * accepts null unless it is `@NotNull` or `@NotBlank`, as Bean Validation does.
 * The `...Valid` predicates state the annotations as written; the lemmas beside them
 * restate each one in plain terms (letters, digits, lengths).
 */
module Requests {
  import opened Base
  import opened JavaText
  import opened Patterns

  // ---- the constraints -------------------------------------------------------

  /** `@NotBlank`: not null, and `trim()` leaves something. */
  predicate NotBlank(s: Option<string>)
  {
    s.Some? && NotBlankTrim(s.value)
  }

  /** `@Size(min, max)` on a string: null passes; the length is in UTF-16 units. */
  predicate SizeBetween(s: Option<string>, min: nat, max: Option<nat>)
  {
    s.None? || (min <= Utf16Length(s.value) && (max.None? || Utf16Length(s.value) <= max.value))
  }

  /** `@Pattern(regexp)`: null passes; otherwise the whole string must match. */
  predicate PatternMatches(s: Option<string>, r: Regex)
  {
    s.None? || Matches(s.value, r)
  }

  /** `@Email`: null passes; the format check itself is Hibernate's and is a parameter. */
  predicate EmailOk(s: Option<string>, isEmail: string -> bool)
  {
    s.None? || isEmail(s.value)
  }

  // ---- plain reference definitions -------------------------------------------

  predicate AllLetters(s: string)
  {
    forall i :: 0 <= i < |s| ==> IsAsciiLetter(s[i])
  }

  predicate AllAddressChars(s: string)
  {
    forall i :: 0 <= i < |s| ==> IsAsciiLetter(s[i]) || IsAsciiDigit(s[i]) || s[i] == ' '
  }

  /** One or more ASCII letters, at most `cap` of them. */
  predicate IsName(s: string, cap: Option<nat>)
  {
    1 <= |s| && (cap.None? || |s| <= cap.value) && AllLetters(s)
  }

  /** One or more of [a-zA-Z0-9 ], at most `cap`, and not spaces only. */
  predicate IsAddress(s: string, cap: Option<nat>)
  {
    1 <= |s| && (cap.None? || |s| <= cap.value) && AllAddressChars(s)
      && exists i :: 0 <= i < |s| && s[i] != ' '
  }

  /** '+' and then 9 to 14 ASCII digits. */
  predicate IsPhone(s: string)
  {
    10 <= |s| <= 15 && s[0] == '+' && forall i :: 1 <= i < |s| ==> IsAsciiDigit(s[i])
  }

  /** One or more ASCII digits. */
  predicate IsDigitString(s: string)
  {
    1 <= |s| && AllDigits(s)
  }

  // ---- field rules and their plain meaning ------------------------------------

  /** A string of characters below U+10000 has as many UTF-16 units as characters. */
  lemma Utf16LengthOfBmp(s: string)
    requires forall i :: 0 <= i < |s| ==> s[i] as int < 0x1_0000
    ensures Utf16Length(s) == |s|
  {
    Utf16OfBmp(s);
  }

  /** `@NotBlank @Size(max = cap) @Pattern("^[a-zA-Z]+$")`: a name of 1 to `cap` letters. */
  lemma NameFieldIff(s: Option<string>, cap: nat)
    ensures NotBlank(s) && SizeBetween(s, 0, Some(cap)) && PatternMatches(s, NAME)
        <==> s.Some? && IsName(s.value, Some(cap))
  {
    if s.Some? {
      NameMatches(s.value);
      if AllLetters(s.value) {
        Utf16LengthOfBmp(s.value);
        if 1 <= |s.value| {
          assert s.value[0] > ' ';
        }
      }
    }
  }

  /** `@NotBlank @Pattern("^[a-zA-Z]+$")` without a size cap. */
  lemma UncappedNameFieldIff(s: Option<string>)
    ensures NotBlank(s) && PatternMatches(s, NAME) <==> s.Some? && IsName(s.value, None)
  {
    if s.Some? {
      NameMatches(s.value);
      if 1 <= |s.value| && AllLetters(s.value) {
        assert s.value[0] > ' ';
      }
    }
  }

  /** The address rule: `@NotBlank`, `[a-zA-Z0-9 ]+`, and at most `cap` characters when
      capped. A string of spaces matches the pattern but is blank, so it fails. */
  lemma AddressFieldIff(s: Option<string>, cap: Option<nat>)
    ensures NotBlank(s) && SizeBetween(s, 0, cap) && PatternMatches(s, ADDRESS)
        <==> s.Some? && IsAddress(s.value, cap)
  {
    if s.Some? {
      var v := s.value;
      AddressMatches(v);
      if AllAddressChars(v) {
        Utf16LengthOfBmp(v);
        if NotBlankTrim(v) {
          var i :| 0 <= i < |v| && v[i] > ' ';
          assert v[i] != ' ';
        }
        if exists i :: 0 <= i < |v| && v[i] != ' ' {
          var i :| 0 <= i < |v| && v[i] != ' ';
          assert v[i] > ' ';
        }
      }
    }
  }

  /** `@NotBlank @Pattern("^\\+[0-9]{9,14}$")`: a phone number. */
  lemma PhoneFieldIff(s: Option<string>)
    ensures NotBlank(s) && PatternMatches(s, PHONE) <==> s.Some? && IsPhone(s.value)
  {
    if s.Some? {
      PhoneMatches(s.value);
      if IsPhone(s.value) {
        assert s.value[0] > ' ';
      }
    }
  }

  /** `@Pattern("^\\+[0-9]{9,14}$")` alone: null passes as well. */
  lemma OptionalPhoneFieldIff(s: Option<string>)
    ensures PatternMatches(s, PHONE) <==> s.None? || IsPhone(s.value)
  {
    if s.Some? {
      PhoneMatches(s.value);
    }
  }

  /** `@NotBlank @Pattern("^[0-9]+$")`: a TSID written in digits. */
  lemma TsidFieldIff(s: Option<string>)
    ensures NotBlank(s) && PatternMatches(s, DIGITS) <==> s.Some? && IsDigitString(s.value)
  {
    if s.Some? {
      DigitsMatches(s.value);
      if IsDigitString(s.value) {
        assert s.value[0] > ' ';
      }
    }
  }

  // ---- AddContactRequestDTO --------------------------------------------------

  datatype AddContactRequest = AddContactRequest(
    firstName: Option<string>,
    lastName: Option<string>,
    address: Option<string>,
    phoneNumber: Option<string>,
    contactTypeTsid: Option<string>)

  predicate AddContactRequestValid(d: AddContactRequest)
  {
    NotBlank(d.firstName) && SizeBetween(d.firstName, 0, Some(20)) && PatternMatches(d.firstName, NAME)
    && NotBlank(d.lastName) && SizeBetween(d.lastName, 0, Some(20)) && PatternMatches(d.lastName, NAME)
    && NotBlank(d.address) && SizeBetween(d.address, 0, Some(30)) && PatternMatches(d.address, ADDRESS)
    && NotBlank(d.phoneNumber) && PatternMatches(d.phoneNumber, PHONE)
    && PatternMatches(d.contactTypeTsid, DIGITS) && NotBlank(d.contactTypeTsid)
  }

  lemma AddContactRequestValidIff(d: AddContactRequest)
    ensures AddContactRequestValid(d) <==>
      d.firstName.Some? && IsName(d.firstName.value, Some(20))
      && d.lastName.Some? && IsName(d.lastName.value, Some(20))
      && d.address.Some? && IsAddress(d.address.value, Some(30))
      && d.phoneNumber.Some? && IsPhone(d.phoneNumber.value)
      && d.contactTypeTsid.Some? && IsDigitString(d.contactTypeTsid.value)
  {
    NameFieldIff(d.firstName, 20);
    NameFieldIff(d.lastName, 20);
    AddressFieldIff(d.address, Some(30));
    PhoneFieldIff(d.phoneNumber);
    TsidFieldIff(d.contactTypeTsid);
  }

  // ---- UpdateContactRequestDTO -----------------------------------------------

  datatype UpdateContactRequest = UpdateContactRequest(
    contactTsid: Option<string>,
    firstName: Option<string>,
    lastName: Option<string>,
    address: Option<string>,
    phoneNumber: Option<string>,
    contactTypeTsid: Option<string>)

  /** Unlike the add request, names and address have no length cap. */
  predicate UpdateContactRequestValid(d: UpdateContactRequest)
  {
    PatternMatches(d.contactTsid, DIGITS) && NotBlank(d.contactTsid)
    && NotBlank(d.firstName) && PatternMatches(d.firstName, NAME)
    && NotBlank(d.lastName) && PatternMatches(d.lastName, NAME)
    && NotBlank(d.address) && PatternMatches(d.address, ADDRESS)
    && NotBlank(d.phoneNumber) && PatternMatches(d.phoneNumber, PHONE)
    && PatternMatches(d.contactTypeTsid, DIGITS) && NotBlank(d.contactTypeTsid)
  }

  lemma UpdateContactRequestValidIff(d: UpdateContactRequest)
    ensures UpdateContactRequestValid(d) <==>
      d.contactTsid.Some? && IsDigitString(d.contactTsid.value)
      && d.firstName.Some? && IsName(d.firstName.value, None)
      && d.lastName.Some? && IsName(d.lastName.value, None)
      && d.address.Some? && IsAddress(d.address.value, None)
      && d.phoneNumber.Some? && IsPhone(d.phoneNumber.value)
      && d.contactTypeTsid.Some? && IsDigitString(d.contactTypeTsid.value)
  {
    TsidFieldIff(d.contactTsid);
    UncappedNameFieldIff(d.firstName);
    UncappedNameFieldIff(d.lastName);
    AddressFieldIff(d.address, None);
    PhoneFieldIff(d.phoneNumber);
    TsidFieldIff(d.contactTypeTsid);
  }

  /** A 21-letter first name passes the update rules but not the add rules. */
  lemma UpdateAllowsLongerNames()
    ensures var long := Some("Abcdefghijklmnopqrstu");
      !AddContactRequestValid(AddContactRequest(long, Some("Doe"), Some("Main 1"), Some("+123456789"), Some("1")))
      && UpdateContactRequestValid(UpdateContactRequest(Some("2"), long, Some("Doe"), Some("Main 1"), Some("+123456789"), Some("1")))
  {
    LongNameRefusedByAdd();
    LongNameAcceptedByUpdate();
  }

  lemma LongNameRefusedByAdd()
    ensures !AddContactRequestValid(AddContactRequest(Some("Abcdefghijklmnopqrstu"), Some("Doe"), Some("Main 1"), Some("+123456789"), Some("1")))
  {
    AddContactRequestValidIff(AddContactRequest(Some("Abcdefghijklmnopqrstu"), Some("Doe"), Some("Main 1"), Some("+123456789"), Some("1")));
  }

  lemma LongNameAcceptedByUpdate()
    ensures UpdateContactRequestValid(UpdateContactRequest(Some("2"), Some("Abcdefghijklmnopqrstu"), Some("Doe"), Some("Main 1"), Some("+123456789"), Some("1")))
  {
    assert IsDigitString("2") && IsDigitString("1");
    assert IsName("Abcdefghijklmnopqrstu", None) && IsName("Doe", None);
    assert IsAddress("Main 1", None) by {
      assert "Main 1"[0] != ' ';
    }
    assert IsPhone("+123456789");
    UpdateContactRequestValidIff(UpdateContactRequest(Some("2"), Some("Abcdefghijklmnopqrstu"), Some("Doe"), Some("Main 1"), Some("+123456789"), Some("1")));
  }

  // ---- AddAppUserRequestDTO --------------------------------------------------

  /** `userRoleTsids` is a JSON array whose entries may themselves be null. */
  datatype AddAppUserRequest = AddAppUserRequest(
    firstName: Option<string>,
    lastName: Option<string>,
    password: Option<string>,
    email: Option<string>,
    phoneNumber: Option<string>,
    userRoleTsids: Option<seq<Option<string>>>)

  predicate AddAppUserRequestValid(d: AddAppUserRequest, isEmail: string -> bool)
  {
    NotBlank(d.firstName) && SizeBetween(d.firstName, 0, Some(20)) && PatternMatches(d.firstName, NAME)
    && NotBlank(d.lastName) && SizeBetween(d.lastName, 0, Some(20)) && PatternMatches(d.lastName, NAME)
    && NotBlank(d.password) && SizeBetween(d.password, 10, Some(20))
    && EmailOk(d.email, isEmail) && SizeBetween(d.email, 0, Some(30))
    && NotBlank(d.phoneNumber) && PatternMatches(d.phoneNumber, PHONE)
    && d.userRoleTsids.Some? && |d.userRoleTsids.value| >= 1
  }

  /** The email may be null or blank: it has no `@NotBlank`. */
  lemma AddAppUserRequestValidIff(d: AddAppUserRequest, isEmail: string -> bool)
    ensures AddAppUserRequestValid(d, isEmail) <==>
      d.firstName.Some? && IsName(d.firstName.value, Some(20))
      && d.lastName.Some? && IsName(d.lastName.value, Some(20))
      && d.password.Some? && NotBlankTrim(d.password.value) && 10 <= Utf16Length(d.password.value) <= 20
      && (d.email.None? || (isEmail(d.email.value) && Utf16Length(d.email.value) <= 30))
      && d.phoneNumber.Some? && IsPhone(d.phoneNumber.value)
      && d.userRoleTsids.Some? && |d.userRoleTsids.value| >= 1
  {
    NameFieldIff(d.firstName, 20);
    NameFieldIff(d.lastName, 20);
    PhoneFieldIff(d.phoneNumber);
  }

  // ---- UpdateAppUserRequestDTO -----------------------------------------------

  datatype UpdateAppUserRequest = UpdateAppUserRequest(
    tsid: Option<string>,
    firstName: Option<string>,
    lastName: Option<string>,
    password: Option<string>,
    email: Option<string>,
    phoneNumber: Option<string>,
    userRoleTsids: Option<seq<Option<string>>>)

  /** Every field is optional; `userRoleTsids` is not constrained at all. */
  predicate UpdateAppUserRequestValid(d: UpdateAppUserRequest, isEmail: string -> bool)
  {
    PatternMatches(d.tsid, DIGITS)
    && PatternMatches(d.firstName, NAME)
    && PatternMatches(d.lastName, NAME)
    && SizeBetween(d.password, 10, Some(20))
    && SizeBetween(d.email, 0, Some(30)) && EmailOk(d.email, isEmail)
    && PatternMatches(d.phoneNumber, PHONE)
  }

  /** Present names must be one or more letters, so "" is refused while null passes. */
  lemma UpdateAppUserRequestValidIff(d: UpdateAppUserRequest, isEmail: string -> bool)
    ensures UpdateAppUserRequestValid(d, isEmail) <==>
      (d.tsid.None? || IsDigitString(d.tsid.value))
      && (d.firstName.None? || IsName(d.firstName.value, None))
      && (d.lastName.None? || IsName(d.lastName.value, None))
      && (d.password.None? || 10 <= Utf16Length(d.password.value) <= 20)
      && (d.email.None? || (Utf16Length(d.email.value) <= 30 && isEmail(d.email.value)))
      && (d.phoneNumber.None? || IsPhone(d.phoneNumber.value))
  {
    if d.tsid.Some? { DigitsMatches(d.tsid.value); }
    if d.firstName.Some? { NameMatches(d.firstName.value); }
    if d.lastName.Some? { NameMatches(d.lastName.value); }
    OptionalPhoneFieldIff(d.phoneNumber);
  }

  /** The empty request is valid: it asks to change nothing. */
  lemma EmptyUpdateAppUserRequestValid(isEmail: string -> bool)
    ensures UpdateAppUserRequestValid(UpdateAppUserRequest(None, None, None, None, None, None, None), isEmail)
  {
  }

  // ---- SearchRequestDTO ------------------------------------------------------

  /** `page` and `size` are Java `int`s; `@NotNull` on a primitive constrains nothing. */
  datatype SearchRequest = SearchRequest(
    searchParameter: Option<string>,
    searchKeyword: Option<string>,
    page: Int32,
    size: Int32,
    sortBy: Option<string>)

  predicate SearchRequestValid(d: SearchRequest)
  {
    NotBlank(d.searchParameter)
    && NotBlank(d.searchKeyword) && SizeBetween(d.searchKeyword, 3, None)
    && NotBlank(d.sortBy)
  }

  /** Validity does not look at the paging numbers, negative ones included. */
  lemma SearchRequestValidIgnoresPaging(d: SearchRequest, page: Int32, size: Int32)
    ensures SearchRequestValid(d.(page := page, size := size)) <==> SearchRequestValid(d)
  {
  }

  /** A keyword of two characters below U+10000 is too short. */
  lemma {:induction false} ShortKeywordRefused(d: SearchRequest)
    requires d.searchKeyword.Some? && |d.searchKeyword.value| <= 2
    requires forall i :: 0 <= i < |d.searchKeyword.value| ==> d.searchKeyword.value[i] as int < 0x1_0000
    ensures !SearchRequestValid(d)
  {
    Utf16LengthOfBmp(d.searchKeyword.value);
  }

  // ---- contact-type requests and the CSV row ---------------------------------

  datatype AddContactTypeRequest = AddContactTypeRequest(name: Option<string>)

  predicate AddContactTypeRequestValid(d: AddContactTypeRequest)
  {
    NotBlank(d.name)
  }

  datatype UpdateContactTypeRequest = UpdateContactTypeRequest(tsid: Option<int>, name: Option<string>)

  predicate UpdateContactTypeRequestValid(d: UpdateContactTypeRequest)
  {
    d.tsid.Some? && NotBlank(d.name)
  }

  /** `AddContactCsvDTO`: one CSV line bound by column position. */
  datatype CsvRow = CsvRow(
    firstName: Option<string>,
    lastName: Option<string>,
    phoneNumber: Option<string>,
    address: Option<string>,
    contactType: Option<string>)

  function Column(line: seq<string>, i: nat): (r: Option<string>)
    ensures r.Some? <==> i < |line|
    ensures r.Some? ==> r.value == line[i]
  {
    if i < |line| then Some(line[i]) else None
  }

  /** Positions 0 to 4 are first name, last name, phone, address and type label; a
      short line leaves the missing fields null and extra columns are ignored. */
  function Bind(line: seq<string>): CsvRow
  {
    CsvRow(Column(line, 0), Column(line, 1), Column(line, 2), Column(line, 3), Column(line, 4))
  }

  predicate CsvRowValid(r: CsvRow)
  {
    NotBlank(r.firstName) && SizeBetween(r.firstName, 0, Some(20)) && PatternMatches(r.firstName, NAME)
    && NotBlank(r.lastName) && SizeBetween(r.lastName, 0, Some(20)) && PatternMatches(r.lastName, NAME)
    && NotBlank(r.phoneNumber) && PatternMatches(r.phoneNumber, PHONE)
    && NotBlank(r.address) && SizeBetween(r.address, 0, Some(30)) && PatternMatches(r.address, ADDRESS)
    && NotBlank(r.contactType)
  }

  /** A row is imported iff all five column rules hold; the label only has to be non-blank. */
  lemma CsvRowValidIff(r: CsvRow)
    ensures CsvRowValid(r) <==>
      r.firstName.Some? && IsName(r.firstName.value, Some(20))
      && r.lastName.Some? && IsName(r.lastName.value, Some(20))
      && r.phoneNumber.Some? && IsPhone(r.phoneNumber.value)
      && r.address.Some? && IsAddress(r.address.value, Some(30))
      && r.contactType.Some? && NotBlankTrim(r.contactType.value)
  {
    NameFieldIff(r.firstName, 20);
    NameFieldIff(r.lastName, 20);
    PhoneFieldIff(r.phoneNumber);
    AddressFieldIff(r.address, Some(30));
  }

  /** A line with fewer than five columns is never imported. */
  lemma ShortLineRefused(line: seq<string>)
    requires |line| < 5
    ensures !CsvRowValid(Bind(line))
  {
  }
}
