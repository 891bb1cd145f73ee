# Contact manager core, modelled in Dafny

This project models the service layer of a Spring Boot contact manager. Users own contacts. Each contact has a contact type. Accounts are verified by an emailed link and phones by an SMS code. The model covers these parts:

- the per-contact operations behind the ownership guard (get, add, update, delete);
- the search pipeline (filter, stable sort, skip/limit);
- the CSV import and export;
- the verification lifecycle;
- account creation and the partial account update;
- the role-tsid converter;
- the contact-type administration;
- the count helper;
- the Bean Validation rules of every request record.

The repositories are one store. `Store.Tables` is its value: users, contacts, contact types and roles as maps keyed by tsid, and the email tokens and SMS code rows as sequences. `Store.Database` is a class holding the same tables as fields. Its methods are the repository calls (`save`, `delete...`), each stating its whole new state.

Every service operation that writes comes as a pair:
- a function on `Tables` (`...Spec`) that states the outcome: the tables after the call, and its value or the exception it threw;
- a method on a `Database` that performs the service's own repository calls in the same order, proved equal to that function.

Read-only operations are functions.

Module layout, following the program:

- `Base`: `Option`, `Result`.
- `JavaText`: Java string behaviour the code relies on.
  - `String.isBlank`, `trim`-based `@NotBlank`, UTF-16 length, `compareTo`.
  - `lastIndexOf`, `Long.parseLong` and `Long.toString`.
- `Patterns`: the `@Pattern` regular expressions.
- `Entities`: users, contacts, types, roles, tokens, exceptions, replies.
- `Credentials`: `CheckCredentials`.
- `Requests`: the request records and their validation; the CSV row binding.
- `Store`: repositories and ordered enumeration.
- `Mappers`: the DTO mappers and the CSV column layout.
- `RoleConverter`: `RoleTsidToRoleConverterUtil`.
- `Search`: `FieldExtractor` and `searchContacts`.
- `ContactService`: `ContactService`.
- `Verification`: `AccountVerificationService` and `EmailService.generateNewVerificationEmail`.
- `CountUtil`: `CountUtil`.
- `AppUserService`: `AppUserService` and `UpdateAppUserRequestDTOMapper`.
- `ContactTypeService`: `ContactTypeService`.

Things the environment supplies are parameters:
- the fresh tsids, the verification UUID and the SMS code;
- the clock, in nanoseconds;
- the password encoder, as `hash: string -> string`;
- Hibernate's `@Email` check, as `isEmail`;
- what the mail transport did, as `mail`: sent, a `MessagingException` while composing, or a `MailException` from `send`;
- whether the SMS gateway call succeeded, as `smsOk`.

A table is enumerated in ascending tsid order. TSIDs are time-ordered, so that is creation order.

Each call is modelled statement by statement. When an exception is thrown, the writes made before it stay in place.

Two behaviours of the code are easy to misread:
- In a search, a negative product `size * page` (the `skip` count) or a negative `size` (the `limit`) is an `IllegalArgumentException` from `Stream.skip`/`Stream.limit`, not an empty page. A negative `page` with `size` 0 gives `skip(0).limit(0)`, an empty page. See `Search.SearchPage`.
- A mail failure in `generateNewVerificationEmail` fails the request, as it does in account creation. A `MessagingException` from composing the mail is rethrown as a bare `RuntimeException`. A `MailException` from `JavaMailSender.send` propagates as itself. In both cases the new token was already stored.

## Model

| member | source | states |
|---|---|---|
| JavaText.LastIndexOf | src/main/java/com/andrijatomic/contactmanager/services/ContactService.java:210-212 | the index found holds the character and no later index does; `None` exactly when the character is absent |
| JavaText.LastIndexOfAt | src/main/java/com/andrijatomic/contactmanager/services/ContactService.java:210-212 | an occurrence with none after it is what `lastIndexOf` returns |
| JavaText.NatToString | src/main/java/com/andrijatomic/contactmanager/utils/ContactResponseDTOMapper.java:14 | decimal rendering is non-empty, all digits, with no leading zero |
| JavaText.ParseLong | src/main/java/com/andrijatomic/contactmanager/utils/RoleTsidToRoleConverterUtil.java:16-21 | an accepted string is non-empty, an optional sign and then digits of any script (`Character.digit`), and its value lies in the 64-bit range |
| JavaText.ParseLongIff | src/main/java/com/andrijatomic/contactmanager/utils/RoleTsidToRoleConverterUtil.java:16-21 | for every string: "", "+", "-" and any string with a non-digit other than one leading sign are rejected; otherwise accepted iff the digits' value, negated for '-', fits in a long, and that is the result |
| JavaText.JavaDigit | src/main/java/com/andrijatomic/contactmanager/utils/RoleTsidToRoleConverterUtil.java:16-21 | `Character.digit(c, 10)`: the ASCII digits have their value, other ASCII characters are not digits |
| JavaText.JavaDigitIsDecimal | src/main/java/com/andrijatomic/contactmanager/utils/RoleTsidToRoleConverterUtil.java:16-21 | beyond ASCII a character is a digit iff it lies in one of the runs of ten decimal digits, and its value is its offset in the run |
| JavaText.ParseLongArabicIndic | src/main/java/com/andrijatomic/contactmanager/utils/RoleTsidToRoleConverterUtil.java:16-21 | Arabic-Indic U+0661 U+0662 parses as 12, as `Long.parseLong` does |
| JavaText.ParseLongOfIntToString | src/main/java/com/andrijatomic/contactmanager/utils/ContactResponseDTOMapper.java:14-20 | parsing the decimal text of any long gives that long back |
| JavaText.ParseLongOfDigits | src/main/java/com/andrijatomic/contactmanager/services/ContactService.java:144-147 | a digit string parses to its value exactly when the value fits in a long |
| JavaText.ParseLongPlusSign | src/main/java/com/andrijatomic/contactmanager/utils/RoleTsidToRoleConverterUtil.java:16-21 | a leading '+' is accepted and does not change the value |
| JavaText.Utf16 | src/main/java/com/andrijatomic/contactmanager/dtos/AddContactRequestDTO.java:9 | a string has at least as many UTF-16 units as characters |
| JavaText.Utf16OfBmp | src/main/java/com/andrijatomic/contactmanager/dtos/AddContactRequestDTO.java:9 | below U+10000 each character is one unit, equal to its code point |
| JavaText.UnitsLeqReflexive | src/main/java/com/andrijatomic/contactmanager/services/ContactService.java:120-122 | `compareTo <= 0` holds of every string with itself |
| JavaText.UnitsLeqTotal | src/main/java/com/andrijatomic/contactmanager/services/ContactService.java:120-122 | any two keys compare one way or the other |
| JavaText.UnitsLeqTransitive | src/main/java/com/andrijatomic/contactmanager/services/ContactService.java:120-122 | the key order is transitive |
| Patterns.SingleTermMatches | src/main/java/com/andrijatomic/contactmanager/dtos/AddContactRequestDTO.java:10-29 | a one-term pattern matches exactly the strings of an allowed length drawn from its character class |
| Patterns.NameMatches | src/main/java/com/andrijatomic/contactmanager/dtos/AddContactRequestDTO.java:10-11 | `^[a-zA-Z]+$` matches exactly the non-empty strings of ASCII letters |
| Patterns.AddressMatches | src/main/java/com/andrijatomic/contactmanager/dtos/AddContactRequestDTO.java:20-21 | `^[a-zA-Z0-9 ]+$` matches exactly the non-empty strings of letters, digits and spaces |
| Patterns.DigitsMatches | src/main/java/com/andrijatomic/contactmanager/dtos/AddContactRequestDTO.java:27 | `^[0-9]+$` matches exactly the non-empty digit strings |
| Patterns.PhoneMatches | src/main/java/com/andrijatomic/contactmanager/dtos/AddContactRequestDTO.java:24-25 | `^\+[0-9]{9,14}$` matches exactly '+' followed by 9 to 14 digits (10 to 15 characters) |
| Entities.Authorities | src/main/java/com/andrijatomic/contactmanager/models/AppUser.java:72-77 | one authority per role, its role name, in role order |
| Entities.Username | src/main/java/com/andrijatomic/contactmanager/models/AppUser.java:79-82 | the login name is the email |
| Entities.IsEnabled | src/main/java/com/andrijatomic/contactmanager/models/AppUser.java:99-102 | enabled exactly when the stored flag is set |
| Entities.IsAccountNonExpired | src/main/java/com/andrijatomic/contactmanager/models/AppUser.java:84-87 | always true |
| Entities.IsAccountNonLocked | src/main/java/com/andrijatomic/contactmanager/models/AppUser.java:89-92 | always true |
| Entities.IsCredentialsNonExpired | src/main/java/com/andrijatomic/contactmanager/models/AppUser.java:94-97 | always true |
| Entities.ContactNotFoundText | src/test/java/com/andrijatomic/contactmanager/services/ContactServiceTest.java:120-124 | the missing-contact message for tsid 1 is "Contact with TSID 1 not found." |
| Credentials.OwnsContact | src/main/java/com/andrijatomic/contactmanager/utils/CheckCredentials.java:8-10 | the caller owns the contact iff the contact's owner tsid is the caller's tsid |
| Credentials.IsAdmin | src/main/java/com/andrijatomic/contactmanager/utils/CheckCredentials.java:12-17 | administrator iff the caller has a role named exactly "ROLE_ADMIN" |
| Credentials.OwnershipIgnoresRoles | src/main/java/com/andrijatomic/contactmanager/utils/CheckCredentials.java:8-10 | ownership depends only on tsids; changing the caller's roles changes nothing |
| Credentials.AdminDoesNotOwnOthersContacts | src/main/java/com/andrijatomic/contactmanager/utils/CheckCredentials.java:8-17 | an administrator does not own a contact with another owner |
| Requests.Utf16LengthOfBmp | src/main/java/com/andrijatomic/contactmanager/dtos/AddContactRequestDTO.java:9 | below U+10000 the `@Size` length is the character count |
| Requests.NameFieldIff | src/main/java/com/andrijatomic/contactmanager/dtos/AddContactRequestDTO.java:8-17 | `@NotBlank @Size(max) @Pattern(letters)` holds iff the value is present and is 1 to max letters |
| Requests.UncappedNameFieldIff | src/main/java/com/andrijatomic/contactmanager/dtos/UpdateContactRequestDTO.java:11-18 | without `@Size` a name is any non-empty letter string |
| Requests.AddressFieldIff | src/main/java/com/andrijatomic/contactmanager/dtos/AddContactRequestDTO.java:18-22 | the address rule holds iff present, of [a-zA-Z0-9 ], within the cap, and not spaces only |
| Requests.PhoneFieldIff | src/main/java/com/andrijatomic/contactmanager/dtos/AddContactRequestDTO.java:23-26 | the phone rule holds iff present and '+' then 9 to 14 digits |
| Requests.OptionalPhoneFieldIff | src/main/java/com/andrijatomic/contactmanager/dtos/UpdateAppUserRequestDTO.java:22-24 | `@Pattern` alone lets null through |
| Requests.TsidFieldIff | src/main/java/com/andrijatomic/contactmanager/dtos/AddContactRequestDTO.java:27-29 | a tsid field holds iff present and all digits |
| Requests.AddContactRequestValidIff | src/main/java/com/andrijatomic/contactmanager/dtos/AddContactRequestDTO.java:7-30 | the add-contact request is valid iff each of its five field rules holds |
| Requests.UpdateContactRequestValidIff | src/main/java/com/andrijatomic/contactmanager/dtos/UpdateContactRequestDTO.java:6-30 | the update-contact request is valid iff its six field rules hold; names and address are uncapped |
| Requests.UpdateAllowsLongerNames | src/main/java/com/andrijatomic/contactmanager/dtos/UpdateContactRequestDTO.java:11-18 | a 21-letter name is refused by add and accepted by update |
| Requests.AddAppUserRequestValidIff | src/main/java/com/andrijatomic/contactmanager/dtos/AddAppUserRequestDTO.java:9-34 | names 1–20 letters, password non-blank of 10–20 units, email null or of email form within 30, phone rule, at least one role entry |
| Requests.UpdateAppUserRequestValidIff | src/main/java/com/andrijatomic/contactmanager/dtos/UpdateAppUserRequestDTO.java:7-26 | each present field obeys its rule; null passes everywhere and the role array is unconstrained |
| Requests.EmptyUpdateAppUserRequestValid | src/main/java/com/andrijatomic/contactmanager/dtos/UpdateAppUserRequestDTO.java:7-26 | the all-null update request is valid |
| Requests.SearchRequestValidIgnoresPaging | src/main/java/com/andrijatomic/contactmanager/dtos/SearchRequestDTO.java:13-16 | validity does not depend on `page` or `size`, negative values included |
| Requests.ShortKeywordRefused | src/main/java/com/andrijatomic/contactmanager/dtos/SearchRequestDTO.java:10-12 | a keyword of at most two ordinary characters is refused |
| Requests.Column | src/main/java/com/andrijatomic/contactmanager/dtos/AddContactCsvDTO.java:19-42 | a column is bound exactly when the line has it, and holds that cell |
| Requests.CsvRowValidIff | src/main/java/com/andrijatomic/contactmanager/dtos/AddContactCsvDTO.java:15-43 | a CSV row is valid iff names, phone and address obey their rules and the label is non-blank |
| Requests.ShortLineRefused | src/main/java/com/andrijatomic/contactmanager/dtos/AddContactCsvDTO.java:15-43 | a line with fewer than five columns is never valid |
| Store.OrderedValues | src/main/java/com/andrijatomic/contactmanager/services/ContactTypeService.java:35-36 | `findAll` lists every row of the table once, and nothing else |
| Store.FindTypeByName | src/main/java/com/andrijatomic/contactmanager/repos/ContactTypeRepo.java:9 | a found tsid is stored and has the label; none found iff no stored type has it |
| Store.FindEmailToken | src/main/java/com/andrijatomic/contactmanager/repos/AccountVerificationRepo.java:8 | a found token is stored with that value; none iff no row has it |
| Store.FindPhoneCode | src/main/java/com/andrijatomic/contactmanager/repos/PhoneVerificationRepo.java:10 | a found code row is stored with that code; none iff no row has it |
| Store.FindEmailTokenAppend | src/main/java/com/andrijatomic/contactmanager/services/AccountVerificationService.java:40-41 | storing another token never changes which token a value finds |
| Store.FindPhoneCodeAppend | src/main/java/com/andrijatomic/contactmanager/services/AccountVerificationService.java:67-68 | storing another code row never changes which row a code finds |
| Store.ContactsOf | src/main/java/com/andrijatomic/contactmanager/repos/ContactRepo.java:18 | exactly the stored contacts of that owner |
| Store.OwnedBy | src/main/java/com/andrijatomic/contactmanager/repos/ContactRepo.java:18 | the filter keeps exactly the elements of that owner |
| Store.Database.SaveUser | src/main/java/com/andrijatomic/contactmanager/services/AccountVerificationService.java:48 | the user table gains or overwrites that row; nothing else changes |
| Store.Database.DeleteUser | src/main/java/com/andrijatomic/contactmanager/repos/AppUserRepo.java:11 | exactly that user row is removed |
| Store.Database.SaveContact | src/main/java/com/andrijatomic/contactmanager/services/ContactService.java:149 | the contact table gains or overwrites that row; nothing else changes |
| Store.Database.DeleteContact | src/main/java/com/andrijatomic/contactmanager/repos/ContactRepo.java:23-25 | exactly that contact row is removed |
| Store.Database.SaveContactType | src/main/java/com/andrijatomic/contactmanager/services/ContactTypeService.java:49 | the type table gains or overwrites that row; nothing else changes |
| Store.Database.SaveEmailToken | src/main/java/com/andrijatomic/contactmanager/services/AccountVerificationService.java:35-36 | one token row is appended; nothing else changes |
| Store.Database.SavePhoneCode | src/main/java/com/andrijatomic/contactmanager/services/AccountVerificationService.java:59 | one code row is appended; nothing else changes |
| Mappers.ContactResponseOf | src/main/java/com/andrijatomic/contactmanager/utils/ContactResponseDTOMapper.java:12-22 | the response carries the contact's four text fields and its type's label |
| Mappers.ContactResponseTsidsParse | src/main/java/com/andrijatomic/contactmanager/utils/ContactResponseDTOMapper.java:14-20 | both tsid strings parse back to the contact's and the type's tsid |
| Mappers.ResponseInStore | src/main/java/com/andrijatomic/contactmanager/utils/ContactResponseDTOMapper.java:14-20 | a stored contact's response holds its names, address and phone, and the label of the type it refers to in the store |
| Mappers.ResponseInStoreTsidsParse | src/main/java/com/andrijatomic/contactmanager/utils/ContactResponseDTOMapper.java:14-20 | in a consistent store the response's two tsid strings parse back to the contact's tsid and to its type reference |
| Mappers.CsvLine | src/main/java/com/andrijatomic/contactmanager/dtos/ContactResponseDTO.java:6-21 | the export line has five cells: first name, last name, phone, address, type label; tsids are not written |
| Mappers.CsvLineBindsBack | src/main/java/com/andrijatomic/contactmanager/dtos/AddContactCsvDTO.java:19-42 | binding an exported line gives every field back in the field of the same name |
| Mappers.ContactOfAddRequest | src/main/java/com/andrijatomic/contactmanager/utils/AddContactRequestDTOMapper.java:13-24 | the new contact has the request's fields and the fresh tsid, and neither owner nor type |
| Mappers.ContactOfCsvRow | src/main/java/com/andrijatomic/contactmanager/utils/AddContactCsvDTOMapper.java:23-35 | fails iff no stored type has the label, with ContactTypeNotFoundException(label); otherwise the row's fields, no owner, a stored type with that label |
| Mappers.AppUserResponseOf | src/main/java/com/andrijatomic/contactmanager/utils/AppUserResponseDTOMapper.java:14-30 | the projection keeps names, email, phone, phone flag and each role's name in order |
| Mappers.AppUserResponseTsidsParse | src/main/java/com/andrijatomic/contactmanager/utils/AppUserResponseDTOMapper.java:17-27 | the user's and every role's tsid string parse back |
| Mappers.AppUserOfAddRequest | src/main/java/com/andrijatomic/contactmanager/utils/AddAppUserRequestDTOMapper.java:14-28 | a new user is disabled, phone-unverified, has no roles, and holds the request's fields |
| RoleConverter.ParsedTsids | src/main/java/com/andrijatomic/contactmanager/utils/RoleTsidToRoleConverterUtil.java:13-23 | the entries that parse, as longs, never more than the input |
| RoleConverter.ParsedTsidsEmptyIff | src/main/java/com/andrijatomic/contactmanager/utils/RoleTsidToRoleConverterUtil.java:14-23 | nothing is kept iff no entry parses |
| RoleConverter.ParsedTsidsAppend | src/main/java/com/andrijatomic/contactmanager/utils/RoleTsidToRoleConverterUtil.java:13-23 | entries are kept in input order, one parse per accepted entry |
| RoleConverter.RolesOf | src/main/java/com/andrijatomic/contactmanager/utils/RoleTsidToRoleConverterUtil.java:24-28 | succeeds iff every tsid has a role (giving those roles in order); else RoleNotFoundException for the first missing one |
| RoleConverter.ConvertToRoles | src/main/java/com/andrijatomic/contactmanager/utils/RoleTsidToRoleConverterUtil.java:12-29 | a null array is a null dereference; otherwise the tsids `Long.parseLong` accepts (digits of any script) are looked up in input order |
| RoleConverter.ConvertToRolesEmptyIff | src/main/java/com/andrijatomic/contactmanager/utils/RoleTsidToRoleConverterUtil.java:12-29 | a successful conversion is empty iff no entry parses |
| RoleConverter.ConvertToRolesExample | src/main/java/com/andrijatomic/contactmanager/utils/RoleTsidToRoleConverterUtil.java:14-27 | non-longs and null are dropped, "+7" is accepted, repeats give the role twice |
| RoleConverter.ConvertToRolesOtherScript | src/main/java/com/andrijatomic/contactmanager/utils/RoleTsidToRoleConverterUtil.java:14-27 | an entry in Arabic-Indic digits is looked up like its ASCII spelling, and fails with RoleNotFound when no such role exists |
| RoleConverter.UnknownRoleAborts | src/main/java/com/andrijatomic/contactmanager/utils/RoleTsidToRoleConverterUtil.java:24-27 | one well-formed unknown tsid aborts the whole conversion |
| Search.FieldExtractor | src/main/java/com/andrijatomic/contactmanager/utils/FieldExtractor.java:7-14 | "lastName", "address", "phoneNumber" pick their field; every other name picks the first name |
| Search.FieldExtractorOfName | src/main/java/com/andrijatomic/contactmanager/utils/FieldExtractor.java:8-13 | each field's own name selects it |
| Search.FieldExtractorIsCaseSensitive | src/main/java/com/andrijatomic/contactmanager/utils/FieldExtractor.java:8-13 | "LastName" and "firstname" fall back to the first name |
| Search.SearchField | src/main/java/com/andrijatomic/contactmanager/services/ContactService.java:107-117 | the four exact names select a query; anything else selects none |
| Search.SearchFieldOfName | src/main/java/com/andrijatomic/contactmanager/services/ContactService.java:107-115 | each field's own name selects its query |
| Search.Select | src/main/java/com/andrijatomic/contactmanager/repos/ContactRepo.java:19-22 | keeps exactly the caller's contacts whose field contains the keyword ignoring case |
| Search.Query | src/main/java/com/andrijatomic/contactmanager/services/ContactService.java:107-117 | empty for an unknown parameter; else exactly the stored contacts the repository query selects |
| Search.Insert | src/main/java/com/andrijatomic/contactmanager/services/ContactService.java:124-126 | insertion adds exactly one element |
| Search.SortBy | src/main/java/com/andrijatomic/contactmanager/services/ContactService.java:124-126 | the sort is a permutation of its input |
| Search.InsertSorted | src/main/java/com/andrijatomic/contactmanager/services/ContactService.java:124-126 | inserting into a sorted list keeps it sorted |
| Search.SortBySorted | src/main/java/com/andrijatomic/contactmanager/services/ContactService.java:120-126 | the output is ascending by the `sortBy` key |
| Search.InsertStable | src/main/java/com/andrijatomic/contactmanager/services/ContactService.java:124-126 | an inserted element goes after every element with an equal key |
| Search.SortByStable | src/main/java/com/andrijatomic/contactmanager/services/ContactService.java:124-126 | the sort is stable: equal keys keep their input order |
| Search.Page | src/main/java/com/andrijatomic/contactmanager/services/ContactService.java:127-128 | `skip(n).limit(m)` holds at most m elements, min(m, len − min(n, len)) of them, element i being input element n + i |
| Search.PageHoldsIndex | src/main/java/com/andrijatomic/contactmanager/services/ContactService.java:127-128 | with a positive page size, element i is on page i / size at i % size |
| Search.SearchPage | src/main/java/com/andrijatomic/contactmanager/services/ContactService.java:124-128 | a negative skip or size is IllegalArgumentException; otherwise the page of the stably sorted query result |
| Search.SkipCount | src/main/java/com/andrijatomic/contactmanager/services/ContactService.java:127 | the `long` product of the two `int`s never overflows, and is negative iff exactly one factor is negative and the other non-zero |
| Search.SortedQuery | src/main/java/com/andrijatomic/contactmanager/services/ContactService.java:120-126 | a permutation of the query result, ordered by the `sortBy` field, with equal keys in query order |
| Search.SearchContacts | src/main/java/com/andrijatomic/contactmanager/services/ContactService.java:104-131 | the page mapped element by element to stored-contact responses; errors pass through |
| Search.SortByMembers | src/main/java/com/andrijatomic/contactmanager/services/ContactService.java:126 | the sort invents nothing |
| Search.SortedPageMembers | src/main/java/com/andrijatomic/contactmanager/services/ContactService.java:126-128 | every page element comes from the unsorted input |
| Search.QueryFromStore | src/main/java/com/andrijatomic/contactmanager/services/ContactService.java:107-117 | every query result is a stored contact |
| Search.QueryPageFromStore | src/main/java/com/andrijatomic/contactmanager/services/ContactService.java:107-130 | every page element is stored and selected; an unknown parameter gives an empty page |
| Search.PageFromStore | src/main/java/com/andrijatomic/contactmanager/services/ContactService.java:107-130 | every contact of a search page is a stored contact the query selected; an unknown parameter gives an empty page |
| Search.UnknownParameterGivesEmptyPage | src/main/java/com/andrijatomic/contactmanager/services/ContactService.java:116 | an unknown `searchParameter` with non-negative paging gives an empty list, not an error |
| Search.ZeroSizeGivesEmptyPage | src/main/java/com/andrijatomic/contactmanager/services/ContactService.java:127-128 | size 0 gives an empty page for every page number, negative ones included |
| Search.SearchPageBounded | src/main/java/com/andrijatomic/contactmanager/services/ContactService.java:128 | a page holds at most `size` contacts |
| Search.PageSorted | src/main/java/com/andrijatomic/contactmanager/services/ContactService.java:126-128 | a page of a sorted list is sorted |
| Search.SearchPageSorted | src/main/java/com/andrijatomic/contactmanager/services/ContactService.java:120-128 | the search page is ordered by the `sortBy` field |
| Search.FirstPageComplete | src/test/java/com/andrijatomic/contactmanager/services/ContactServiceTest.java:141-169 | page 0 of a size at least the table holds every matching contact of the caller (two matches, size 10: both are returned) |
| Search.WholePage | src/main/java/com/andrijatomic/contactmanager/services/ContactService.java:127-128 | a first page at least as long as the list is the whole list |
| Search.SortByKeeps | src/main/java/com/andrijatomic/contactmanager/services/ContactService.java:126 | the sort drops nothing |
| Search.SelectShorter | src/main/java/com/andrijatomic/contactmanager/repos/ContactRepo.java:19-22 | the filter never grows a list |
| Search.QueryShorterThanTable | src/main/java/com/andrijatomic/contactmanager/services/ContactService.java:107-117 | a query returns at most one contact per stored row |
| ContactService.GetContact | src/main/java/com/andrijatomic/contactmanager/services/ContactService.java:82-91 | unknown tsid ⇔ ContactNotFoundException; the owner gets the stored response; anyone else gets NOT_FOUND "Contact not found" |
| ContactService.GetContactShowsOnlyOwn | src/main/java/com/andrijatomic/contactmanager/services/ContactService.java:87-90 | a shown contact is the caller's own and carries its tsid |
| ContactService.AddContactSpec | src/main/java/com/andrijatomic/contactmanager/services/ContactService.java:133-152 | missing user, unparsable or missing type are errors that save nothing; on success exactly one contact, owned by the caller and typed by the tsid, is stored and echoed |
| ContactService.AddContactAddsOne | src/main/java/com/andrijatomic/contactmanager/services/ContactService.java:136-149 | with a fresh tsid a successful add grows the table by exactly that key |
| ContactService.AddContact | src/main/java/com/andrijatomic/contactmanager/services/ContactService.java:133-152 | the repository calls of `addContact` produce exactly `AddContactSpec`'s tables and result |
| ContactService.UpdatedContact | src/main/java/com/andrijatomic/contactmanager/utils/UpdateContactRequestDTOMapper.java:24-39 | contact looked up first, then type; each failure named; on success the four fields and the type are replaced, tsid and owner kept |
| ContactService.MapUpdateRequest | src/main/java/com/andrijatomic/contactmanager/utils/UpdateContactRequestDTOMapper.java:24-39 | the setter sequence yields exactly `UpdatedContact` and writes nothing |
| ContactService.UpdateContactSpec | src/main/java/com/andrijatomic/contactmanager/services/ContactService.java:154-165 | mapper errors pass through unchanged; a non-owner gets NOT_FOUND and nothing is saved; the owner's contact is saved and echoed |
| ContactService.UpdateKeepsKeysAndOwners | src/main/java/com/andrijatomic/contactmanager/services/ContactService.java:156-164 | an update adds no row and moves no contact to another owner |
| ContactService.UpdateContact | src/main/java/com/andrijatomic/contactmanager/services/ContactService.java:154-165 | the method's effect is exactly `UpdateContactSpec` |
| ContactService.DeleteContactSpec | src/main/java/com/andrijatomic/contactmanager/services/ContactService.java:167-179 | unknown tsid ⇔ ContactNotFoundException; the owner's contact is removed (OK); another's is kept (NOT_FOUND, no body) |
| ContactService.DeleteContact | src/main/java/com/andrijatomic/contactmanager/services/ContactService.java:167-179 | the method's effect is exactly `DeleteContactSpec` |
| ContactService.NonOwnerChangesNothing | src/main/java/com/andrijatomic/contactmanager/services/ContactService.java:82-179 | for a non-owner, get, update and delete answer NOT_FOUND and leave the store unchanged |
| ContactService.WrongExtensionExamples | src/main/java/com/andrijatomic/contactmanager/services/ContactService.java:208-215 | the extension after the last dot must be exactly "csv"; no name or no dot passes |
| ContactService.WrongExtensionIff | src/main/java/com/andrijatomic/contactmanager/services/ContactService.java:208-215 | a name is refused iff it has a last '.' and the text after it is not exactly "csv" |
| ContactService.SaveKeepsValid | src/main/java/com/andrijatomic/contactmanager/services/ContactService.java:240-241 | saving an owned, typed contact keeps the store consistent |
| ContactService.ImportStep | src/main/java/com/andrijatomic/contactmanager/services/ContactService.java:236-242 | after a stop nothing happens; an invalid row is skipped; a valid row stops the import iff its label is unknown, else it is counted |
| ContactService.ImportRows | src/main/java/com/andrijatomic/contactmanager/services/ContactService.java:235-242 | only the contact table changes, consistency is kept, and at most one contact is counted per line |
| ContactService.ImportStepFails | src/main/java/com/andrijatomic/contactmanager/services/ContactService.java:236-238 | one more line stops the import iff it is valid with an unknown label |
| ContactService.ImportFailsIff | src/main/java/com/andrijatomic/contactmanager/services/ContactService.java:235-242 | the import stops iff some valid line has an unknown label |
| ContactService.ImportCountsValid | src/main/java/com/andrijatomic/contactmanager/services/ContactService.java:233-244 | a completed import counts exactly the valid lines |
| ContactService.ImportFailsAtFirst | src/main/java/com/andrijatomic/contactmanager/services/ContactService.java:235-242 | a stopped import reports the label of the first valid line with an unknown label |
| ContactService.ImportOutcome | src/main/java/com/andrijatomic/contactmanager/services/ContactService.java:233-247 | completion iff no unknown label; then the count is the valid lines; else the first unknown label is reported |
| ContactService.ImportStepSaves | src/main/java/com/andrijatomic/contactmanager/services/ContactService.java:238-242 | a valid known line stores its mapped contact, owned by the caller; an invalid one stores nothing |
| ContactService.MappedRows | src/main/java/com/andrijatomic/contactmanager/services/ContactService.java:236-237 | one mapped entry per line |
| ContactService.SavedRowsAt | src/main/java/com/andrijatomic/contactmanager/services/ContactService.java:238-242 | with distinct tsids, tsid i is saved iff row i mapped, holding that contact, and no other key is saved |
| ContactService.ImportRowsAdds | src/main/java/com/andrijatomic/contactmanager/services/ContactService.java:235-242 | without an unknown label the import completes and adds exactly the saved rows |
| ContactService.ImportSaves | src/main/java/com/andrijatomic/contactmanager/services/ContactService.java:235-242 | old contacts stay; line i is stored under tsid i iff valid, as its mapped contact owned by the caller; nothing else is added |
| ContactService.ImportSpec | src/main/java/com/andrijatomic/contactmanager/services/ContactService.java:205-252 | the extension is checked first, then emptiness, then the lines; a completed import reports "N contact(s) added. M errored." |
| ContactService.ImportReportsCounts | src/main/java/com/andrijatomic/contactmanager/services/ContactService.java:244-247 | a completed import reports the valid lines as added and the rest as errored |
| ContactService.ImportMessageInjective | src/main/java/com/andrijatomic/contactmanager/services/ContactService.java:244-247 | the reply text determines the added and errored counts: two replies are equal iff the counts are |
| ContactService.ImportAfterFailure | src/main/java/com/andrijatomic/contactmanager/services/ContactService.java:235-242 | once stopped, later lines change nothing |
| ContactService.ImportContactsFromCsv | src/main/java/com/andrijatomic/contactmanager/services/ContactService.java:205-252 | the row-by-row method produces exactly `ImportSpec` |
| ContactService.ImportLine | src/main/java/com/andrijatomic/contactmanager/services/ContactService.java:236-242 | one line's repository calls leave exactly the state and count `ImportStep` gives for that line |
| ContactService.ImportValidRow | src/main/java/com/andrijatomic/contactmanager/services/ContactService.java:237-242 | a line that passed validation either stops the import with the unknown-label error and leaves the store as it was, or is stored under its tsid, owned by the caller, and counted |
| ContactService.ExportLines | src/main/java/com/andrijatomic/contactmanager/services/ContactService.java:185-202 | one line per contact of the caller |
| ContactService.ExportedContacts | src/main/java/com/andrijatomic/contactmanager/services/ContactService.java:185-202 | a permutation of the caller's contacts, ordered by first name, contacts with equal first names kept in table order |
| ContactService.ExportedMembers | src/main/java/com/andrijatomic/contactmanager/services/ContactService.java:185-186 | every exported contact is a stored contact of the caller |
| ContactService.ExportLineAt | src/main/java/com/andrijatomic/contactmanager/services/ContactService.java:188-189 | line i is the CSV layout of the i-th exported contact's response |
| ContactService.ExportIsCallersContacts | src/main/java/com/andrijatomic/contactmanager/services/ContactService.java:185-189 | every contact of the caller is exported |
| ContactService.ExportBindsBack | src/main/java/com/andrijatomic/contactmanager/dtos/ContactResponseDTO.java:9-18 | each exported line binds back to its contact's fields and type label |
| ContactService.ExportReimports | src/main/java/com/andrijatomic/contactmanager/services/ContactService.java:185-241 | a valid exported line re-imports as a contact with the same fields and a type of the same label |
| ContactService.ExportSortedByFirstName | src/main/java/com/andrijatomic/contactmanager/services/ContactService.java:185-186 | the export is ordered by first name |
| ContactService.CountAllContacts | src/main/java/com/andrijatomic/contactmanager/services/ContactService.java:254-256 | NOT_FOUND iff there are no contacts; else "count" is the table size |
| Verification.JavaDiv | src/main/java/com/andrijatomic/contactmanager/services/AccountVerificationService.java:83-84 | Java `/`: the remainder has the dividend's sign and is below the divisor |
| Verification.DurationHours | src/main/java/com/andrijatomic/contactmanager/services/AccountVerificationService.java:83-84 | `Duration.toHours` of a non-negative span is the number of whole hours in it; of a negative span it is at most 0 |
| Verification.CheckIfNotExpired | src/main/java/com/andrijatomic/contactmanager/services/AccountVerificationService.java:82-85 | for a past creation time, live iff less than `validFor` hours have elapsed; a future creation time is live |
| Verification.BelowWholeHours | src/main/java/com/andrijatomic/contactmanager/services/AccountVerificationService.java:82-85 | an age between h and h+1 whole hours is under v hours iff h < v, so comparing `toHours()` with the window is comparing the age with v hours |
| Verification.Windows | src/main/java/com/andrijatomic/contactmanager/services/AccountVerificationService.java:43-70 | an email token dies at exactly 24 h, an SMS code at exactly 1 h |
| Verification.CreateVerifyLink | src/main/java/com/andrijatomic/contactmanager/services/AccountVerificationService.java:34-37 | appends one token (user, uuid, now) and returns it; nothing else changes |
| Verification.VerifyLink | src/main/java/com/andrijatomic/contactmanager/services/EmailService.java:40-41 | the link is the fixed verify URL followed by the token |
| Verification.VerifyLinkInjective | src/main/java/com/andrijatomic/contactmanager/services/EmailService.java:40-41 | two links are equal iff their tokens are |
| Verification.VerifyAccountSpec | src/main/java/com/andrijatomic/contactmanager/services/AccountVerificationService.java:39-53 | true iff the first token with the value is live and its user exists; then only that user becomes enabled; false changes nothing |
| Verification.VerifyAccount | src/main/java/com/andrijatomic/contactmanager/services/AccountVerificationService.java:39-53 | the method's effect is exactly `VerifyAccountSpec` |
| Verification.VerifyAccountRepeats | src/main/java/com/andrijatomic/contactmanager/services/AccountVerificationService.java:39-53 | tokens are not consumed: success repeats while live and changes nothing more |
| Verification.VerifyAccountTouchesOneUser | src/main/java/com/andrijatomic/contactmanager/services/AccountVerificationService.java:45-48 | only the token's user's `isEnabled` can change |
| Verification.CreatePhoneCodeSpec | src/main/java/com/andrijatomic/contactmanager/services/AccountVerificationService.java:55-64 | a verified phone is BAD_REQUEST with nothing stored; else one code row (caller, code, now) and OK; a failed SMS stores nothing |
| Verification.CreatePhoneVerificationCode | src/main/java/com/andrijatomic/contactmanager/services/AccountVerificationService.java:55-64 | the method's effect is exactly `CreatePhoneCodeSpec` |
| Verification.VerifyPhoneSpec | src/main/java/com/andrijatomic/contactmanager/services/AccountVerificationService.java:66-78 | true iff the first row with the code is under an hour old and its user exists; then only `isPhoneVerified` is set |
| Verification.VerifyPhoneNumber | src/main/java/com/andrijatomic/contactmanager/services/AccountVerificationService.java:66-78 | the method's effect is exactly `VerifyPhoneSpec` |
| Verification.SentCodeVerifies | src/main/java/com/andrijatomic/contactmanager/services/AccountVerificationService.java:55-78 | a code sent now verifies within the hour, whatever `isEnabled` is |
| Verification.NewVerificationEmailSpec | src/main/java/com/andrijatomic/contactmanager/services/EmailService.java:53-71 | unknown user: AppUserNotFoundException; enabled: BAD_REQUEST "User is already verified" with no token; else one token stored, then OK, a bare RuntimeException for a MessagingException, or the MailException itself |
| Verification.GenerateNewVerificationEmail | src/main/java/com/andrijatomic/contactmanager/services/EmailService.java:53-71 | the method's effect is exactly `NewVerificationEmailSpec` |
| Verification.MailedTokenEnables | src/main/java/com/andrijatomic/contactmanager/services/EmailService.java:59-66 | the new token enables the account within 24 h even when the mail failed, changing nothing else of the user |
| Verification.EnabledGetsNoToken | src/main/java/com/andrijatomic/contactmanager/services/EmailService.java:59-69 | an enabled account gets no token and no error |
| CountUtil.Count | src/main/java/com/andrijatomic/contactmanager/utils/CountUtil.java:9-17 | 0 is NOT_FOUND with no body; otherwise OK with the single key "count" bound to the size; never BAD_REQUEST |
| CountUtil.CountInjective | src/main/java/com/andrijatomic/contactmanager/utils/CountUtil.java:10-16 | distinct sizes give distinct replies |
| AppUserService.SetInitialValues | src/main/java/com/andrijatomic/contactmanager/utils/UpdateAppUserRequestDTOMapper.java:51-85 | each non-blank name, phone or password replaces the old one; a new phone clears verification; the password is hashed; blank or null leaves the value |
| AppUserService.SetInitialValuesSteps | src/main/java/com/andrijatomic/contactmanager/utils/UpdateAppUserRequestDTOMapper.java:51-85 | the sequence of guarded setters yields exactly `SetInitialValues` |
| AppUserService.MappedUser | src/main/java/com/andrijatomic/contactmanager/utils/UpdateAppUserRequestDTOMapper.java:25-49 | an admin naming a tsid edits that user (failures named, roles replaced, a non-blank email replaces it and disables); anyone else edits themselves |
| AppUserService.MapUpdateAppUserRequest | src/main/java/com/andrijatomic/contactmanager/utils/UpdateAppUserRequestDTOMapper.java:25-49 | the mapper's setter sequence yields exactly `MappedUser` |
| AppUserService.SelfEditKeepsIdentity | src/main/java/com/andrijatomic/contactmanager/utils/UpdateAppUserRequestDTOMapper.java:29-48 | a self edit keeps tsid, email, enabled flag and roles |
| AppUserService.NothingGivenKeepsUser | src/main/java/com/andrijatomic/contactmanager/utils/UpdateAppUserRequestDTOMapper.java:58-83 | with every field null or blank the user is unchanged |
| AppUserService.SetInitialValuesIdempotent | src/main/java/com/andrijatomic/contactmanager/utils/UpdateAppUserRequestDTOMapper.java:51-85 | applying the same partial update twice equals applying it once |
| AppUserService.GetAppUser | src/main/java/com/andrijatomic/contactmanager/services/AppUserService.java:57-61 | unknown tsid ⇔ AppUserNotFoundException("TSID", tsid); else the user's projection |
| AppUserService.AddAppUserSpec | src/main/java/com/andrijatomic/contactmanager/services/AppUserService.java:70-92 | a role failure saves nothing; a null email is refused by the entity's `@NotNull` on save and nothing is stored; else one disabled, unverified user with hashed password and the converted roles, plus one token; then CREATED or the mail exception |
| AppUserService.AddAppUser | src/main/java/com/andrijatomic/contactmanager/services/AppUserService.java:70-92 | the method's effect is exactly `AddAppUserSpec` |
| AppUserService.NewAccountVerifiesByMail | src/main/java/com/andrijatomic/contactmanager/services/AppUserService.java:73-85 | a new account starts disabled and its token enables it within 24 h |
| AppUserService.UpdateAppUserSpec | src/main/java/com/andrijatomic/contactmanager/services/AppUserService.java:94-103 | mapper errors pass through unchanged; else the mapped user is saved and its projection returned |
| AppUserService.UpdateAppUser | src/main/java/com/andrijatomic/contactmanager/services/AppUserService.java:94-103 | the method's effect is exactly `UpdateAppUserSpec` |
| AppUserService.UpdateAppUserIdempotent | src/main/java/com/andrijatomic/contactmanager/services/AppUserService.java:94-103 | repeating a successful update changes nothing and answers the same |
| AppUserService.DeleteAppUserSpec | src/main/java/com/andrijatomic/contactmanager/services/AppUserService.java:105-113 | unknown tsid ⇔ AppUserNotFoundException; else exactly that user row is removed |
| AppUserService.DeleteAppUser | src/main/java/com/andrijatomic/contactmanager/services/AppUserService.java:105-113 | the method's effect is exactly `DeleteAppUserSpec` |
| AppUserService.DeletedUserIsGone | src/main/java/com/andrijatomic/contactmanager/services/AppUserService.java:105-113 | after the delete the user is not found and every other user reads as before |
| AppUserService.RoleResponses | src/main/java/com/andrijatomic/contactmanager/services/AppUserService.java:117-121 | one (tsid, name) record per role, in order |
| AppUserService.RolesListed | src/main/java/com/andrijatomic/contactmanager/services/AppUserService.java:115-128 | the listing is empty iff the table is, and holds every role and nothing else |
| AppUserService.GetAllRoles | src/main/java/com/andrijatomic/contactmanager/services/AppUserService.java:115-128 | NOT_FOUND "No roles found" iff no roles; else one record per role |
| AppUserService.GetAllRolesComplete | src/main/java/com/andrijatomic/contactmanager/services/AppUserService.java:117-127 | a successful listing holds every stored role and nothing else |
| AppUserService.CountAllAppUsers | src/main/java/com/andrijatomic/contactmanager/services/AppUserService.java:130-132 | NOT_FOUND iff there are no users; else "count" is the number of users |
| ContactTypeService.ContactTypeResponseOf | src/main/java/com/andrijatomic/contactmanager/services/ContactTypeService.java:38 | the response carries the type's label and a tsid string that parses back to the type's tsid |
| ContactTypeService.TypeResponses | src/main/java/com/andrijatomic/contactmanager/services/ContactTypeService.java:35-39 | one (tsid, label) record per type, in order |
| ContactTypeService.TypesListed | src/main/java/com/andrijatomic/contactmanager/services/ContactTypeService.java:29-40 | the listing is empty iff the table is, and holds every type and nothing else |
| ContactTypeService.GetAllContactTypes | src/main/java/com/andrijatomic/contactmanager/services/ContactTypeService.java:27-41 | NOT_FOUND "No contact types found" iff no types; else one record per type |
| ContactTypeService.GetAllContactTypesComplete | src/main/java/com/andrijatomic/contactmanager/services/ContactTypeService.java:35-40 | a successful listing holds every stored type and nothing else |
| ContactTypeService.AddContactTypeSpec | src/main/java/com/andrijatomic/contactmanager/services/ContactTypeService.java:43-54 | exactly one type (fresh tsid, requested label) is stored and echoed; other tables and types are unchanged |
| ContactTypeService.AddContactType | src/main/java/com/andrijatomic/contactmanager/services/ContactTypeService.java:43-54 | the method's effect is exactly `AddContactTypeSpec` |
| ContactTypeService.AddedTypeIsUsable | src/main/java/com/andrijatomic/contactmanager/services/ContactTypeService.java:45-53 | a new type is listed, found by its label, grows the table by one and changes no contact's response |
| ContactTypeService.UpdateContactTypeSpec | src/main/java/com/andrijatomic/contactmanager/services/ContactTypeService.java:56-69 | unknown tsid ⇔ ContactTypeNotFoundException(tsid) with nothing changed; else only that type's label changes, and it is echoed |
| ContactTypeService.UpdateContactType | src/main/java/com/andrijatomic/contactmanager/services/ContactTypeService.java:56-69 | the method's effect is exactly `UpdateContactTypeSpec` |
| ContactTypeService.UpdateRenamesOneType | src/main/java/com/andrijatomic/contactmanager/services/ContactTypeService.java:58-64 | keys and other types are unchanged, tsid is kept, and the new label is found |
| ContactTypeService.RenameReachesContacts | src/main/java/com/andrijatomic/contactmanager/services/ContactTypeService.java:62-64 | contacts of the renamed type show the new label and nothing else changes; others read as before |
| ContactTypeService.UpdateContactTypeIdempotent | src/main/java/com/andrijatomic/contactmanager/services/ContactTypeService.java:56-69 | repeating a rename changes nothing and answers the same |

## Left out

- `@Transactional` rollback. A call's writes before an exception stay in the model. Cases where the code would roll back on the unchecked exception: an import stopped by an unknown label keeps the rows saved before it; a failed mail in `generateNewVerificationEmail` keeps its token; a `MailException` in `addAppUser` keeps the user and its token. (A `MessagingException` in `addAppUser` is checked, so there the commit the model shows is what happens.)
- JPA dirty checking. Without it, a non-owner's `updateContact` edit of the loaded entity is not flushed.
- `deleteAppUser`: the cascade from a user to its contacts (`CascadeType.ALL`) is left out. The model removes only the user row. Token rows that point at the user are left alone.
- `Verification.VerifyAccountSpec`, `Verification.VerifyPhoneSpec`: the token row holds the user entity itself. In the model it holds a tsid, so a token whose user row is gone (deleted) answers false instead of re-saving the user.
- `getAllContacts` and `getAllAppUsers`: Spring Data `PageRequest`/`Sort.by` with an arbitrary property name is framework paging, not modelled.
- Database row order and collation: tables are enumerated in tsid order. The export's "order by first name" uses Java's `compareTo` on UTF-16 units, with ties in tsid order. The database's own collation is not modelled.
- OpenCSV: lexing, quoting, `withIgnoreLeadingWhiteSpace` trimming and the writer are not modelled. A parsed file is a sequence of already-split lines. Reading the multipart stream and its `IOException` branch are I/O.
- The CSV import reads the file's "is empty" flag as a boolean parameter.
- `SmsService` and `EmailService.sendMail`: the Twilio call, the random 6-digit code, Thymeleaf and JavaMail. These become the `code`, `smsOk` and `mail` parameters. Only the verify link string is modelled.
- TSID and UUID generation and `LocalDateTime.now()` are parameters. The model assumes their distinctness where a lemma needs it.
- The password encoder (BCrypt) is the parameter `hash`. Hibernate's `@Email` format check is the parameter `isEmail`.
- `EmailService.sendMail`: which address, template or transport error makes a mail fail is not modelled; the `mail` parameter says only how it failed.
- `addAppUser`: re-reading the saved user at `AppUserService.java:87-89` cannot fail in the model, so it is not a separate branch.
- Unique-constraint violations on email or phone, and the exception a repository throws when an `Optional` lookup meets duplicate labels or codes. The model takes the first match in tsid order (types) or storage order (tokens).
- Controllers, the security configuration, `ControllerAdvisor`, Springdoc and `PreloadData` are framework wiring.
