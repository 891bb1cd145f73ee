/**
 * `FieldExtractor` and the `searchContacts` pipeline: select by one field with a
 * case-insensitive substring query, sort stably by a field, skip and limit.
 */
module Search {
  import opened Base
  import opened JavaText
  import opened Entities
  import opened Requests
  import opened Store
  import opened Mappers

  datatype Field = FirstName | LastName | Address | PhoneNumber

  /** The Java property name of each field. */
  function FieldName(f: Field): string
  {
    match f
    case FirstName => "firstName"
    case LastName => "lastName"
    case Address => "address"
    case PhoneNumber => "phoneNumber"
  }

  function FieldValue(c: Contact, f: Field): string
  {
    match f
    case FirstName => c.firstName
    case LastName => c.lastName
    case Address => c.address
    case PhoneNumber => c.phoneNumber
  }

  /** `FieldExtractor.getFieldExtractor`: the three exact names select their field and
      every other string selects the first name; it never fails. */
  function FieldExtractor(name: string): (f: Field)
    ensures f == LastName <==> name == "lastName"
    ensures f == Address <==> name == "address"
    ensures f == PhoneNumber <==> name == "phoneNumber"
    ensures f == FirstName <==> name != "lastName" && name != "address" && name != "phoneNumber"
  {
    if name == "lastName" then LastName
    else if name == "address" then Address
    else if name == "phoneNumber" then PhoneNumber
    else FirstName
  }

  /** The extractor inverts `FieldName`. */
  lemma FieldExtractorOfName(f: Field)
    ensures FieldExtractor(FieldName(f)) == f
  {
  }

  /** Names are case-sensitive: "LastName" falls back to the first name. */
  lemma FieldExtractorIsCaseSensitive()
    ensures FieldExtractor("LastName") == FirstName && FieldExtractor("firstname") == FirstName
  {
    assert "LastName"[0] != "lastName"[0];
  }

  /** The `switch` of `searchContacts`: the four exact names pick a query, anything else
      picks none (the `default` branch yields an empty list). */
  function SearchField(param: string): (r: Option<Field>)
    ensures r.Some? ==> FieldName(r.value) == param
    ensures r.None? <==> param != "firstName" && param != "lastName" && param != "address" && param != "phoneNumber"
  {
    if param == "firstName" then Some(FirstName)
    else if param == "lastName" then Some(LastName)
    else if param == "address" then Some(Address)
    else if param == "phoneNumber" then Some(PhoneNumber)
    else None
  }

  lemma SearchFieldOfName(f: Field)
    ensures SearchField(FieldName(f)) == Some(f)
  {
  }

  // ---- the query -----------------------------------------------------------------

  /** The rows a `get...ByAppUserAnd<Field>ContainingIgnoreCase` query returns. */
  predicate Selected(c: Contact, caller: AppUser, f: Field, keyword: string)
  {
    c.owner == Some(caller.tsid) && ContainsIgnoreCase(FieldValue(c, f), keyword)
  }

  function Select(s: seq<Contact>, caller: AppUser, f: Field, keyword: string): (r: seq<Contact>)
    ensures forall i :: 0 <= i < |r| ==> r[i] in s && Selected(r[i], caller, f, keyword)
    ensures forall c :: c in s && Selected(c, caller, f, keyword) ==> c in r
  {
    if s == [] then []
    else (if Selected(s[0], caller, f, keyword) then [s[0]] else []) + Select(s[1..], caller, f, keyword)
  }

  /** The query result, in the store's row order. */
  function Query(t: Tables, caller: AppUser, param: string, keyword: string): (r: seq<Contact>)
    ensures SearchField(param).None? ==> r == []
    ensures SearchField(param).Some? ==>
      (forall i :: 0 <= i < |r| ==> r[i] in t.contacts.Values && Selected(r[i], caller, SearchField(param).value, keyword))
      && forall k :: k in t.contacts && Selected(t.contacts[k], caller, SearchField(param).value, keyword) ==> t.contacts[k] in r
  {
    match SearchField(param)
    case None => []
    case Some(f) => Select(OrderedValues(t.contacts), caller, f, keyword)
  }

  // ---- stable sort by a key ------------------------------------------------------

  /** The sort key of `Comparator.comparing(FieldExtractor.getFieldExtractor(sortBy))`:
      the field's UTF-16 code units, which `String.compareTo` compares. */
  function KeyOf(f: Field): Contact -> seq<int>
  {
    c => Utf16(FieldValue(c, f))
  }

  predicate SortedBy(s: seq<Contact>, key: Contact -> seq<int>)
  {
    forall i, j :: 0 <= i < j < |s| ==> UnitsLeq(key(s[i]), key(s[j]))
  }

  lemma SortedTail(s: seq<Contact>, key: Contact -> seq<int>)
    requires s != [] && SortedBy(s, key)
    ensures SortedBy(s[1..], key)
  {
    forall i, j | 0 <= i < j < |s[1..]| ensures UnitsLeq(key(s[1..][i]), key(s[1..][j])) {
      assert s[1..][i] == s[i + 1] && s[1..][j] == s[j + 1];
    }
  }

  /** Inserts `x` before the first element whose key is greater than its own, that is,
      after every element that compares equal. */
  function Insert(x: Contact, s: seq<Contact>, key: Contact -> seq<int>): (r: seq<Contact>)
    ensures multiset(r) == multiset(s) + multiset{x}
    ensures |r| == |s| + 1
  {
    if s == [] then [x]
    else if !UnitsLeq(key(s[0]), key(x)) then [x] + s
    else
      assert s == [s[0]] + s[1..];
      [s[0]] + Insert(x, s[1..], key)
  }

  /** `Stream.sorted(comparator)`: each element in turn is inserted into the sorted
      prefix, so equal keys keep their input order. */
  function SortBy(s: seq<Contact>, key: Contact -> seq<int>): (r: seq<Contact>)
    ensures multiset(r) == multiset(s)
    ensures |r| == |s|
  {
    if s == [] then []
    else
      assert s == s[..|s| - 1] + [s[|s| - 1]];
      Insert(s[|s| - 1], SortBy(s[..|s| - 1], key), key)
  }

  lemma {:induction false} InsertSorted(x: Contact, s: seq<Contact>, key: Contact -> seq<int>)
    requires SortedBy(s, key)
    ensures SortedBy(Insert(x, s, key), key)
    decreases |s|
  {
    if s == [] {
    } else if !UnitsLeq(key(s[0]), key(x)) {
      UnitsLeqTotal(key(s[0]), key(x));
      var r := [x] + s;
      forall i, j | 0 <= i < j < |r| ensures UnitsLeq(key(r[i]), key(r[j])) {
        if i == 0 && j > 1 {
          UnitsLeqTransitive(key(x), key(s[0]), key(s[j - 1]));
        }
      }
    } else {
      SortedTail(s, key);
      InsertSorted(x, s[1..], key);
      var rest := Insert(x, s[1..], key);
      InsertHeadBound(x, s, key);
      var r := [s[0]] + rest;
      forall i, j | 0 <= i < j < |r| ensures UnitsLeq(key(r[i]), key(r[j])) {
        assert r[j] == rest[j - 1];
        if i > 0 {
          assert r[i] == rest[i - 1];
        }
      }
    }
  }

  /** After inserting an element no smaller than the head into the tail, the head is
      still a lower bound. */
  lemma InsertHeadBound(x: Contact, s: seq<Contact>, key: Contact -> seq<int>)
    requires s != [] && SortedBy(s, key) && UnitsLeq(key(s[0]), key(x))
    ensures forall j :: 0 <= j < |Insert(x, s[1..], key)| ==> UnitsLeq(key(s[0]), key(Insert(x, s[1..], key)[j]))
  {
    var rest := Insert(x, s[1..], key);
    forall j | 0 <= j < |rest| ensures UnitsLeq(key(s[0]), key(rest[j])) {
      assert rest[j] in multiset(rest);
      if rest[j] != x {
        assert rest[j] in multiset(s[1..]);
        var k :| 0 <= k < |s[1..]| && s[1..][k] == rest[j];
        assert s[k + 1] == rest[j];
      }
    }
  }

  /** The sort orders ascending by key. */
  lemma {:induction false} SortBySorted(s: seq<Contact>, key: Contact -> seq<int>)
    ensures SortedBy(SortBy(s, key), key)
    decreases |s|
  {
    if s != [] {
      SortBySorted(s[..|s| - 1], key);
      InsertSorted(s[|s| - 1], SortBy(s[..|s| - 1], key), key);
    }
  }

  /** The elements whose key is exactly `k`, in order. */
  function WithKey(s: seq<Contact>, key: Contact -> seq<int>, k: seq<int>): seq<Contact>
  {
    if s == [] then []
    else (if key(s[0]) == k then [s[0]] else []) + WithKey(s[1..], key, k)
  }

  lemma {:induction false} WithKeyAppend(s: seq<Contact>, x: Contact, key: Contact -> seq<int>, k: seq<int>)
    ensures WithKey(s + [x], key, k) == WithKey(s, key, k) + (if key(x) == k then [x] else [])
    decreases |s|
  {
    if s == [] {
      assert [x][1..] == [];
    } else {
      assert (s + [x])[1..] == s[1..] + [x];
      assert (s + [x])[0] == s[0];
      WithKeyAppend(s[1..], x, key, k);
      ConcatAssoc(if key(s[0]) == k then [s[0]] else [], WithKey(s[1..], key, k), if key(x) == k then [x] else []);
    }
  }

  /** In a sorted list whose head has a key greater than `x`'s, no element has `x`'s key. */
  lemma {:induction false} NoEqualKeyAfterGreater(x: Contact, s: seq<Contact>, key: Contact -> seq<int>)
    requires s != [] && SortedBy(s, key) && !UnitsLeq(key(s[0]), key(x))
    ensures WithKey(s, key, key(x)) == []
    decreases |s|
  {
    if key(s[0]) == key(x) {
      UnitsLeqReflexive(key(x));
    }
    if |s| > 1 {
      if UnitsLeq(key(s[1]), key(x)) {
        UnitsLeqTransitive(key(s[0]), key(s[1]), key(x));
      }
      SortedTail(s, key);
      NoEqualKeyAfterGreater(x, s[1..], key);
    }
  }

  lemma WithKeyCons(y: Contact, s: seq<Contact>, key: Contact -> seq<int>, k: seq<int>)
    ensures WithKey([y] + s, key, k) == (if key(y) == k then [y] else []) + WithKey(s, key, k)
  {
    assert ([y] + s)[1..] == s;
  }

  /** Inserting in front of a greater head adds `x` last among its own key. */
  lemma InsertStableFront(x: Contact, s: seq<Contact>, key: Contact -> seq<int>, k: seq<int>)
    requires s != [] && SortedBy(s, key) && !UnitsLeq(key(s[0]), key(x))
    ensures WithKey([x] + s, key, k) == WithKey(s, key, k) + (if key(x) == k then [x] else [])
  {
    WithKeyCons(x, s, key, k);
    if key(x) == k {
      NoEqualKeyAfterGreater(x, s, key);
    }
  }

  lemma InsertPastHead(x: Contact, s: seq<Contact>, key: Contact -> seq<int>)
    requires s != [] && UnitsLeq(key(s[0]), key(x))
    ensures Insert(x, s, key) == [s[0]] + Insert(x, s[1..], key)
  {
  }

  /** The step of `InsertStable` past a head no greater than `x`. */
  lemma InsertStableStep(x: Contact, s: seq<Contact>, key: Contact -> seq<int>, k: seq<int>)
    requires s != [] && UnitsLeq(key(s[0]), key(x))
    requires WithKey(Insert(x, s[1..], key), key, k) == WithKey(s[1..], key, k) + (if key(x) == k then [x] else [])
    ensures WithKey(Insert(x, s, key), key, k) == WithKey(s, key, k) + (if key(x) == k then [x] else [])
  {
    var head := if key(s[0]) == k then [s[0]] else [];
    var last := if key(x) == k then [x] else [];
    var tail := Insert(x, s[1..], key);
    InsertPastHead(x, s, key);
    WithKeyCons(s[0], tail, key, k);
    assert [s[0]] + s[1..] == s;
    WithKeyCons(s[0], s[1..], key, k);
    ConcatAssoc(head, WithKey(s[1..], key, k), last);
  }


  lemma {:induction false} InsertStable(x: Contact, s: seq<Contact>, key: Contact -> seq<int>, k: seq<int>)
    requires SortedBy(s, key)
    ensures WithKey(Insert(x, s, key), key, k) == WithKey(s, key, k) + (if key(x) == k then [x] else [])
    decreases |s|
  {
    if s == [] {
      WithKeyCons(x, [], key, k);
    } else if !UnitsLeq(key(s[0]), key(x)) {
      InsertStableFront(x, s, key, k);
    } else {
      SortedTail(s, key);
      InsertStable(x, s[1..], key, k);
      InsertStableStep(x, s, key, k);
    }
  }

  /** The sort is stable: the elements with any one key come out in their input order. */
  lemma {:induction false} SortByStable(s: seq<Contact>, key: Contact -> seq<int>, k: seq<int>)
    ensures WithKey(SortBy(s, key), key, k) == WithKey(s, key, k)
    decreases |s|
  {
    if s != [] {
      SortByStable(s[..|s| - 1], key, k);
      SortByStableLast(s, key, k);
    }
  }

  /** The inductive step of `SortByStable`: inserting the last element keeps the order
      of the elements with key `k`. */
  lemma SortByStableLast(s: seq<Contact>, key: Contact -> seq<int>, k: seq<int>)
    requires s != []
    requires WithKey(SortBy(s[..|s| - 1], key), key, k) == WithKey(s[..|s| - 1], key, k)
    ensures WithKey(SortBy(s, key), key, k) == WithKey(s, key, k)
  {
    var init := s[..|s| - 1];
    var x := s[|s| - 1];
    SortByLastWithKey(s, key, k);
    WithKeyLast(s, key, k);
  }

  /** Sorting a non-empty sequence puts its last element among the sorted others; on the
      elements with key `k` that appends it when its key is `k`. */
  lemma SortByLastWithKey(s: seq<Contact>, key: Contact -> seq<int>, k: seq<int>)
    requires s != []
    ensures WithKey(SortBy(s, key), key, k)
      == WithKey(SortBy(s[..|s| - 1], key), key, k) + (if key(s[|s| - 1]) == k then [s[|s| - 1]] else [])
  {
    var init := s[..|s| - 1];
    assert SortBy(s, key) == Insert(s[|s| - 1], SortBy(init, key), key);
    SortBySorted(init, key);
    InsertStable(s[|s| - 1], SortBy(init, key), key, k);
  }

  /** `WithKey` of a non-empty sequence is `WithKey` of all but its last element, then
      the last element if its key is `k`. */
  lemma WithKeyLast(s: seq<Contact>, key: Contact -> seq<int>, k: seq<int>)
    requires s != []
    ensures WithKey(s, key, k)
      == WithKey(s[..|s| - 1], key, k) + (if key(s[|s| - 1]) == k then [s[|s| - 1]] else [])
  {
    WithKeyAppend(s[..|s| - 1], s[|s| - 1], key, k);
    assert s[..|s| - 1] + [s[|s| - 1]] == s;
  }

  // ---- skip and limit --------------------------------------------------------------

  /** `.skip(skip).limit(limit)` on a list. */
  function Page<T>(s: seq<T>, skip: nat, limit: nat): (r: seq<T>)
    ensures |r| <= limit
    ensures |r| == Min(limit, |s| - Min(skip, |s|))
    ensures forall i :: 0 <= i < |r| ==> r[i] == s[skip + i]
  {
    var lo := Min(skip, |s|);
    var hi := Min(skip + limit, |s|);
    s[lo..hi]
  }

  /** With a positive page size, element `i` of the list is element `i % size` of page `i / size`. */
  lemma PageHoldsIndex<T>(s: seq<T>, size: nat, i: nat)
    requires size > 0 && i < |s|
    ensures i % size < |Page(s, (i / size) * size, size)|
    ensures Page(s, (i / size) * size, size)[i % size] == s[i]
  {
    var skip := (i / size) * size;
    assert skip + i % size == i;
  }

  // ---- searchContacts ------------------------------------------------------------

  /** `Stream.skip(size * page)`: the number of results before the page, as a Java `long`
      product of two `int`s. It cannot overflow, and it is negative exactly when one
      factor is negative and the other positive. */
  function SkipCount(d: SearchRequest): (n: int)
    ensures MIN_LONG <= n <= MAX_LONG
    ensures n < 0 <==> (d.size < 0 && d.page > 0) || (d.size > 0 && d.page < 0)
  {
    ProductOfInts(d.size as int, d.page as int);
    d.size as int * d.page as int
  }

  /** The product of two 32-bit values fits in 64 bits and has the sign rule. */
  lemma ProductOfInts(a: int, b: int)
    requires -0x8000_0000 <= a <= 0x7FFF_FFFF && -0x8000_0000 <= b <= 0x7FFF_FFFF
    ensures MIN_LONG <= a * b <= MAX_LONG
    ensures a * b < 0 <==> (a < 0 && b > 0) || (a > 0 && b < 0)
  {
    var x, y := if a < 0 then -a else a, if b < 0 then -b else b;
    assert x * y == if (a < 0) == (b < 0) then a * b else -(a * b);
    assert x * y <= 0x8000_0000 * 0x8000_0000 by {
      MulLeq(x, 0x8000_0000, y, 0x8000_0000);
    }
    if a != 0 && b != 0 {
      MulLeq(1, x, 1, y);
    }
  }

  lemma MulLeq(x: int, x': int, y: int, y': int)
    requires 0 <= x <= x' && 0 <= y <= y'
    ensures x * y <= x' * y'
  {
    assert x * y <= x' * y;
    assert x' * y <= x' * y';
  }

  /** The query result in `searchContacts`' order: the query's contacts, sorted by the
      `sortBy` field, with contacts of equal key left in query order. */
  function SortedQuery(t: Tables, caller: AppUser, d: SearchRequest): (r: seq<Contact>)
    requires SearchRequestValid(d)
    ensures var q := Query(t, caller, d.searchParameter.value, d.searchKeyword.value);
      var key := KeyOf(FieldExtractor(d.sortBy.value));
      multiset(r) == multiset(q) && SortedBy(r, key)
      && forall k :: WithKey(r, key, k) == WithKey(q, key, k)
  {
    var q := Query(t, caller, d.searchParameter.value, d.searchKeyword.value);
    var key := KeyOf(FieldExtractor(d.sortBy.value));
    SortBySorted(q, key);
    SortByStableAll(q, key);
    SortBy(q, key)
  }

  /** `SortByStable` for every key at once. */
  lemma SortByStableAll(s: seq<Contact>, key: Contact -> seq<int>)
    ensures forall k :: WithKey(SortBy(s, key), key, k) == WithKey(s, key, k)
  {
    forall k ensures WithKey(SortBy(s, key), key, k) == WithKey(s, key, k) {
      SortByStable(s, key, k);
    }
  }

  /** The contacts `searchContacts` returns, before the response mapping. A negative skip
      count is checked first, then a negative limit: `Stream.skip` and `Stream.limit` throw
      `IllegalArgumentException`. */
  function SearchPage(t: Tables, d: SearchRequest, caller: AppUser): (r: Result<seq<Contact>>)
    requires SearchRequestValid(d)
    ensures SkipCount(d) < 0 ==> r == Failure(IllegalArgument(SkipCount(d)))
    ensures SkipCount(d) >= 0 && d.size < 0 ==> r == Failure(IllegalArgument(d.size as int))
    ensures SkipCount(d) >= 0 && d.size >= 0 ==> r == Success(Page(SortedQuery(t, caller, d), SkipCount(d), d.size as int))
  {
    if SkipCount(d) < 0 then Failure(IllegalArgument(SkipCount(d)))
    else if d.size < 0 then Failure(IllegalArgument(d.size as int))
    else Success(Page(SortedQuery(t, caller, d), SkipCount(d), d.size as int))
  }

  /** `searchContacts`: the page mapped through `ContactResponseDTOMapper`. */
  function SearchContacts(t: Tables, d: SearchRequest, caller: AppUser): (r: Result<seq<ContactResponse>>)
    requires TablesValid(t) && SearchRequestValid(d)
    ensures r.Failure? <==> SearchPage(t, d, caller).Failure?
    ensures r.Failure? ==> r.error == SearchPage(t, d, caller).error
    ensures r.Success? ==>
      |r.value| == |SearchPage(t, d, caller).value|
      && forall i :: 0 <= i < |r.value| ==>
           SearchPage(t, d, caller).value[i] in t.contacts.Values
           && StoredContact(t, SearchPage(t, d, caller).value[i])
           && r.value[i] == ResponseInStore(t, SearchPage(t, d, caller).value[i])
  {
    match SearchPage(t, d, caller)
    case Failure(e) => Failure(e)
    case Success(page) =>
      PageFromStore(t, d, caller);
      Success(StoredResponses(t, page))
  }

  /** The mapper applied to each contact of a page, in page order. */
  function StoredResponses(t: Tables, page: seq<Contact>): (out: seq<ContactResponse>)
    requires forall i :: 0 <= i < |page| ==> StoredContact(t, page[i])
    ensures |out| == |page|
    ensures forall i :: 0 <= i < |out| ==> out[i] == ResponseInStore(t, page[i])
  {
    seq(|page|, i requires 0 <= i < |page| => ResponseInStore(t, page[i]))
  }

  /** Every element of the sorted list comes from its input. */
  lemma SortByMembers(s: seq<Contact>, key: Contact -> seq<int>)
    ensures forall i :: 0 <= i < |SortBy(s, key)| ==> SortBy(s, key)[i] in s
  {
    var r := SortBy(s, key);
    forall i | 0 <= i < |r| ensures r[i] in s {
      assert r[i] in multiset(r);
    }
  }

  /** Every element of a sorted page comes from the unsorted input. */
  lemma SortedPageMembers(s: seq<Contact>, key: Contact -> seq<int>, skip: nat, limit: nat)
    ensures forall i :: 0 <= i < |Page(SortBy(s, key), skip, limit)| ==> Page(SortBy(s, key), skip, limit)[i] in s
  {
    var sorted := SortBy(s, key);
    SortByMembers(s, key);
    forall i | 0 <= i < |Page(sorted, skip, limit)|
      ensures Page(sorted, skip, limit)[i] in s
    {
      assert Page(sorted, skip, limit)[i] == sorted[skip + i];
    }
  }

  /** Every contact the query returns is a stored row. */
  lemma QueryFromStore(t: Tables, caller: AppUser, param: string, keyword: string)
    requires TablesValid(t)
    ensures forall c :: c in Query(t, caller, param, keyword) ==> c in t.contacts.Values && StoredContact(t, c)
  {
    var found := Query(t, caller, param, keyword);
    forall c | c in found
      ensures c in t.contacts.Values && StoredContact(t, c)
    {
      var j :| 0 <= j < |found| && found[j] == c;
      var k :| k in t.contacts && t.contacts[k] == c;
    }
  }

  /** Every contact on a sorted page of a query result is a stored row that the query selected. */
  lemma QueryPageFromStore(t: Tables, caller: AppUser, param: string, keyword: string,
                           key: Contact -> seq<int>, skip: nat, limit: nat)
    requires TablesValid(t)
    ensures var page := Page(SortBy(Query(t, caller, param, keyword), key), skip, limit);
      (forall i :: 0 <= i < |page| ==> page[i] in t.contacts.Values && StoredContact(t, page[i]))
      && (SearchField(param).None? ==> page == [])
      && (SearchField(param).Some? ==>
            forall i :: 0 <= i < |page| ==> Selected(page[i], caller, SearchField(param).value, keyword))
  {
    var found := Query(t, caller, param, keyword);
    SortedPageMembers(found, key, skip, limit);
    QueryFromStore(t, caller, param, keyword);
  }

  /** Every contact on a page is a stored row that the query selected; an unknown
      search parameter gives an empty page. */
  lemma PageFromStore(t: Tables, d: SearchRequest, caller: AppUser)
    requires TablesValid(t) && SearchRequestValid(d) && SearchPage(t, d, caller).Success?
    ensures var page := SearchPage(t, d, caller).value;
      (forall i :: 0 <= i < |page| ==> page[i] in t.contacts.Values && StoredContact(t, page[i]))
      && (SearchField(d.searchParameter.value).None? ==> page == [])
      && (SearchField(d.searchParameter.value).Some? ==>
            forall i :: 0 <= i < |page| ==>
              Selected(page[i], caller, SearchField(d.searchParameter.value).value, d.searchKeyword.value))
  {
    var key := KeyOf(FieldExtractor(d.sortBy.value));
    assert SearchPage(t, d, caller) == Success(Page(SortedQuery(t, caller, d), SkipCount(d), d.size as int));
    assert SortedQuery(t, caller, d) == SortBy(Query(t, caller, d.searchParameter.value, d.searchKeyword.value), key);
    QueryPageFromStore(t, caller, d.searchParameter.value, d.searchKeyword.value, key, SkipCount(d), d.size as int);
  }

  /** An unknown search parameter is not an error: with non-negative paging it gives an
      empty list. */
  lemma UnknownParameterGivesEmptyPage(t: Tables, d: SearchRequest, caller: AppUser)
    requires SearchRequestValid(d) && SearchField(d.searchParameter.value).None?
    requires d.size >= 0 && d.page >= 0
    ensures SearchPage(t, d, caller) == Success([])
  {
    assert SkipCount(d) >= 0 by {
      assert d.size as int * d.page as int >= 0;
    }
  }

  /** A size of 0 gives an empty page for every page number, a negative one included:
      the skip count is 0. */
  lemma ZeroSizeGivesEmptyPage(t: Tables, d: SearchRequest, caller: AppUser)
    requires SearchRequestValid(d) && d.size == 0
    ensures SearchPage(t, d, caller) == Success([])
  {
    assert SkipCount(d) == 0;
  }

  /** A page never holds more than `size` contacts. */
  lemma SearchPageBounded(t: Tables, d: SearchRequest, caller: AppUser)
    requires SearchRequestValid(d) && SearchPage(t, d, caller).Success?
    ensures |SearchPage(t, d, caller).value| <= d.size as int
  {
  }

  /** A sorted list's page is sorted. */
  lemma PageSorted(s: seq<Contact>, key: Contact -> seq<int>, skip: nat, limit: nat)
    requires SortedBy(s, key)
    ensures SortedBy(Page(s, skip, limit), key)
  {
    var p := Page(s, skip, limit);
    forall i, j | 0 <= i < j < |p| ensures UnitsLeq(key(p[i]), key(p[j])) {
      assert p[i] == s[skip + i] && p[j] == s[skip + j];
    }
  }

  /** The page is ordered by the `sortBy` field. */
  lemma SearchPageSorted(t: Tables, d: SearchRequest, caller: AppUser)
    requires SearchRequestValid(d) && SearchPage(t, d, caller).Success?
    ensures SortedBy(SearchPage(t, d, caller).value, KeyOf(FieldExtractor(d.sortBy.value)))
  {
    var key := KeyOf(FieldExtractor(d.sortBy.value));
    var found := Query(t, caller, d.searchParameter.value, d.searchKeyword.value);
    assert SearchPage(t, d, caller) == Success(Page(SortedQuery(t, caller, d), SkipCount(d), d.size as int));
    assert SortedQuery(t, caller, d) == SortBy(found, key);
    SortBySorted(found, key);
    PageSorted(SortBy(found, key), key, SkipCount(d), d.size as int);
  }

  /** The first page, when it is large enough, holds every stored contact of the caller
      that matches the query. */
  lemma FirstPageComplete(t: Tables, d: SearchRequest, caller: AppUser, k: int)
    requires SearchRequestValid(d) && SearchField(d.searchParameter.value).Some?
    requires d.page == 0 && d.size as int >= |t.contacts|
    requires k in t.contacts
    requires Selected(t.contacts[k], caller, SearchField(d.searchParameter.value).value, d.searchKeyword.value)
    ensures SearchPage(t, d, caller).Success?
    ensures t.contacts[k] in SearchPage(t, d, caller).value
  {
    var key := KeyOf(FieldExtractor(d.sortBy.value));
    var found := Query(t, caller, d.searchParameter.value, d.searchKeyword.value);
    var sorted := SortBy(found, key);
    assert SkipCount(d) == 0;
    assert SearchPage(t, d, caller) == Success(Page(SortedQuery(t, caller, d), 0, d.size as int));
    assert SortedQuery(t, caller, d) == sorted;
    QueryShorterThanTable(t, caller, d.searchParameter.value, d.searchKeyword.value);
    SortByKeeps(found, key, t.contacts[k]);
    WholePage(sorted, d.size as int);
  }

  /** A first page at least as long as the list is the whole list. */
  lemma WholePage(s: seq<Contact>, limit: nat)
    requires limit >= |s|
    ensures Page(s, 0, limit) == s
  {
  }

  /** The sort drops nothing. */
  lemma SortByKeeps(s: seq<Contact>, key: Contact -> seq<int>, x: Contact)
    requires x in s
    ensures x in SortBy(s, key)
  {
    assert x in multiset(s);
  }

  /** A filter keeps at most its input's length. */
  lemma SelectShorter(s: seq<Contact>, caller: AppUser, f: Field, keyword: string)
    ensures |Select(s, caller, f, keyword)| <= |s|
  {
  }

  /** The query returns at most one contact per stored row. */
  lemma QueryShorterThanTable(t: Tables, caller: AppUser, param: string, keyword: string)
    ensures |Query(t, caller, param, keyword)| <= |t.contacts|
  {
    if SearchField(param).Some? {
      SelectShorter(OrderedValues(t.contacts), caller, SearchField(param).value, keyword);
    }
  }
}
