/** `RoleTsidToRoleConverterUtil.convertToRoles`. */
module RoleConverter {
  import opened Base
  import opened JavaText
  import opened Entities

  /** The values `parse` gives the entries it accepts, in input order: a stream's
      `filter` on "parses" followed by `map` to the parsed value. */
  function Kept(entries: seq<Option<string>>, parse: Option<string> -> Option<int>): (r: seq<int>)
    ensures |r| <= |entries|
    decreases |entries|
  {
    if entries == [] then []
    else (match parse(entries[0]) case Some(n) => [n] case None => []) + Kept(entries[1..], parse)
  }

  /** Kept values lie in any range that holds every accepted entry's value. */
  lemma {:induction false} KeptBounded(entries: seq<Option<string>>, parse: Option<string> -> Option<int>, lo: int, hi: int)
    requires forall e :: parse(e).Some? ==> lo <= parse(e).value <= hi
    ensures forall k :: 0 <= k < |Kept(entries, parse)| ==> lo <= Kept(entries, parse)[k] <= hi
    decreases |entries|
  {
    if entries != [] {
      KeptBounded(entries[1..], parse, lo, hi);
    }
  }

  lemma {:induction false} KeptEmptyIff(entries: seq<Option<string>>, parse: Option<string> -> Option<int>)
    ensures Kept(entries, parse) == [] <==> forall i :: 0 <= i < |entries| ==> parse(entries[i]).None?
    decreases |entries|
  {
    if entries != [] {
      KeptEmptyIff(entries[1..], parse);
      if parse(entries[0]).None? {
        forall i | 0 <= i < |entries| && i > 0 ensures parse(entries[i]) == parse(entries[1..][i - 1]) {
        }
      }
    }
  }

  lemma {:induction false} KeptAppend(entries: seq<Option<string>>, e: Option<string>, parse: Option<string> -> Option<int>)
    ensures Kept(entries + [e], parse) ==
      Kept(entries, parse) + (match parse(e) case Some(n) => [n] case None => [])
    decreases |entries|
  {
    if entries == [] {
      assert [e][1..] == [];
    } else {
      assert (entries + [e])[1..] == entries[1..] + [e];
      assert (entries + [e])[0] == entries[0];
      KeptAppend(entries[1..], e, parse);
      var head := match parse(entries[0]) case Some(n) => [n] case None => [];
      var last := match parse(e) case Some(n) => [n] case None => [];
      ConcatAssoc(head, Kept(entries[1..], parse), last);
    }
  }

  lemma {:induction false} KeptContains(entries: seq<Option<string>>, parse: Option<string> -> Option<int>, i: nat)
    requires i < |entries| && parse(entries[i]).Some?
    ensures parse(entries[i]).value in Kept(entries, parse)
    decreases |entries|
  {
    if i > 0 {
      assert entries[1..][i - 1] == entries[i];
      KeptContains(entries[1..], parse, i - 1);
    }
  }

  /** The entries `Long.parseLong` accepts, parsed, in input order; the others (null
      entries included) are dropped by the stream filter. */
  function ParsedTsids(entries: seq<Option<string>>): (r: seq<int>)
    ensures |r| <= |entries|
    ensures forall i :: 0 <= i < |r| ==> MIN_LONG <= r[i] <= MAX_LONG
  {
    KeptBounded(entries, ParseLong, MIN_LONG, MAX_LONG);
    Kept(entries, ParseLong)
  }

  /** Nothing is kept exactly when no entry parses. */
  lemma ParsedTsidsEmptyIff(entries: seq<Option<string>>)
    ensures ParsedTsids(entries) == [] <==> forall i :: 0 <= i < |entries| ==> ParseLong(entries[i]).None?
  {
    KeptEmptyIff(entries, ParseLong);
  }

  /** A parsed entry, adjacent to the ones before it: appending an entry appends its parse. */
  lemma ParsedTsidsAppend(entries: seq<Option<string>>, e: Option<string>)
    ensures ParsedTsids(entries + [e]) ==
      ParsedTsids(entries) + (match ParseLong(e) case Some(n) => [n] case None => [])
  {
    KeptAppend(entries, e, ParseLong);
  }

  /** The roles of the given tsids, in order, or the exception for the first missing one. */
  function RolesOf(ids: seq<int>, roles: map<int, Role>): (r: Result<seq<Role>>)
    ensures r.Success? <==> forall i :: 0 <= i < |ids| ==> ids[i] in roles
    ensures r.Success? ==> |r.value| == |ids| && forall i :: 0 <= i < |ids| ==> r.value[i] == roles[ids[i]]
    ensures r.Failure? ==>
      exists i :: 0 <= i < |ids| && ids[i] !in roles && (forall j :: 0 <= j < i ==> ids[j] in roles)
        && r.error == RoleNotFound(ids[i])
  {
    if ids == [] then Success([])
    else if ids[0] !in roles then Failure(RoleNotFound(ids[0]))
    else
      match RolesOf(ids[1..], roles)
      case Failure(e) =>
        assert forall j :: 1 <= j < |ids| ==> ids[j] == ids[1..][j - 1];
        Failure(e)
      case Success(rest) =>
        assert forall i :: 1 <= i < |ids| ==> ids[i] == ids[1..][i - 1];
        Success([roles[ids[0]]] + rest)
  }

  /** `convertToRoles(roleTsids, roleRepo)`; a null array is dereferenced by `Arrays.stream`. */
  function ConvertToRoles(entries: Option<seq<Option<string>>>, roles: map<int, Role>): (r: Result<seq<Role>>)
    ensures entries.None? ==> r == Failure(NullPointer)
    ensures entries.Some? ==> r == RolesOf(ParsedTsids(entries.value), roles)
  {
    if entries.None? then Failure(NullPointer) else RolesOf(ParsedTsids(entries.value), roles)
  }

  /** On success the result is empty exactly when no entry parses. */
  lemma ConvertToRolesEmptyIff(entries: seq<Option<string>>, roles: map<int, Role>)
    requires ConvertToRoles(Some(entries), roles).Success?
    ensures ConvertToRoles(Some(entries), roles).value == [] <==>
      forall i :: 0 <= i < |entries| ==> ParseLong(entries[i]).None?
  {
    ParsedTsidsEmptyIff(entries);
  }

  /** An entry that is not a long is skipped, and a repeated tsid gives its role twice. */
  lemma ConvertToRolesExample(admin: Role)
    requires admin.tsid == 7
    ensures ConvertToRoles(Some([Some("x7"), Some("7"), None, Some("+7")]), map[7 := admin]) ==
      Success([admin, admin])
  {
    ExampleParsedTsids();
    var r := RolesOf([7, 7], map[7 := admin]);
    assert r.Success?;
    assert r.value == [admin, admin];
  }

  /** An entry written in Arabic-Indic digits is parsed and looked up like its ASCII
      spelling: U+0661 names the role with tsid 1, and fails when there is none. */
  lemma ConvertToRolesOtherScript(roles: map<int, Role>)
    ensures ConvertToRoles(Some([Some("\U{0661}")]), roles)
      == if 1 in roles then Success([roles[1]]) else Failure(RoleNotFound(1))
  {
    var e := "\U{0661}";
    assert JavaDigit(e[0]) == 1;
    assert e[..0] == [];
    assert ParseLong(Some(e)) == Some(1);
    assert [Some(e)][1..] == [];
    assert ParsedTsids([Some(e)]) == [1];
    assert [1][1..] == [];
    if 1 in roles {
      assert RolesOf([1][1..], roles) == Success([]);
      assert [roles[1]] + [] == [roles[1]];
    }
  }

  lemma ExampleEntriesParse()
    ensures ParseLong(Some("x7")).None? && ParseLong(Some("7")) == Some(7) && ParseLong(Some("+7")) == Some(7)
  {
    assert ParseLong(Some("x7")).None? by {
      assert !IsAsciiDigit("x7"[0]);
    }
    assert DigitsValue("7") == 7 by {
      assert "7"[..0] == [];
    }
    assert ParseLong(Some("7")) == Some(7);
    assert ParseLong(Some("+7")) == Some(7) by {
      assert "+7"[1..] == "7";
    }
  }

  lemma ExampleParsedTsids()
    ensures ParsedTsids([Some("x7"), Some("7"), None, Some("+7")]) == [7, 7]
  {
    var entries := [Some("x7"), Some("7"), None, Some("+7")];
    ExampleEntriesParse();
    assert ParsedTsids(entries[3..]) == [7];
    assert entries[2..][1..] == entries[3..];
    assert ParsedTsids(entries[2..]) == [7];
    assert entries[1..][1..] == entries[2..];
    assert ParsedTsids(entries[1..]) == [7, 7];
  }

  /** A well-formed tsid with no stored role aborts the whole conversion. */
  lemma UnknownRoleAborts(entries: seq<Option<string>>, roles: map<int, Role>, i: nat)
    requires i < |entries| && ParseLong(entries[i]).Some? && ParseLong(entries[i]).value !in roles
    ensures ConvertToRoles(Some(entries), roles).Failure?
  {
    ParsedContains(entries, i);
  }

  lemma ParsedContains(entries: seq<Option<string>>, i: nat)
    requires i < |entries| && ParseLong(entries[i]).Some?
    ensures ParseLong(entries[i]).value in ParsedTsids(entries)
  {
    KeptContains(entries, ParseLong, i);
  }
}
