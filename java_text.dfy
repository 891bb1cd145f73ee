/**
 * The parts of java.lang.String, Character and Long that the core relies on:
 * blankness, UTF-16 length and ordering, ASCII case folding, substring search,
 * `lastIndexOf`, `Long.toString` and `Long.parseLong`.
 */
module JavaText {
  import opened Base

  const MIN_LONG: int := -0x8000_0000_0000_0000
  const MAX_LONG: int := 0x7FFF_FFFF_FFFF_FFFF

  predicate IsAsciiLetter(c: char)
  {
    'a' <= c <= 'z' || 'A' <= c <= 'Z'
  }

  predicate IsAsciiDigit(c: char)
  {
    '0' <= c <= '9'
  }

  predicate AllDigits(s: string)
  {
    forall i :: 0 <= i < |s| ==> IsAsciiDigit(s[i])
  }

  /** `Character.isWhitespace`: the Unicode space separators except the non-breaking
      ones, the line and paragraph separators, and the control characters
      U+0009..U+000D and U+001C..U+001F. */
  predicate IsJavaWhitespace(c: char)
  {
    || ('\t' <= c <= '\r')
    || ('\U{1C}' <= c <= '\U{1F}')
    || c == ' '
    || c == '\U{1680}'
    || ('\U{2000}' <= c <= '\U{2006}')
    || ('\U{2008}' <= c <= '\U{200A}')
    || c == '\U{2028}' || c == '\U{2029}' || c == '\U{205F}' || c == '\U{3000}'
  }

  /** `String.isBlank()`: empty, or whitespace only. */
  predicate IsBlank(s: string)
  {
    forall i :: 0 <= i < |s| ==> IsJavaWhitespace(s[i])
  }

  /** Bean Validation's `@NotBlank` on a non-null string: `trim()` leaves something,
      that is, some character is above U+0020. */
  predicate NotBlankTrim(s: string)
  {
    exists i :: 0 <= i < |s| && s[i] > ' '
  }

  /** The UTF-16 code units of one character. */
  function Utf16Units(c: char): seq<int>
  {
    if c as int < 0x1_0000 then [c as int]
    else [0xD800 + (c as int - 0x1_0000) / 0x400, 0xDC00 + (c as int - 0x1_0000) % 0x400]
  }

  /** The UTF-16 encoding Java strings are made of. */
  function Utf16(s: string): (u: seq<int>)
    ensures |u| >= |s|
    decreases |s|
  {
    if s == [] then [] else Utf16Units(s[0]) + Utf16(s[1..])
  }

  /** A string of characters below U+10000 is encoded as its own code points. */
  lemma {:induction false} Utf16OfBmp(s: string)
    requires forall i :: 0 <= i < |s| ==> s[i] as int < 0x1_0000
    ensures |Utf16(s)| == |s| && forall i :: 0 <= i < |s| ==> Utf16(s)[i] == s[i] as int
    decreases |s|
  {
    if s != [] {
      Utf16OfBmp(s[1..]);
      assert Utf16(s) == [s[0] as int] + Utf16(s[1..]);
    }
  }

  /** `String.length()`, which `@Size` uses: the number of UTF-16 code units. */
  function Utf16Length(s: string): nat
  {
    |Utf16(s)|
  }

  /** `a.compareTo(b) <= 0` on code-unit sequences: lexicographic, a prefix first. */
  predicate UnitsLeq(a: seq<int>, b: seq<int>)
    decreases |a|
  {
    a == [] || (b != [] && (a[0] < b[0] || (a[0] == b[0] && UnitsLeq(a[1..], b[1..]))))
  }

  lemma {:induction false} UnitsLeqReflexive(a: seq<int>)
    ensures UnitsLeq(a, a)
    decreases |a|
  {
    if a != [] {
      UnitsLeqReflexive(a[1..]);
    }
  }

  lemma {:induction false} UnitsLeqTotal(a: seq<int>, b: seq<int>)
    ensures UnitsLeq(a, b) || UnitsLeq(b, a)
    decreases |a|
  {
    if a != [] && b != [] && a[0] == b[0] {
      UnitsLeqTotal(a[1..], b[1..]);
    }
  }

  lemma {:induction false} UnitsLeqTransitive(a: seq<int>, b: seq<int>, c: seq<int>)
    requires UnitsLeq(a, b) && UnitsLeq(b, c)
    ensures UnitsLeq(a, c)
    decreases |a|
  {
    if a != [] && a[0] == b[0] && b[0] == c[0] {
      UnitsLeqTransitive(a[1..], b[1..], c[1..]);
    }
  }

  /** `String.compareTo(s, t) <= 0`. */
  predicate StringLeq(s: string, t: string)
  {
    UnitsLeq(Utf16(s), Utf16(t))
  }

  /** The case folding used for `ContainingIgnoreCase`: ASCII letters only. */
  function AsciiLower(c: char): char
  {
    if 'A' <= c <= 'Z' then (c as int + 32) as char else c
  }

  function Lower(s: string): string
  {
    seq(|s|, i requires 0 <= i < |s| => AsciiLower(s[i]))
  }

  /** `needle` occurs in `hay` starting at index `i`. */
  predicate OccursAt(needle: string, hay: string, i: int)
  {
    0 <= i && i + |needle| <= |hay| && hay[i..i + |needle|] == needle
  }

  /** `hay.contains(needle)`. */
  predicate IsSubstring(needle: string, hay: string)
  {
    exists i :: 0 <= i <= |hay| && OccursAt(needle, hay, i)
  }

  /** SQL `upper(field) like upper('%keyword%')` as Spring Data derives it for `ContainingIgnoreCase`. */
  predicate ContainsIgnoreCase(hay: string, keyword: string)
  {
    IsSubstring(Lower(keyword), Lower(hay))
  }

  /** `s.lastIndexOf(c)`, with `None` for -1. */
  function LastIndexOf(s: string, c: char): (r: Option<nat>)
    ensures r.Some? ==> r.value < |s| && s[r.value] == c && forall j :: r.value < j < |s| ==> s[j] != c
    ensures r.None? ==> forall j :: 0 <= j < |s| ==> s[j] != c
    decreases |s|
  {
    if s == [] then None
    else if s[|s| - 1] == c then Some(|s| - 1)
    else LastIndexOf(s[..|s| - 1], c)
  }

  /** The last occurrence is the one with no occurrence after it. */
  lemma LastIndexOfAt(s: string, c: char, i: nat)
    requires i < |s| && s[i] == c && forall j :: i < j < |s| ==> s[j] != c
    ensures LastIndexOf(s, c) == Some(i)
  {
  }

  function DigitChar(d: nat): char
    requires d < 10
  {
    ('0' as int + d) as char
  }

  /** The decimal digits of a natural number, most significant first, no leading zero. */
  function NatToString(n: nat): (s: string)
    ensures |s| >= 1 && AllDigits(s)
    ensures n > 0 ==> s[0] != '0'
    decreases n
  {
    if n < 10 then [DigitChar(n)] else NatToString(n / 10) + [DigitChar(n % 10)]
  }

  /** `Long.toString(n)`. */
  function IntToString(n: int): string
  {
    if n < 0 then "-" + NatToString(-n) else NatToString(n)
  }

  /** The first code point of each run of ten decimal digits (Unicode category Nd)
      in the Basic Multilingual Plane other than '0'..'9', in ascending order:
      Arabic-Indic, Extended Arabic-Indic, NKo, Devanagari, Bengali, Gurmukhi,
      Gujarati, Oriya, Tamil, Telugu, Kannada, Malayalam, Sinhala Lith, Thai, Lao,
      Tibetan, Myanmar, Myanmar Shan, Khmer, Mongolian, Limbu, New Tai Lue, Tai Tham
      Hora, Tai Tham Tham, Balinese, Sundanese, Lepcha, Ol Chiki, Vai, Saurashtra,
      Kayah Li, Javanese, Myanmar Tai Laing, Cham, Meetei Mayek and the fullwidth
      digits. A Java `char` is one UTF-16 unit, so digits outside this plane arrive
      as surrogates, which are not digits. */
  const DECIMAL_ZEROS: seq<int> := [
    0x0660, 0x06F0, 0x07C0, 0x0966, 0x09E6, 0x0A66, 0x0AE6, 0x0B66, 0x0BE6,
    0x0C66, 0x0CE6, 0x0D66, 0x0DE6, 0x0E50, 0x0ED0, 0x0F20, 0x1040, 0x1090, 0x17E0,
    0x1810, 0x1946, 0x19D0, 0x1A80, 0x1A90, 0x1B50, 0x1BB0, 0x1C40, 0x1C50, 0xA620,
    0xA8D0, 0xA900, 0xA9D0, 0xA9F0, 0xAA50, 0xABF0, 0xFF10]

  /** The digit value of `x` when it lies in the run of ten starting at some entry of
      `zeros`, and -1 otherwise. */
  function DigitIn(x: int, zeros: seq<int>): (d: int)
    ensures -1 <= d <= 9
    ensures d >= 0 ==> exists i :: 0 <= i < |zeros| && zeros[i] <= x < zeros[i] + 10 && d == x - zeros[i]
    ensures d == -1 ==> forall i :: 0 <= i < |zeros| ==> !(zeros[i] <= x < zeros[i] + 10)
    decreases |zeros|
  {
    if zeros == [] then -1
    else if zeros[0] <= x < zeros[0] + 10 then x - zeros[0]
    else
      var d := DigitIn(x, zeros[1..]);
      assert forall i :: 1 <= i < |zeros| ==> zeros[i] == zeros[1..][i - 1];
      d
  }

  /** `Character.digit(c, 10)`: the value of a decimal digit of any script, -1 for
      anything else. */
  function JavaDigit(c: char): (d: int)
    ensures -1 <= d <= 9
    ensures IsAsciiDigit(c) ==> d == c as int - '0' as int
    ensures c as int < 0x80 && !IsAsciiDigit(c) ==> d == -1
  {
    if c as int < 0x80 then (if IsAsciiDigit(c) then c as int - '0' as int else -1)
    else DigitIn(c as int, DECIMAL_ZEROS)
  }

  /** Beyond ASCII, a character is a Java digit exactly when it lies in one of the runs
      of `DECIMAL_ZEROS`, and its value is its offset in that run. */
  lemma JavaDigitIsDecimal(c: char)
    ensures JavaDigit(c) >= 0 <==>
      IsAsciiDigit(c)
      || (c as int >= 0x80 && exists i :: 0 <= i < |DECIMAL_ZEROS| && DECIMAL_ZEROS[i] <= c as int < DECIMAL_ZEROS[i] + 10)
    ensures c as int >= 0x80 && JavaDigit(c) >= 0 ==>
      exists i :: 0 <= i < |DECIMAL_ZEROS| && DECIMAL_ZEROS[i] <= c as int < DECIMAL_ZEROS[i] + 10
        && JavaDigit(c) == c as int - DECIMAL_ZEROS[i]
  {
  }

  /** Every character is a digit to `Long.parseLong`. */
  predicate AllJavaDigits(s: string)
  {
    forall i :: 0 <= i < |s| ==> JavaDigit(s[i]) >= 0
  }

  lemma AsciiDigitsAreJavaDigits(s: string)
    requires AllDigits(s)
    ensures AllJavaDigits(s)
  {
  }

  /** The value of a string of decimal digits, of any script. */
  function DigitsValue(s: string): nat
    requires AllJavaDigits(s)
    decreases |s|
  {
    if s == [] then 0 else DigitsValue(s[..|s| - 1]) * 10 + JavaDigit(s[|s| - 1])
  }

  /** `Long.parseLong(s)`, with `None` for a NumberFormatException: a null or empty
      string, an optional sign followed by no digit or by a non-digit, or a value
      outside the 64-bit range. A digit is whatever `Character.digit` accepts, so
      the digits of every script count, not just '0'..'9'. */
  function ParseLong(s: Option<string>): (r: Option<int>)
    ensures r.Some? ==> MIN_LONG <= r.value <= MAX_LONG
    ensures r.Some? ==> s.Some? && |s.value| >= 1
  {
    if s.None? || |s.value| == 0 then None
    else
      var t := s.value;
      var digits := if t[0] == '-' || t[0] == '+' then t[1..] else t;
      if |digits| == 0 || !AllJavaDigits(digits) then None
      else
        var v: int := if t[0] == '-' then -(DigitsValue(digits) as int) else DigitsValue(digits) as int;
        if MIN_LONG <= v <= MAX_LONG then Some(v) else None
  }

  /** What `Long.parseLong` accepts and rejects, for every string: the empty string and
      a bare sign are rejected, and so is any string with a non-digit other than one
      leading '+' or '-'; otherwise the digits after the optional sign are read, negated
      exactly when the sign is '-', and accepted exactly when the value fits in a long. */
  lemma ParseLongIff(s: string)
    ensures s == "" || s == "+" || s == "-" ==> ParseLong(Some(s)).None?
    ensures (exists i :: 0 <= i < |s| && JavaDigit(s[i]) < 0 && !(i == 0 && (s[0] == '+' || s[0] == '-')))
      ==> ParseLong(Some(s)).None?
    ensures ParseLong(Some(s)).Some? <==>
      |s| >= 1
      && var d := if s[0] == '+' || s[0] == '-' then s[1..] else s;
         |d| >= 1 && AllJavaDigits(d)
         && MIN_LONG <= (if s[0] == '-' then -(DigitsValue(d) as int) else DigitsValue(d) as int) <= MAX_LONG
    ensures ParseLong(Some(s)).Some? ==>
      var d := if s[0] == '+' || s[0] == '-' then s[1..] else s;
      ParseLong(Some(s)).value == if s[0] == '-' then -(DigitsValue(d) as int) else DigitsValue(d) as int
  {
    if exists i :: 0 <= i < |s| && JavaDigit(s[i]) < 0 && !(i == 0 && (s[0] == '+' || s[0] == '-')) {
      var i :| 0 <= i < |s| && JavaDigit(s[i]) < 0 && !(i == 0 && (s[0] == '+' || s[0] == '-'));
      if s[0] == '+' || s[0] == '-' {
        assert s[1..][i - 1] == s[i];
      } else {
        assert JavaDigit(s[i]) < 0;
      }
    }
  }

  /** Arabic-Indic digits parse like ASCII ones: U+0661 U+0662 is 12. */
  lemma ParseLongArabicIndic()
    ensures ParseLong(Some("\U{0661}\U{0662}")) == Some(12)
  {
    var s := "\U{0661}\U{0662}";
    assert JavaDigit(s[0]) == 1 && JavaDigit(s[1]) == 2;
    assert s[..1][..0] == [];
    assert DigitsValue(s[..1]) == 1;
  }

  lemma {:induction false} DigitsValueOfNatToString(n: nat)
    ensures DigitsValue(NatToString(n)) == n
    decreases n
  {
    if n >= 10 {
      DigitsValueOfNatToString(n / 10);
      var s := NatToString(n);
      assert s[..|s| - 1] == NatToString(n / 10);
    }
  }

  /** Rendering a long and parsing it back gives the same long: this is what lets a
      tsid travel as a decimal string in the DTOs. */
  lemma ParseLongOfIntToString(n: int)
    requires MIN_LONG <= n <= MAX_LONG
    ensures ParseLong(Some(IntToString(n))) == Some(n)
  {
    if n < 0 {
      DigitsValueOfNatToString(-n);
      assert ("-" + NatToString(-n))[1..] == NatToString(-n);
    } else {
      DigitsValueOfNatToString(n);
    }
  }

  /** `ParseLongOfIntToString` for any integer, as an implication on the range. */
  lemma ParseLongOfIntToStringInRange(n: int)
    ensures MIN_LONG <= n <= MAX_LONG ==> ParseLong(Some(IntToString(n))) == Some(n)
  {
    if MIN_LONG <= n <= MAX_LONG {
      ParseLongOfIntToString(n);
    }
  }

  /** A pure digit string parses to its value exactly when that value fits in a long. */
  lemma ParseLongOfDigits(s: string)
    requires |s| >= 1 && AllJavaDigits(s)
    ensures ParseLong(Some(s)) == if DigitsValue(s) <= MAX_LONG then Some(DigitsValue(s)) else None
  {
  }

  /** `Long.parseLong` accepts a leading '+'. */
  lemma ParseLongPlusSign(s: string)
    requires |s| >= 1 && AllJavaDigits(s) && DigitsValue(s) <= MAX_LONG
    ensures ParseLong(Some("+" + s)) == Some(DigitsValue(s))
  {
    assert ("+" + s)[1..] == s;
  }
}
