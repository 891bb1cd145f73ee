/**
 * The subset of `java.util.regex` that the `@Pattern` constraints of the DTOs use:
 * an anchored sequence of character classes, each repeated between a lower and an
 * optional upper bound. `Matches` is `Matcher.matches()`: the whole string must match.
 */
module Patterns {
  import opened Base
  import opened JavaText

  datatype CharClass =
    | Letters           // [a-zA-Z]
    | Digits            // [0-9]
    | LettersDigitsSpace // [a-zA-Z0-9 ]
    | Literal(c: char)  // an escaped literal such as \+

  predicate InClass(c: char, k: CharClass)
  {
    match k
    case Letters => IsAsciiLetter(c)
    case Digits => IsAsciiDigit(c)
    case LettersDigitsSpace => IsAsciiLetter(c) || IsAsciiDigit(c) || c == ' '
    case Literal(l) => c == l
  }

  /** One term `class{min,max}`; `max == None` is an unbounded `+` or `{min,}`. */
  datatype Term = Term(cls: CharClass, min: nat, max: Option<nat>)

  type Regex = seq<Term>

  predicate AllIn(s: string, k: CharClass)
  {
    forall i :: 0 <= i < |s| ==> InClass(s[i], k)
  }

  predicate RepeatCountOk(t: Term, k: nat)
  {
    t.min <= k && (t.max.None? || k <= t.max.value)
  }

  /** The first `k` characters are one repetition of the first term and the rest matches the rest. */
  predicate SplitMatches(s: string, r: Regex, k: nat)
    requires r != [] && k <= |s|
    decreases |r|, 0
  {
    RepeatCountOk(r[0], k) && AllIn(s[..k], r[0].cls) && Matches(s[k..], r[1..])
  }

  predicate Matches(s: string, r: Regex)
    decreases |r|, 1
  {
    if r == [] then s == []
    else exists k: nat :: k <= |s| && SplitMatches(s, r, k)
  }

  /** ^[a-zA-Z]+$ */
  const NAME: Regex := [Term(Letters, 1, None)]
  /** ^[a-zA-Z0-9 ]+$ */
  const ADDRESS: Regex := [Term(LettersDigitsSpace, 1, None)]
  /** ^\+[0-9]{9,14}$ */
  const PHONE: Regex := [Term(Literal('+'), 1, Some(1)), Term(Digits, 9, Some(14))]
  /** ^[0-9]+$ */
  const DIGITS: Regex := [Term(Digits, 1, None)]

  /** A one-term pattern matches exactly the strings of an allowed length drawn from its class. */
  lemma SingleTermMatches(s: string, t: Term)
    ensures Matches(s, [t]) <==> RepeatCountOk(t, |s|) && AllIn(s, t.cls)
  {
    if Matches(s, [t]) {
      SingleTermSound(s, t);
    }
    if RepeatCountOk(t, |s|) && AllIn(s, t.cls) {
      assert s[..|s|] == s;
      assert SplitMatches(s, [t], |s|);
    }
  }

  lemma SingleTermSound(s: string, t: Term)
    requires Matches(s, [t])
    ensures RepeatCountOk(t, |s|) && AllIn(s, t.cls)
  {
    var k: nat :| k <= |s| && SplitMatches(s, [t], k);
    assert [t][1..] == [];
    assert Matches(s[k..], []);
    assert |s[k..]| == 0;
    assert s[..k] == s;
  }

  lemma NameMatches(s: string)
    ensures Matches(s, NAME) <==> |s| >= 1 && forall i :: 0 <= i < |s| ==> IsAsciiLetter(s[i])
  {
    SingleTermMatches(s, NAME[0]);
  }

  lemma AddressMatches(s: string)
    ensures Matches(s, ADDRESS) <==>
      |s| >= 1 && forall i :: 0 <= i < |s| ==> IsAsciiLetter(s[i]) || IsAsciiDigit(s[i]) || s[i] == ' '
  {
    SingleTermMatches(s, ADDRESS[0]);
  }

  lemma DigitsMatches(s: string)
    ensures Matches(s, DIGITS) <==> |s| >= 1 && AllDigits(s)
  {
    SingleTermMatches(s, DIGITS[0]);
  }

  /** A phone number is '+' and then 9 to 14 ASCII digits, so it has 10 to 15 characters. */
  lemma PhoneMatches(s: string)
    ensures Matches(s, PHONE) <==>
      10 <= |s| <= 15 && s[0] == '+' && forall i :: 1 <= i < |s| ==> IsAsciiDigit(s[i])
  {
    if Matches(s, PHONE) {
      PhoneMatchIsPhone(s);
    }
    if 10 <= |s| <= 15 && s[0] == '+' && forall i :: 1 <= i < |s| ==> IsAsciiDigit(s[i]) {
      PhoneIsPhoneMatch(s);
    }
  }

  lemma PhoneMatchIsPhone(s: string)
    requires Matches(s, PHONE)
    ensures 10 <= |s| <= 15 && s[0] == '+' && forall i :: 1 <= i < |s| ==> IsAsciiDigit(s[i])
  {
    var rest := PHONE[1..];
    var k: nat :| k <= |s| && SplitMatches(s, PHONE, k);
    assert k == 1;
    SingleTermMatches(s[1..], rest[0]);
    assert rest == [rest[0]];
    forall i | 1 <= i < |s| ensures IsAsciiDigit(s[i]) {
      assert s[1..][i - 1] == s[i];
    }
  }

  lemma PhoneIsPhoneMatch(s: string)
    requires 10 <= |s| <= 15 && s[0] == '+' && forall i :: 1 <= i < |s| ==> IsAsciiDigit(s[i])
    ensures Matches(s, PHONE)
  {
    var rest := PHONE[1..];
    SingleTermMatches(s[1..], rest[0]);
    assert rest == [rest[0]];
    assert SplitMatches(s, PHONE, 1);
  }
}
