/**
 * The string operations the portal relies on: `String(n)` and `Number(s)`
 * on decimal digit strings, `padStart(2, '0')`, `toLowerCase` and
 * `includes`.
 */
module Text {
  import opened Types

  predicate IsDigit(c: char) { '0' <= c <= '9' }

  predicate AllDigits(s: string) { forall i :: 0 <= i < |s| ==> IsDigit(s[i]) }

  function DigitChar(d: nat): (c: char)
    requires d < 10
    ensures IsDigit(c)
  {
    (('0' as int) + d) as char
  }

  function DigitValue(c: char): (d: nat)
    requires IsDigit(c)
    ensures d < 10
  {
    (c as int) - ('0' as int)
  }

  /** `String(n)`: the decimal digits of `n`, without leading zeros. */
  function NatToString(n: nat): (r: string)
    ensures 1 <= |r| && AllDigits(r)
    decreases n
  {
    if n < 10 then [DigitChar(n)] else NatToString(n / 10) + [DigitChar(n % 10)]
  }

  /** `Number(s)` on a digit string; the empty string is 0, as in JavaScript. */
  function Value(s: string): nat
    requires AllDigits(s)
    decreases |s|
  {
    if s == [] then 0 else 10 * Value(s[..|s| - 1]) + DigitValue(s[|s| - 1])
  }

  /** Parsing the printed number gives the number back. */
  lemma {:induction false} ValueOfNatToString(n: nat)
    ensures Value(NatToString(n)) == n
    decreases n
  {
    var r := NatToString(n);
    if n >= 10 {
      ValueOfNatToString(n / 10);
      assert r[..|r| - 1] == NatToString(n / 10);
    }
  }

  /** `String(n)` for any integer: a minus sign before the digits of a negative number. */
  function IntToString(n: int): (r: string)
    ensures 1 <= |r|
  {
    if n < 0 then "-" + NatToString(-n) else NatToString(n)
  }

  /**
   * `Number(s)` on the strings a number field holds: a digit string (the
   * empty string being 0) or a minus sign before digits; `None` stands for
   * `NaN`, which every other string is taken to be here.
   */
  function JsNumber(s: string): (r: Option<int>)
    ensures AllDigits(s) ==> r == Some(Value(s))
    ensures s == "" ==> r == Some(0)
  {
    if AllDigits(s) then Some(Value(s))
    else if |s| >= 2 && s[0] == '-' && AllDigits(s[1..]) then Some(-(Value(s[1..]) as int))
    else None
  }

  /** A minus sign before a non-empty digit string reads as the negated value. */
  lemma NumberOfNegative(digits: string)
    requires AllDigits(digits) && digits != []
    ensures JsNumber("-" + digits) == Some(-(Value(digits) as int))
  {
    var s := "-" + digits;
    assert !IsDigit(s[0]);
    assert s[1..] == digits;
  }

  /** `Number(String(n)) === n`. */
  lemma NumberOfString(n: int)
    ensures JsNumber(IntToString(n)) == Some(n)
  {
    if n < 0 {
      var digits := NatToString(-n);
      assert IntToString(n) == "-" + digits;
      ValueOfNatToString(-n);
      NumberOfNegative(digits);
    } else {
      ValueOfNatToString(n);
    }
  }

  /** Numbers below 10 print as one digit, numbers below 100 as two at most. */
  lemma NatToStringShort(n: nat)
    ensures n < 10 ==> |NatToString(n)| == 1
    ensures 10 <= n < 100 ==> |NatToString(n)| == 2
  {
    if 10 <= n < 100 {
      assert NatToString(n / 10) == [DigitChar(n / 10)];
    }
  }

  /** A leading zero does not change the value of a digit string. */
  lemma {:induction false} ValueLeadingZero(s: string)
    requires AllDigits(s)
    ensures Value(['0'] + s) == Value(s)
    decreases |s|
  {
    var z := ['0'] + s;
    if s != [] {
      assert z[..|z| - 1] == ['0'] + s[..|s| - 1];
      ValueLeadingZero(s[..|s| - 1]);
    }
  }

  /** `s.padStart(2, '0')`. */
  function PadStart2(s: string): (r: string)
    ensures |r| == if |s| < 2 then 2 else |s|
  {
    if |s| == 0 then "00" else if |s| == 1 then ['0'] + s else s
  }

  /** Padding a non-empty digit string keeps it a digit string of the same value. */
  lemma PadStart2Value(s: string)
    requires AllDigits(s) && s != []
    ensures AllDigits(PadStart2(s)) && Value(PadStart2(s)) == Value(s)
  {
    if |s| == 1 {
      ValueLeadingZero(s);
    }
  }

  /** ASCII case folding, the part of `toLowerCase` the roster data uses. */
  function LowerChar(c: char): (d: char)
    ensures 'A' <= c <= 'Z' ==> 'a' <= d <= 'z' && d as int == c as int + 32
    ensures !('A' <= c <= 'Z') ==> d == c
  {
    if 'A' <= c <= 'Z' then ((c as int) + 32) as char else c
  }

  function Lower(s: string): (r: string)
    ensures |r| == |s|
    ensures forall i :: 0 <= i < |s| ==> r[i] == LowerChar(s[i])
  {
    seq(|s|, i requires 0 <= i < |s| => LowerChar(s[i]))
  }

  /** `needle` occurs in `hay` starting at position `i`. */
  predicate OccursAt(hay: string, needle: string, i: int)
  {
    0 <= i <= |hay| - |needle| && hay[i..i + |needle|] == needle
  }

  /** `hay.includes(needle)`: `needle` occurs in `hay` as a contiguous block. */
  predicate Contains(hay: string, needle: string): (found: bool)
    ensures found ==> |needle| <= |hay|
    ensures |needle| == |hay| ==> (found <==> hay == needle)
  {
    assert |needle| == |hay| && hay == needle ==> OccursAt(hay, needle, 0);
    exists i :: 0 <= i <= |hay| - |needle| && OccursAt(hay, needle, i)
  }

  /** Every string includes the empty string. */
  lemma ContainsEmpty(hay: string)
    ensures Contains(hay, "")
  {
    assert OccursAt(hay, "", 0);
  }

  /** `field.toLowerCase().includes(term.toLowerCase())`. */
  predicate MatchesSearch(field: string, term: string): (found: bool)
    ensures found ==> |term| <= |field|
    ensures term == "" ==> found
  {
    assert Lower("") == "";
    ContainsEmpty(Lower(field));
    Contains(Lower(field), Lower(term))
  }

  /** Lower-casing twice is lower-casing once. */
  lemma LowerIdem(s: string)
    ensures Lower(Lower(s)) == Lower(s)
  {
    forall i | 0 <= i < |s|
      ensures Lower(Lower(s))[i] == Lower(s)[i]
    {
      assert LowerChar(LowerChar(s[i])) == LowerChar(s[i]);
    }
  }

  /** The search ignores case: folding the field and the term first changes nothing. */
  lemma MatchesSearchIgnoresCase(field: string, term: string)
    ensures MatchesSearch(field, term) == MatchesSearch(Lower(field), Lower(term))
  {
    LowerIdem(field);
    LowerIdem(term);
  }

  /** An empty search term matches every field. */
  lemma EmptySearchMatches(field: string)
    ensures MatchesSearch(field, "")
  {
    assert Lower("") == "";
    ContainsEmpty(Lower(field));
  }
}
