/**
 * Decimal rendering of integers, as Java's string conversion of an int
 * produces it, and the facts about it that make rendered tokens decodable:
 * every rendering is non-empty, uses only digits and '-', and no two
 * integers render alike.
 */
module Decimal {

  function Digit(d: int): (r: char)
    requires 0 <= d < 10
  {
    "0123456789"[d]
  }

  predicate IsDigit(ch: char) { '0' <= ch <= '9' }

  /** Decimal rendering of a natural number, most significant digit first. */
  function NatToString(x: nat): (r: string)
  {
    if x < 10 then [Digit(x)] else NatToString(x / 10) + [Digit(x % 10)]
  }

  /** Decimal rendering of an integer, with a leading '-' when negative. */
  function IntToString(x: int): (r: string) {
    if x < 0 then "-" + NatToString(-x) else NatToString(x)
  }

  predicate NoChar(s: string, ch: char) {
    forall i :: 0 <= i < |s| ==> s[i] != ch
  }

  lemma {:induction false} NatToStringDigits(x: nat)
    ensures |NatToString(x)| > 0
    ensures forall i :: 0 <= i < |NatToString(x)| ==> IsDigit(NatToString(x)[i])
    ensures x >= 10 ==> |NatToString(x)| >= 2
  {
    if x >= 10 {
      NatToStringDigits(x / 10);
    }
  }

  lemma DigitInjective(a: int, b: int)
    requires 0 <= a < 10 && 0 <= b < 10 && Digit(a) == Digit(b)
    ensures a == b
  {
  }

  lemma {:induction false} NatToStringInjective(a: nat, b: nat)
    requires NatToString(a) == NatToString(b)
    ensures a == b
  {
    NatToStringDigits(a);
    NatToStringDigits(b);
    var sa, sb := NatToString(a), NatToString(b);
    assert a < 10 <==> b < 10;
    if a < 10 {
      DigitInjective(a, b);
    } else {
      assert sa[..|sa| - 1] == NatToString(a / 10);
      assert sb[..|sb| - 1] == NatToString(b / 10);
      NatToStringInjective(a / 10, b / 10);
      assert sa[|sa| - 1] == Digit(a % 10);
      assert sb[|sb| - 1] == Digit(b % 10);
      DigitInjective(a % 10, b % 10);
    }
  }

  /** A rendering is non-empty and holds no character other than digits and '-'. */
  lemma IntToStringShape(x: int, ch: char)
    requires ch != '-' && !IsDigit(ch)
    ensures |IntToString(x)| > 0
    ensures NoChar(IntToString(x), ch)
  {
    NatToStringDigits(if x < 0 then -x else x);
  }

  lemma IntToStringInjective(a: int, b: int)
    requires IntToString(a) == IntToString(b)
    ensures a == b
  {
    NatToStringDigits(if a < 0 then -a else a);
    NatToStringDigits(if b < 0 then -b else b);
    assert IntToString(a)[0] == '-' <==> a < 0;
    assert IntToString(b)[0] == '-' <==> b < 0;
    if a < 0 {
      assert NatToString(-a) == IntToString(a)[1..];
      assert NatToString(-b) == IntToString(b)[1..];
      NatToStringInjective(-a, -b);
    } else {
      NatToStringInjective(a, b);
    }
  }

  /** If a tail starting with ch follows a shorter word, that ch shows in the longer one. */
  lemma SeparatorAt(ch: char, a: string, s: string, b: string, t: string)
    requires s == [] || s[0] == ch
    requires a + s == b + t
    ensures |a| < |b| ==> b[|a|] == ch
  {
    if |a| < |b| {
      assert (a + s)[|a|] == s[0];
      assert (b + t)[|a|] == b[|a|];
    }
  }

  /** A word without ch followed by a tail that is empty or starts with ch
      splits uniquely at the tail. */
  lemma SplitAt(ch: char, a: string, s: string, b: string, t: string)
    requires NoChar(a, ch) && NoChar(b, ch)
    requires s == [] || s[0] == ch
    requires t == [] || t[0] == ch
    requires a + s == b + t
    ensures a == b && s == t
  {
    SeparatorAt(ch, a, s, b, t);
    SeparatorAt(ch, b, t, a, s);
    assert |a| == |b|;
    assert a == (a + s)[..|a|];
    assert b == (b + t)[..|b|];
    assert s == (a + s)[|a|..];
    assert t == (b + t)[|b|..];
  }
}
