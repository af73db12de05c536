/** Decimal text of integers as JavaScript's Number.prototype.toString writes
    them, String.prototype.padStart, and the value of a string of digits. */
module Digits {

  predicate IsDigit(c: char) {
    '0' <= c <= '9'
  }

  predicate AllDigits(s: string) {
    forall i :: 0 <= i < |s| ==> IsDigit(s[i])
  }

  function DigitChar(d: nat): (c: char)
    requires d < 10
    ensures IsDigit(c) && DigitValue(c) == d
  {
    (('0' as int) + d) as char
  }

  function DigitValue(c: char): (d: nat)
    requires IsDigit(c)
    ensures d < 10
  {
    c as int - '0' as int
  }

  /** The value of a string of decimal digits (0 for the empty string). */
  function ParseDigits(s: string): nat
    requires AllDigits(s)
  {
    if |s| == 0 then 0 else 10 * ParseDigits(s[..|s| - 1]) + DigitValue(s[|s| - 1])
  }

  /** toString of a non-negative integer: its shortest decimal text. */
  function NatToString(n: nat): (s: string)
    ensures |s| >= 1 && AllDigits(s)
    ensures |s| == 1 <==> n < 10
    ensures |s| == 2 <==> 10 <= n < 100
    ensures n >= 10 ==> s[0] != '0'
    decreases n
  {
    if n < 10 then [DigitChar(n)] else NatToString(n / 10) + [DigitChar(n % 10)]
  }

  /** toString of any integer: a minus sign before negative values. */
  function IntToString(i: int): (s: string)
    ensures i >= 0 ==> s == NatToString(i)
    ensures i < 0 ==> s == "-" + NatToString(-i)
  {
    if i < 0 then "-" + NatToString(-i) else NatToString(i)
  }

  /** Reading the text back gives the number. */
  lemma {:induction false} ParseNatToString(n: nat)
    ensures ParseDigits(NatToString(n)) == n
    decreases n
  {
    if n >= 10 {
      ParseNatToString(n / 10);
      var s := NatToString(n);
      assert s[..|s| - 1] == NatToString(n / 10);
    }
  }

  /** A digit string without a superfluous leading zero is the text of its
      value. */
  lemma {:induction false} NatToStringParse(s: string)
    requires |s| >= 1 && AllDigits(s) && (|s| == 1 || s[0] != '0')
    ensures NatToString(ParseDigits(s)) == s
    decreases |s|
  {
    if |s| > 1 {
      var p := s[..|s| - 1];
      assert AllDigits(p);
      NatToStringParse(p);
      LeadingDigitBound(p);
      assert s == p + [s[|s| - 1]];
    }
  }

  /** A digit string of length >= 1 that does not start with '0' has value >= 1. */
  lemma {:induction false} LeadingDigitBound(s: string)
    requires |s| >= 1 && AllDigits(s) && (|s| == 1 || s[0] != '0')
    ensures |s| > 1 ==> ParseDigits(s) >= 1
    decreases |s|
  {
    if |s| > 1 {
      var p := s[..|s| - 1];
      if |p| > 1 {
        assert p[0] == s[0];
        LeadingDigitBound(p);
      } else {
        assert p[0] == s[0] && ParseDigits(p[..0]) == 0;
      }
    }
  }

  /** padStart(width, c): `s` preceded by as many `c` as make it `width` long. */
  function PadStart(s: string, width: nat, c: char): (r: string)
    ensures |r| == if |s| >= width then |s| else width
    ensures r[|r| - |s|..] == s
    ensures forall i :: 0 <= i < |r| - |s| ==> r[i] == c
  {
    if |s| >= width then s else seq(width - |s|, _ => c) + s
  }

  /** The value of a two-character digit string. */
  lemma ParseTwoDigits(s: string)
    requires |s| == 2 && AllDigits(s)
    ensures ParseDigits(s) == 10 * DigitValue(s[0]) + DigitValue(s[1])
  {
    var p := s[..1];
    assert AllDigits(p) && p[0] == s[0];
    assert ParseDigits(p) == 10 * ParseDigits(p[..0]) + DigitValue(s[0]);
  }
}
