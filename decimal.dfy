/**
 * Decimal text of numbers, as JavaScript's `String(n)`, `n.toString()` and
 * template literals render integers, and its inverse.
 */
module Decimal {

  predicate IsDigitChar(c: char) { '0' <= c <= '9' }

  predicate AllDigits(s: string) {
    forall i :: 0 <= i < |s| ==> IsDigitChar(s[i])
  }

  function DigitChar(d: nat): (c: char)
    requires d < 10
    ensures IsDigitChar(c)
  {
    ('0' as int + d) as char
  }

  function DigitValue(c: char): (d: nat)
    requires IsDigitChar(c)
    ensures d < 10
  {
    c as int - '0' as int
  }

  /** The decimal text of a natural number, without leading zeros. */
  function NatToText(n: nat): (s: string)
    ensures |s| >= 1 && AllDigits(s)
    ensures |s| > 1 ==> s[0] != '0'
  {
    if n < 10 then [DigitChar(n)] else NatToText(n / 10) + [DigitChar(n % 10)]
  }

  /** The decimal text of an integer; negatives carry a leading '-'. */
  function IntToText(n: int): (s: string)
    ensures |s| >= 1
    ensures n >= 0 ==> s == NatToText(n)
  {
    if n < 0 then "-" + NatToText(-n) else NatToText(n)
  }

  /** The value of a string of decimal digits. */
  function ParseNat(s: string): (n: nat)
    requires AllDigits(s)
  {
    if s == [] then 0 else 10 * ParseNat(s[..|s| - 1]) + DigitValue(s[|s| - 1])
  }

  /** Reading the text back gives the number. */
  lemma {:induction false} ParseNatToText(n: nat)
    ensures ParseNat(NatToText(n)) == n
  {
    if n >= 10 {
      var s := NatToText(n);
      assert s[..|s| - 1] == NatToText(n / 10);
      ParseNatToText(n / 10);
    }
  }

  /** Different numbers have different texts. */
  lemma NatToTextInjective(m: nat, n: nat)
    requires NatToText(m) == NatToText(n)
    ensures m == n
  {
    ParseNatToText(m);
    ParseNatToText(n);
  }

  /** Different integers have different texts: a '-' never starts a digit string. */
  lemma IntToTextInjective(m: int, n: int)
    requires IntToText(m) == IntToText(n)
    ensures m == n
  {
    if m < 0 && n < 0 {
      assert NatToText(-m) == IntToText(m)[1..];
      assert NatToText(-n) == IntToText(n)[1..];
      NatToTextInjective(-m, -n);
    } else if m >= 0 && n >= 0 {
      NatToTextInjective(m, n);
    }
  }

  /** A number in [100000, 1000000) has exactly six digits: the width of a verification code. */
  lemma {:induction false} TextLengthSix(n: nat)
    requires 100000 <= n < 1000000
    ensures |NatToText(n)| == 6
  {
    var m1 := n / 10;
    var m2 := m1 / 10;
    var m3 := m2 / 10;
    var m4 := m3 / 10;
    var m5 := m4 / 10;
    assert 10000 <= m1 && 1000 <= m2 && 100 <= m3 && 10 <= m4 && 1 <= m5 < 10;
    assert |NatToText(n)| == |NatToText(m1)| + 1;
    assert |NatToText(m1)| == |NatToText(m2)| + 1;
    assert |NatToText(m2)| == |NatToText(m3)| + 1;
    assert |NatToText(m3)| == |NatToText(m4)| + 1;
    assert |NatToText(m4)| == |NatToText(m5)| + 1;
  }
}
