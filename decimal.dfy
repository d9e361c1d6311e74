/** Decimal rendering of integers, as a JavaScript template literal renders
    an integral number (`${n}`), together with the parser that reads it back. */
module Decimal {

  predicate IsDigit(c: char) {
    '0' <= c <= '9'
  }

  predicate AllDigits(s: string) {
    forall i :: 0 <= i < |s| ==> IsDigit(s[i])
  }

  /** A canonical decimal numeral: at least one digit, no leading zero. */
  predicate Canonical(s: string) {
    |s| >= 1 && AllDigits(s) && (|s| > 1 ==> s[0] != '0')
  }

  function DigitValue(c: char): (d: nat)
    requires IsDigit(c)
    ensures d < 10
  {
    c as int - '0' as int
  }

  function DigitChar(d: nat): (c: char)
    requires d < 10
    ensures IsDigit(c) && DigitValue(c) == d
  {
    ('0' as int + d) as char
  }

  /** The value of a string of decimal digits, most significant first. */
  function ValueOf(s: string): nat
    requires AllDigits(s)
  {
    if s == [] then 0 else ValueOf(s[..|s| - 1]) * 10 + DigitValue(s[|s| - 1])
  }

  /** The shortest decimal numeral of `n`. */
  function NatToDecimal(n: nat): (s: string)
    ensures Canonical(s)
    ensures n > 0 ==> s[0] != '0'
  {
    if n < 10 then [DigitChar(n)] else NatToDecimal(n / 10) + [DigitChar(n % 10)]
  }

  /** How JavaScript renders an integral number: a minus sign for negatives. */
  function IntToDecimal(n: int): (s: string)
    ensures |s| >= 1
    ensures n < 0 <==> s[0] == '-'
    ensures n < 0 ==> Canonical(s[1..])
    ensures n >= 0 ==> Canonical(s)
  {
    if n < 0 then "-" + NatToDecimal(-n) else NatToDecimal(n)
  }

  /** Reading a numeral back gives the number that was rendered. */
  lemma {:induction false} ValueOfNatToDecimal(n: nat)
    ensures ValueOf(NatToDecimal(n)) == n
  {
    if n >= 10 {
      var s := NatToDecimal(n);
      assert s[..|s| - 1] == NatToDecimal(n / 10);
      ValueOfNatToDecimal(n / 10);
    }
  }

  lemma {:induction false} ValueOfPositive(s: string)
    requires Canonical(s) && s[0] != '0'
    ensures ValueOf(s) >= 1
  {
    if |s| > 1 {
      var init := s[..|s| - 1];
      assert init[0] == s[0];
      ValueOfPositive(init);
    }
  }

  /** Every canonical numeral is the rendering of its value, so the rendering
      is a bijection between naturals and canonical numerals. */
  lemma {:induction false} NatToDecimalValueOf(s: string)
    requires Canonical(s)
    ensures NatToDecimal(ValueOf(s)) == s
  {
    var init, last := s[..|s| - 1], s[|s| - 1];
    if init == [] {
      assert s == [last];
    } else {
      assert init[0] == s[0];
      ValueOfPositive(init);
      NatToDecimalValueOf(init);
      assert s == init + [last];
    }
  }
}
