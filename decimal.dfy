/** Decimal rendering of the integer counts that the response templates
    interpolate (a JavaScript number that holds an integer prints as its
    decimal digits, with a leading '-' when negative). */
module Decimal {

  predicate IsDigit(c: char) {
    '0' <= c <= '9'
  }

  /** A character that can occur in a rendered integer. */
  predicate IsNumeral(c: char) {
    IsDigit(c) || c == '-'
  }

  predicate AllDigits(s: string) {
    forall i :: 0 <= i < |s| ==> IsDigit(s[i])
  }

  predicate AllNumerals(s: string) {
    forall i :: 0 <= i < |s| ==> IsNumeral(s[i])
  }

  function DigitChar(d: nat): (c: char)
    requires d < 10
    ensures IsDigit(c)
    ensures c as int - '0' as int == d
  {
    ('0' as int + d) as char
  }

  /** The digits of n, most significant first, without leading zeros. */
  function NatToString(n: nat): (s: string)
    ensures |s| > 0
    ensures AllDigits(s)
    ensures s[0] == '0' ==> n == 0 && s == "0"
    decreases n
  {
    if n < 10 then [DigitChar(n)] else NatToString(n / 10) + [DigitChar(n % 10)]
  }

  /** The value of a string of decimal digits (the reading direction
      that inverts NatToString). */
  function DigitsValue(s: string): nat
    requires AllDigits(s)
  {
    if s == [] then 0
    else DigitsValue(s[..|s| - 1]) * 10 + (s[|s| - 1] as int - '0' as int)
  }

  lemma {:induction false} DigitsValueOfNatToString(n: nat)
    ensures DigitsValue(NatToString(n)) == n
    decreases n
  {
    if n >= 10 {
      var s := NatToString(n / 10);
      var t := s + [DigitChar(n % 10)];
      assert t[..|t| - 1] == s;
      DigitsValueOfNatToString(n / 10);
    }
  }

  /** How a template literal renders an integer count. */
  function IntToString(n: int): (s: string)
    ensures |s| > 0
    ensures AllNumerals(s)
    ensures s[0] == '-' <==> n < 0
  {
    if n < 0 then "-" + NatToString(-n) else NatToString(n)
  }

  /** Different integers render differently, so a rendered count names
      exactly one value. */
  lemma IntToStringInjective(a: int, b: int)
    requires IntToString(a) == IntToString(b)
    ensures a == b
  {
    if a < 0 {
      var s := IntToString(a);
      assert s[1..] == NatToString(-a);
      assert s[1..] == NatToString(-b);
      DigitsValueOfNatToString(-a);
      DigitsValueOfNatToString(-b);
    } else {
      DigitsValueOfNatToString(a);
      DigitsValueOfNatToString(b);
    }
  }

  /** The length of the longest run of numeral characters that starts w. */
  function NumeralRun(w: string): (n: nat)
    ensures n <= |w|
  {
    if w == [] || !IsNumeral(w[0]) then 0 else 1 + NumeralRun(w[1..])
  }

  lemma {:induction false} NumeralRunOfConcat(x: string, r: string)
    requires AllNumerals(x)
    requires |r| > 0 && !IsNumeral(r[0])
    ensures NumeralRun(x + r) == |x|
  {
    if x != [] {
      assert (x + r)[1..] == x[1..] + r;
      NumeralRunOfConcat(x[1..], r);
    } else {
      assert x + r == r;
    }
  }

  /** Two strings that each start with a rendered integer and continue
      with a character that cannot be part of one split at the same place. */
  lemma NumeralPrefixUnique(x1: string, r1: string, x2: string, r2: string)
    requires AllNumerals(x1) && AllNumerals(x2)
    requires |r1| > 0 && |r2| > 0 && !IsNumeral(r1[0]) && !IsNumeral(r2[0])
    requires x1 + r1 == x2 + r2
    ensures x1 == x2 && r1 == r2
  {
    var w := x1 + r1;
    NumeralRunOfConcat(x1, r1);
    NumeralRunOfConcat(x2, r2);
    assert x1 == w[..|x1|] == x2;
    assert r1 == w[|x1|..] == r2;
  }
}
