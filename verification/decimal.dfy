/** Decimal rendering of integers, as JavaScript's `Number.prototype.toString()`
    and template literals render an integral number of magnitude at most 2^53.
    Up to that bound every integer is a double whose shortest round-trip form
    is its exact digits. Above it JavaScript prints the shortest digits that
    read back to the same double, padded with zeros, and from 10^21 on it
    uses exponent form (`1e+21`); neither is modelled here. */
module Decimal {
  import opened Ascii

  function DigitChar(d: nat): (c: char)
    requires d < 10
    ensures IsDigit(c)
  {
    ('0' as int + d) as char
  }

  function DigitValue(c: char): (d: nat)
    requires IsDigit(c)
    ensures d < 10
  {
    c as int - '0' as int
  }

  predicate AllDigits(s: string) {
    forall i :: 0 <= i < |s| ==> IsDigit(s[i])
  }

  /** Shortest decimal form of `n`: no leading zero except for `0` itself. */
  function NatToString(n: nat): (r: string)
    ensures |r| >= 1 && AllDigits(r)
    ensures |r| > 1 ==> r[0] != '0'
    decreases n
  {
    if n < 10 then [DigitChar(n)]
    else NatToString(n / 10) + [DigitChar(n % 10)]
  }

  /** Reads a string of decimal digits back as a number. */
  function ParseDigits(s: string): nat
    requires AllDigits(s)
    decreases |s|
  {
    if s == [] then 0
    else ParseDigits(s[..|s| - 1]) * 10 + DigitValue(s[|s| - 1])
  }

  /** Rendering then reading gives back the number. */
  lemma {:induction false} ParseNatToString(n: nat)
    ensures ParseDigits(NatToString(n)) == n
    decreases n
  {
    if n >= 10 {
      var r := NatToString(n);
      assert r[..|r| - 1] == NatToString(n / 10);
      ParseNatToString(n / 10);
    }
  }

  /** Different numbers render differently. */
  lemma NatToStringInjective(m: nat, n: nat)
    requires NatToString(m) == NatToString(n)
    ensures m == n
  {
    ParseNatToString(m);
    ParseNatToString(n);
  }

  /** 2^53: up to this magnitude JavaScript renders an integer as its exact
      digits. */
  const ExactBound: nat := 9_007_199_254_740_992

  /** `String(i)` for an integral number of magnitude at most `ExactBound`:
      the digits of its magnitude, after a minus sign for negatives. */
  function IntToString(i: int): (r: string)
    ensures i >= 0 ==> AllDigits(r) && ParseDigits(r) == i
    ensures i < 0 ==> |r| >= 2 && r[0] == '-' && AllDigits(r[1..]) && ParseDigits(r[1..]) == -i
  {
    if i >= 0 then
      ParseNatToString(i);
      NatToString(i)
    else
      ParseNatToString(-i);
      var digits := NatToString(-i);
      assert (['-'] + digits)[1..] == digits;
      ['-'] + digits
  }
}
