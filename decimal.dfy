/** Decimal rendering of a natural number, as an f-string renders an `int`
    count, together with the reading back that shows the rendering loses nothing. */
module Decimal {

  predicate IsDigit(c: char) {
    '0' <= c <= '9'
  }

  predicate AllDigits(s: string) {
    forall i :: 0 <= i < |s| ==> IsDigit(s[i])
  }

  function DigitChar(d: nat): (c: char)
    requires d < 10
    ensures IsDigit(c) && DigitValue(c) == d
  {
    ('0' as int + d) as char
  }

  function DigitValue(c: char): nat
    requires IsDigit(c)
  {
    c as int - '0' as int
  }

  /** The digits of `n` in base ten, most significant first, without leading zeros. */
  function ToString(n: nat): (s: string)
    ensures s != [] && AllDigits(s)
    ensures s[0] == '0' ==> n == 0 && s == "0"
  {
    if n < 10 then [DigitChar(n)] else ToString(n / 10) + [DigitChar(n % 10)]
  }

  /** The number a string of decimal digits denotes. */
  function Value(s: string): nat
    requires AllDigits(s)
  {
    if s == [] then 0 else Value(s[..|s| - 1]) * 10 + DigitValue(s[|s| - 1])
  }

  /** The longest prefix of `s` made of digits. */
  function LeadingDigits(s: string): (p: string)
    ensures |p| <= |s| && p == s[..|p|] && AllDigits(p)
    ensures |p| < |s| ==> !IsDigit(s[|p|])
  {
    if s != [] && IsDigit(s[0]) then [s[0]] + LeadingDigits(s[1..]) else []
  }

  lemma {:induction false} ValueOfToString(n: nat)
    ensures Value(ToString(n)) == n
  {
    if n >= 10 {
      var s := ToString(n);
      ValueOfToString(n / 10);
      assert s[..|s| - 1] == ToString(n / 10);
    }
  }

  /** Rendering is injective: two different counts never print alike. */
  lemma ToStringInjective(m: nat, n: nat)
    requires ToString(m) == ToString(n)
    ensures m == n
  {
    ValueOfToString(m);
    ValueOfToString(n);
  }

  /** A rendered number followed by a non-digit reads back as that number. */
  lemma {:induction false} LeadingDigitsOfNumber(n: nat, rest: string)
    requires rest == [] || !IsDigit(rest[0])
    ensures LeadingDigits(ToString(n) + rest) == ToString(n)
    ensures Value(LeadingDigits(ToString(n) + rest)) == n
  {
    DigitsThenStop(ToString(n), rest);
    ValueOfToString(n);
  }

  lemma {:induction false} DigitsThenStop(d: string, rest: string)
    requires AllDigits(d)
    requires rest == [] || !IsDigit(rest[0])
    ensures LeadingDigits(d + rest) == d
  {
    if d != [] {
      assert (d + rest)[1..] == d[1..] + rest;
      DigitsThenStop(d[1..], rest);
    } else {
      assert d + rest == rest;
    }
  }
}
