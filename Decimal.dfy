/**
 * Decimal digit strings: reading them (the parser's `int(...)` and
 * `float(...)` on a matched token) and writing them (the `%g` and `%d`
 * conversions of the renderer).
 */
module Decimal {

  predicate IsDigit(c: char)
  {
    '0' <= c <= '9'
  }

  predicate IsNonzeroDigit(c: char)
  {
    '1' <= c <= '9'
  }

  predicate AllDigits(s: string)
  {
    forall i :: 0 <= i < |s| ==> IsDigit(s[i])
  }

  function DigitValue(c: char): (d: nat)
    requires IsDigit(c)
    ensures d < 10
  {
    (c - '0') as nat
  }

  function DigitChar(d: nat): (c: char)
    requires d < 10
    ensures IsDigit(c) && DigitValue(c) == d
  {
    ('0' as int + d) as char
  }

  /** The value of a string of decimal digits, most significant first. */
  function DigitsValue(s: string): nat
    requires AllDigits(s)
  {
    if s == [] then 0 else 10 * DigitsValue(s[..|s| - 1]) + DigitValue(s[|s| - 1])
  }

  /** The value of the digits after a decimal point: ".25" is 1/4. */
  function FractionValue(s: string): (v: real)
    requires AllDigits(s)
    ensures 0.0 <= v <= 1.0
  {
    if s == [] then 0.0 else (DigitValue(s[0]) as real + FractionValue(s[1..])) / 10.0
  }

  /** `%d` of a natural number: its decimal digits, without leading zeros. */
  function NatToString(n: nat): (r: string)
    ensures |r| >= 1 && AllDigits(r)
    ensures n > 0 ==> IsNonzeroDigit(r[0])
    ensures DigitsValue(r) == n
    decreases n
  {
    if n < 10 then [DigitChar(n)]
    else
      var front := NatToString(n / 10);
      var r := front + [DigitChar(n % 10)];
      assert r[..|r| - 1] == front;
      r
  }

  /** Ten to the power `k`. */
  function Pow10(k: nat): (r: nat)
    ensures r >= 1
  {
    if k == 0 then 1 else 10 * Pow10(k - 1)
  }

  /** `10^(a+b) == 10^a * 10^b`. */
  lemma {:induction false} Pow10Add(a: nat, b: nat)
    ensures Pow10(a + b) == Pow10(a) * Pow10(b)
  {
    if a > 0 {
      Pow10Add(a - 1, b);
      assert Pow10(a + b) == 10 * Pow10(a - 1 + b);
    }
  }

  /** The number of decimal digits of `n` (one for 0): `10^(d-1) <= n < 10^d`. */
  function DigitCount(n: nat): (d: nat)
    ensures d >= 1 && n < Pow10(d)
    ensures n >= 1 ==> Pow10(d - 1) <= n
  {
    if n < 10 then 1
    else
      var d := 1 + DigitCount(n / 10);
      assert Pow10(d) == 10 * Pow10(d - 1);
      d
  }

  /** Appending a zero digit multiplies by ten. */
  lemma NatToStringTimesTen(n: nat)
    requires n >= 1
    ensures NatToString(10 * n) == NatToString(n) + "0"
  {
    assert (10 * n) / 10 == n && (10 * n) % 10 == 0;
  }

  /** `k` zero digits. */
  function Zeros(k: nat): (z: string)
    ensures |z| == k
  {
    if k == 0 then "" else Zeros(k - 1) + "0"
  }

  /** A power of ten is written as a one and `k` zeros. */
  lemma {:induction false} NatToStringPow10(k: nat)
    ensures NatToString(Pow10(k)) == "1" + Zeros(k)
  {
    if k > 0 {
      NatToStringPow10(k - 1);
      OneThenZeros(Pow10(k - 1), Zeros(k - 1));
    }
  }

  lemma OneThenZeros(p: nat, z: string)
    requires p >= 1 && NatToString(p) == "1" + z
    ensures NatToString(10 * p) == "1" + (z + "0")
  {
    NatToStringTimesTen(p);
    assert ("1" + z) + "0" == "1" + (z + "0");
  }

  /** The length of the longest prefix of `s` made of digits. */
  function DigitRun(s: string): (k: nat)
    ensures k <= |s| && AllDigits(s[..k])
    ensures k == |s| || !IsDigit(s[k])
  {
    if s == [] || !IsDigit(s[0]) then 0
    else
      var k := 1 + DigitRun(s[1..]);
      assert s[..k] == [s[0]] + s[1..][..k - 1];
      k
  }

  /** The digit run of a digit string followed by a non-digit is that string. */
  lemma {:induction false} DigitRunOfDigits(d: string, t: string)
    requires AllDigits(d)
    requires t == [] || !IsDigit(t[0])
    ensures DigitRun(d + t) == |d|
  {
    if d != [] {
      assert (d + t)[1..] == d[1..] + t;
      DigitRunOfDigits(d[1..], t);
    } else {
      assert d + t == t;
    }
  }
}
