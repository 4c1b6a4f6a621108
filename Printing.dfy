/**
 * `_str_atoms`: writing a formula structure back as a formula string.
 */
module Printing {
  import opened Atoms
  import opened Structure
  import opened Decimal

  /**
   * The first `k` decimals of a fraction in [0, 1), truncated.
   */
  function FractionDigits(x: real, k: nat): (r: string)
    requires 0.0 <= x < 1.0
    ensures |r| == k && AllDigits(r)
    decreases k
  {
    if k == 0 then ""
    else
      var y := 10.0 * x;
      var d := y.Floor;
      [DigitChar(d as nat)] + FractionDigits(y - d as real, k - 1)
  }

  /** `s` without its trailing '0' characters. */
  function StripTrailingZeros(s: string): (r: string)
    ensures |r| <= |s| && r == s[..|r|]
    ensures r == [] || r[|r| - 1] != '0'
    ensures forall i :: |r| <= i < |s| ==> s[i] == '0'
  {
    if s == [] || s[|s| - 1] != '0' then s
    else StripTrailingZeros(s[..|s| - 1])
  }

  /**
   * A whole number of at least 1e6 rounded to six significant digits, as
   * `"%g"` rounds it: six digits `m` and an exponent `e` such that
   * `m * 10^(e-5)` is nearest to `n`, ties going to an even `m`.
   */
  function Significant(n: nat): (r: (nat, nat))
    requires n >= 1000000
    ensures 100000 <= r.0 < 1000000 && r.1 >= 6
    ensures var unit := Pow10(r.1 - 5);
            2 * n - unit <= 2 * (r.0 * unit) <= 2 * n + unit
    ensures var unit := Pow10(r.1 - 5);
            (2 * n - unit == 2 * (r.0 * unit) || 2 * n + unit == 2 * (r.0 * unit)) ==> r.0 % 2 == 0
  {
    var e := DigitCount(n) - 1;
    Pow10UpToSix(e + 1);
    var unit := Pow10(e - 5);
    SixLeadingDigits(n, e, unit);
    RoundToSix(n, e, unit, n / unit, n % unit)
  }

  /**
   * `n` is `m` units of `10^(e-5)` and a rest: round half to even, carrying
   * into a seventh digit when 999999 rounds up.
   */
  function RoundToSix(n: nat, e: nat, unit: nat, m: nat, rest: nat): (r: (nat, nat))
    requires e >= 6 && unit == Pow10(e - 5)
    requires 100000 <= m < 1000000 && n == m * unit + rest && rest < unit
    ensures 100000 <= r.0 < 1000000 && r.1 >= 6
    ensures var unit := Pow10(r.1 - 5);
            2 * n - unit <= 2 * (r.0 * unit) <= 2 * n + unit
    ensures var unit := Pow10(r.1 - 5);
            (2 * n - unit == 2 * (r.0 * unit) || 2 * n + unit == 2 * (r.0 * unit)) ==> r.0 % 2 == 0
  {
    NearestMultiple(n, unit, m, rest);
    if 2 * rest < unit || (2 * rest == unit && m % 2 == 0) then
      (m, e)
    else if m + 1 < 1000000 then
      (m + 1, e)
    else
      CarryDigit(n, e, unit, m);
      (100000, e + 1)
  }

  /** Below seven digits, a power of ten is at most 1e6. */
  lemma Pow10UpToSix(d: nat)
    ensures d <= 6 ==> Pow10(d) <= 1000000
  {
    if d <= 6 {
      Pow10Add(d, 6 - d);
    }
  }

  /** The quotient by `10^(e-5)` of a number of `e+1` digits has six digits. */
  lemma SixLeadingDigits(n: nat, e: nat, unit: nat)
    requires e >= 6 && Pow10(e) <= n < Pow10(e + 1) && unit == Pow10(e - 5)
    ensures 100000 <= n / unit < 1000000
    ensures n == (n / unit) * unit + n % unit && 0 <= n % unit < unit
  {
    ShiftedBounds(n, e);
    QuotientBounds(n, unit, 100000, 1000000);
  }

  /** `10^e <= n < 10^(e+1)`, in multiples of `10^(e-5)`. */
  lemma ShiftedBounds(n: nat, e: nat)
    requires e >= 6 && Pow10(e) <= n < Pow10(e + 1)
    ensures 100000 * Pow10(e - 5) <= n < 1000000 * Pow10(e - 5)
  {
    Pow10Add(5, e - 5);
    Pow10Add(6, e - 5);
  }

  /** Bounds on `n` in whole multiples of `unit` bound the quotient `n / unit`. */
  lemma QuotientBounds(n: nat, unit: nat, lo: nat, hi: nat)
    requires unit >= 1 && lo * unit <= n < hi * unit
    ensures lo <= n / unit < hi
    ensures n == (n / unit) * unit + n % unit && 0 <= n % unit < unit
  {
    var q := n / unit;
    MulMonotone(q + 1, lo, unit);
    MulMonotone(hi, q, unit);
  }

  lemma MulMonotone(a: nat, b: nat, u: nat)
    ensures a <= b ==> a * u <= b * u
  {
    if a <= b {
      assert b * u == a * u + (b - a) * u;
    }
  }

  /**
   * Rounding down is within half a unit when the rest is at most half;
   * rounding up when at least half. Either is exactly half a unit away only
   * when the rest is half a unit.
   */
  lemma NearestMultiple(n: nat, unit: nat, m: nat, rest: nat)
    requires n == m * unit + rest && rest < unit
    ensures 2 * rest <= unit ==> 2 * n - unit <= 2 * (m * unit) <= 2 * n + unit
    ensures 2 * rest >= unit ==> 2 * n - unit <= 2 * ((m + 1) * unit) <= 2 * n + unit
    ensures (2 * n - unit == 2 * (m * unit) || 2 * n + unit == 2 * (m * unit)) ==> 2 * rest == unit
    ensures (2 * n - unit == 2 * ((m + 1) * unit) || 2 * n + unit == 2 * ((m + 1) * unit)) ==> 2 * rest == unit
  {
    assert (m + 1) * unit == m * unit + unit;
  }

  /** Rounding 999999.5 units up carries into a seventh digit: `1000000 * unit == 100000 * (10 * unit)`. */
  lemma CarryDigit(n: nat, e: nat, unit: nat, m: nat)
    requires e >= 6 && unit == Pow10(e - 5) && m + 1 == 1000000
    requires 2 * n - unit <= 2 * ((m + 1) * unit) <= 2 * n + unit
    ensures var wider := Pow10(e + 1 - 5);
            2 * n - wider <= 2 * (100000 * wider) <= 2 * n + wider
  {
    assert Pow10(e + 1 - 5) == 10 * unit;
  }

  /** `"%g"` of a whole number of at least 1e6: `d.ddddde+XX`, trailing zeros dropped. */
  function Scientific(n: nat): (r: string)
    requires n >= 1000000
    ensures r != [] && IsNonzeroDigit(r[0]) && 'e' in r
  {
    var (m, e) := Significant(n);
    var digits := NatToString(m);
    var decimals := StripTrailingZeros(digits[1..]);
    var mantissa := [digits[0]] + (if decimals == [] then "" else "." + decimals);
    var exponent := (if e < 10 then "0" else "") + NatToString(e);
    assert (mantissa + "e+" + exponent)[|mantissa|] == 'e';
    mantissa + "e+" + exponent
  }

  /**
   * `"%g" % count`. Whole counts below 1e6 are written as decimal
   * integers, whole counts from 1e6 up in exponent form; other counts as
   * their integer part, a point and at most six decimals.
   */
  function FormatCount(c: real): (r: string)
    ensures r != []
    ensures c == c.Floor as real && 1.0 <= c < 1000000.0 ==>
              AllDigits(r) && IsNonzeroDigit(r[0]) && DigitsValue(r) as real == c
    ensures c == c.Floor as real && c >= 1000000.0 ==> IsNonzeroDigit(r[0]) && 'e' in r
  {
    var negative := c < 0.0;
    var size := if negative then -c else c;
    var whole := size.Floor;
    var sign := if negative then "-" else "";
    if size == whole as real then
      var digits := if whole >= 1000000 then Scientific(whole as nat) else NatToString(whole as nat);
      assert !negative ==> sign + digits == digits;
      sign + digits
    else
      var decimals := StripTrailingZeros(FractionDigits(size - whole as real, 6));
      sign + NatToString(whole as nat) + (if decimals == [] then "" else "." + decimals)
  }

  /** A count of one million is written "1e+06". */
  lemma MillionFormat()
    ensures FormatCount(1000000.0) == "1e+06"
  {
    FormatLargeWhole(1000000.0);
    assert (1000000.0).Floor == 1000000;
    MillionScientific();
  }

  lemma FormatLargeWhole(c: real)
    requires c == c.Floor as real && c >= 1000000.0
    ensures FormatCount(c) == Scientific(c.Floor as nat)
  {
    assert "" + Scientific(c.Floor as nat) == Scientific(c.Floor as nat);
  }

  lemma MillionScientific()
    ensures Scientific(1000000) == "1e+06"
  {
    MillionSignificant();
    MillionMantissa();
    assert ("1" + Zeros(5))[0] == '1';
    assert ("1" + Zeros(5))[1..] == Zeros(5);
    assert NatToString(6) == "6";
    MillionText();
  }

  lemma MillionSignificant()
    ensures Significant(1000000) == (100000, 6)
  {
    assert DigitCount(100) == 3;
    assert DigitCount(100000) == 6;
    assert DigitCount(1000000) == 7;
    assert Pow10(1) == 10;
  }

  lemma MillionMantissa()
    ensures NatToString(100000) == "1" + Zeros(5)
    ensures StripTrailingZeros(Zeros(5)) == ""
  {
    NatToStringPow10(5);
    assert Pow10(5) == 100000;
    StripZeros(5);
  }

  /** A run of zeros strips to nothing. */
  lemma {:induction false} StripZeros(k: nat)
    ensures StripTrailingZeros(Zeros(k)) == ""
  {
    if k > 0 {
      assert Zeros(k)[..k - 1] == Zeros(k - 1);
      StripZeros(k - 1);
    }
  }

  lemma MillionText()
    ensures ['1'] + "" + "e+" + ("0" + "6") == "1e+06"
  {
  }

  /** An element by its symbol, an isotope as `Sym[mass number]`. */
  function RenderAtom(a: Atom): string
  {
    if a.isotope != 0 then a.symbol + "[" + NatToString(a.isotope) + "]" else a.symbol
  }

  /** The text `_str_atoms` emits for one (count, fragment) node. */
  function RenderPiece(p: Pair): string
    decreases p
  {
    match p.fragment
    case Leaf(a) => RenderAtom(a) + (if p.count != 1.0 then FormatCount(p.count) else "")
    case Group(items) =>
      if p.count == 1.0 then Render(items) else "(" + Render(items) + ")" + FormatCount(p.count)
  }

  /** The formula string of a structure: the pieces of its nodes in order. */
  function Render(s: seq<Pair>): string
    decreases s
  {
    if s == [] then "" else Render(s[..|s| - 1]) + RenderPiece(s[|s| - 1])
  }

  /** Rendering a concatenation renders the parts one after the other. */
  lemma {:induction false} RenderAppend(a: seq<Pair>, b: seq<Pair>)
    ensures Render(a + b) == Render(a) + Render(b)
    decreases |b|
  {
    if b == [] {
      assert a + b == a;
    } else {
      RenderAppend(a, b[..|b| - 1]);
      RenderAppendStep(a, b);
    }
  }

  lemma RenderAppendStep(a: seq<Pair>, b: seq<Pair>)
    requires b != []
    requires Render(a + b[..|b| - 1]) == Render(a) + Render(b[..|b| - 1])
    ensures Render(a + b) == Render(a) + Render(b)
  {
    var n := |b| - 1;
    var ab := a + b;
    assert ab[..|ab| - 1] == a + b[..n];
    assert ab[|ab| - 1] == b[n];
    RenderSnoc(ab);
    RenderSnoc(b);
    ConcatAssoc(Render(a), Render(b[..n]), RenderPiece(b[n]));
  }

  lemma ConcatAssoc(x: string, y: string, z: string)
    ensures (x + y) + z == x + (y + z)
  {
  }

  lemma RenderSnoc(s: seq<Pair>)
    requires s != []
    ensures Render(s) == Render(s[..|s| - 1]) + RenderPiece(s[|s| - 1])
  {
  }

  lemma RenderCons(p: Pair, s: seq<Pair>)
    ensures Render([p] + s) == RenderPiece(p) + Render(s)
  {
    RenderAppend([p], s);
    RenderOne(p);
  }

  lemma RenderOne(p: Pair)
    ensures Render([p]) == RenderPiece(p)
  {
    var one := [p];
    assert one[..0] == [];
    assert Render(one) == Render(one[..0]) + RenderPiece(one[0]);
  }

  /** `_str_atoms` as written: a loop appending one piece per node. */
  method StrAtoms(s: seq<Pair>) returns (ret: string)
    ensures ret == Render(s)
    decreases s
  {
    ret := "";
    var i := 0;
    while i < |s|
      invariant 0 <= i <= |s|
      invariant ret == Render(s[..i])
    {
      var piece := StrPiece(s[i]);
      assert s[..i + 1][..i] == s[..i];
      ret := ret + piece;
      i := i + 1;
    }
    assert s[..|s|] == s;
  }

  method StrPiece(p: Pair) returns (piece: string)
    ensures piece == RenderPiece(p)
    decreases p
  {
    match p.fragment {
      case Leaf(a) =>
        if a.isotope != 0 {
          piece := a.symbol + "[" + NatToString(a.isotope) + "]";
        } else {
          piece := a.symbol;
        }
        if p.count != 1.0 {
          piece := piece + FormatCount(p.count);
        }
      case Group(items) =>
        var inner := StrAtoms(items);
        if p.count == 1.0 {
          piece := inner;
        } else {
          piece := "(" + inner + ")" + FormatCount(p.count);
        }
    }
  }
}
