/**
 * Atomic units (elements and isotopes), the periodic table they are
 * resolved from, and the Hill comparator of periodictable/formulas.py.
 */
module Atoms {
  import opened Wrappers

  /** An element (isotope == 0) or one of its isotopes (isotope == mass number). */
  datatype Atom = Atom(symbol: string, isotope: nat)

  /**
   * The periodic table as seen by the formula code: symbol lookup
   * (`table.symbol(sym)`), isotope lookup (`element[n]`), and the mass and
   * density of each atomic unit. The table itself is not part of this model.
   */
  datatype Table = Table(
    element: string -> Option<Atom>,
    isotope: (Atom, nat) -> Option<Atom>,
    mass: Atom -> real,
    density: Atom -> Option<real>)

  /** Python's cmp on numbers. */
  function Cmp(a: int, b: int): int
  {
    if a < b then -1 else if a == b then 0 else 1
  }

  /** Python's cmp on strings: lexicographic on character codes. */
  function CmpStr(a: string, b: string): int
  {
    if a == [] then (if b == [] then 0 else -1)
    else if b == [] then 1
    else if a[0] != b[0] then Cmp(a[0] as int, b[0] as int)
    else CmpStr(a[1..], b[1..])
  }

  lemma {:induction false} CmpStrAntisymmetric(a: string, b: string)
    ensures CmpStr(a, b) == -CmpStr(b, a)
  {
    if a != [] && b != [] && a[0] == b[0] {
      CmpStrAntisymmetric(a[1..], b[1..]);
    }
  }

  lemma {:induction false} CmpStrZero(a: string, b: string)
    ensures CmpStr(a, b) == 0 <==> a == b
  {
    if a != [] && b != [] && a[0] == b[0] {
      CmpStrZero(a[1..], b[1..]);
      assert a == [a[0]] + a[1..] && b == [b[0]] + b[1..];
    }
  }

  lemma {:induction false} CmpStrTransitive(a: string, b: string, c: string)
    requires CmpStr(a, b) < 0 && CmpStr(b, c) < 0
    ensures CmpStr(a, c) < 0
  {
    if a != [] && b != [] && c != [] && a[0] == b[0] && b[0] == c[0] {
      CmpStrTransitive(a[1..], b[1..], c[1..]);
    }
  }

  predicate IsCarbonOrHydrogen(symbol: string)
  {
    symbol == "C" || symbol == "H"
  }

  /**
   * `_hill_compare` exactly as written: when only `b` is C or H the
   * symbols are compared alphabetically instead of putting `b` first.
   */
  function HillCompareAsWritten(a: Atom, b: Atom): int
  {
    if a.symbol == b.symbol then Cmp(a.isotope, b.isotope)
    else if IsCarbonOrHydrogen(a.symbol) then
      (if IsCarbonOrHydrogen(b.symbol) then CmpStr(a.symbol, b.symbol) else -1)
    else CmpStr(a.symbol, b.symbol)
  }

  /**
   * The Hill comparator as intended: C, then H, then the other symbols
   * alphabetically; for one symbol the natural element (isotope 0) first,
   * then isotopes by ascending mass number.
   */
  function HillCompare(a: Atom, b: Atom): int
  {
    if a.symbol == b.symbol then Cmp(a.isotope, b.isotope)
    else if IsCarbonOrHydrogen(a.symbol) then
      (if IsCarbonOrHydrogen(b.symbol) then CmpStr(a.symbol, b.symbol) else -1)
    else if IsCarbonOrHydrogen(b.symbol) then 1
    else CmpStr(a.symbol, b.symbol)
  }

  /** Strict Hill order. */
  predicate HillLess(a: Atom, b: Atom)
  {
    HillCompare(a, b) < 0
  }

  /** The corrected comparator is a total order on atomic units. */
  lemma HillCompareIsTotalOrder(a: Atom, b: Atom, c: Atom)
    ensures HillCompare(a, b) == -HillCompare(b, a)
    ensures HillCompare(a, b) == 0 <==> a == b
    ensures HillCompare(a, b) < 0 && HillCompare(b, c) < 0 ==> HillCompare(a, c) < 0
  {
    CmpStrAntisymmetric(a.symbol, b.symbol);
    CmpStrZero(a.symbol, b.symbol);
    if HillCompare(a, b) < 0 && HillCompare(b, c) < 0 {
      CmpStrZero(a.symbol, c.symbol);
      CmpStrZero(b.symbol, c.symbol);
      if a.symbol != b.symbol && b.symbol != c.symbol
        && !IsCarbonOrHydrogen(a.symbol) && !IsCarbonOrHydrogen(b.symbol) && !IsCarbonOrHydrogen(c.symbol)
      {
        CmpStrTransitive(a.symbol, b.symbol, c.symbol);
      }
      if a.symbol != b.symbol && b.symbol != c.symbol
        && IsCarbonOrHydrogen(a.symbol) && IsCarbonOrHydrogen(b.symbol) && IsCarbonOrHydrogen(c.symbol)
      {
        CmpStrTransitive(a.symbol, b.symbol, c.symbol);
      }
    }
  }

  lemma HillOrderFacts()
    ensures forall a: Atom, b: Atom :: HillCompare(a, b) == -HillCompare(b, a)
    ensures forall a: Atom, b: Atom :: HillCompare(a, b) == 0 <==> a == b
    ensures forall a: Atom, b: Atom, c: Atom :: HillLess(a, b) && HillLess(b, c) ==> HillLess(a, c)
  {
    forall a: Atom, b: Atom
      ensures HillCompare(a, b) == -HillCompare(b, a)
      ensures HillCompare(a, b) == 0 <==> a == b
    {
      HillCompareIsTotalOrder(a, b, b);
    }
    forall a: Atom, b: Atom, c: Atom
      ensures HillLess(a, b) && HillLess(b, c) ==> HillLess(a, c)
    {
      HillCompareIsTotalOrder(a, b, c);
    }
  }

  /**
   * The comparator as written differs from the intended one exactly when
   * `b` is C or H, `a` is not, and `a`'s symbol sorts alphabetically before
   * `b`'s; there it answers -1 in both argument orders.
   */
  lemma HillCompareAsWrittenDiffers(a: Atom, b: Atom)
    ensures HillCompareAsWritten(a, b) != HillCompare(a, b)
      <==> (a.symbol != b.symbol && !IsCarbonOrHydrogen(a.symbol) && IsCarbonOrHydrogen(b.symbol)
            && CmpStr(a.symbol, b.symbol) < 0)
  {
  }

  /** Bromine against carbon (as in CH3Br): each sorts before the other. */
  lemma HillCompareAsWrittenNotAntisymmetric()
    ensures HillCompareAsWritten(Atom("Br", 0), Atom("C", 0)) == -1
    ensures HillCompareAsWritten(Atom("C", 0), Atom("Br", 0)) == -1
    ensures HillCompare(Atom("Br", 0), Atom("C", 0)) == 1
  {
  }
}
