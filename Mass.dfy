/**
 * Mass of a formula: the count-weighted sum of atomic masses over its
 * tally (`Formula.mass` in periodictable/formulas.py), and the sums over
 * a tally's keys that it is built from.
 */
module Mass {
  import opened Atoms
  import opened Structure

  /** The sum of `f` over a finite set of atomic units, in no particular order. */
  ghost function SumOver(keys: set<Atom>, f: Atom -> real): real
    decreases keys
  {
    if keys == {} then 0.0
    else
      var a :| a in keys;
      f(a) + SumOver(keys - {a}, f)
  }

  /** Any key can be taken out first. */
  lemma {:induction false} SumOverRemove(keys: set<Atom>, f: Atom -> real, x: Atom)
    requires x in keys
    ensures SumOver(keys, f) == f(x) + SumOver(keys - {x}, f)
    decreases keys
  {
    var a :| a in keys && SumOver(keys, f) == f(a) + SumOver(keys - {a}, f);
    if a != x {
      SumOverRemove(keys - {a}, f, x);
      SumOverRemove(keys - {x}, f, a);
      assert keys - {a} - {x} == keys - {x} - {a};
    }
  }

  lemma {:induction false} SumOverAdd(keys: set<Atom>, f: Atom -> real, g: Atom -> real, h: Atom -> real)
    requires forall a :: a in keys ==> h(a) == f(a) + g(a)
    ensures SumOver(keys, h) == SumOver(keys, f) + SumOver(keys, g)
    decreases keys
  {
    if keys != {} {
      var x :| x in keys;
      SumOverRemove(keys, f, x);
      SumOverRemove(keys, g, x);
      SumOverRemove(keys, h, x);
      SumOverAdd(keys - {x}, f, g, h);
    }
  }

  lemma {:induction false} SumOverScale(keys: set<Atom>, f: Atom -> real, g: Atom -> real, c: real)
    requires forall a :: a in keys ==> g(a) == c * f(a)
    ensures SumOver(keys, g) == c * SumOver(keys, f)
    decreases keys
  {
    if keys != {} {
      var x :| x in keys;
      SumOverRemove(keys, f, x);
      SumOverRemove(keys, g, x);
      SumOverScale(keys - {x}, f, g, c);
    }
  }

  /** Keys where `f` is zero do not change the sum. */
  lemma {:induction false} SumOverZeroExtend(small: set<Atom>, big: set<Atom>, f: Atom -> real)
    requires small <= big
    requires forall a :: a in big - small ==> f(a) == 0.0
    ensures SumOver(big, f) == SumOver(small, f)
    decreases big
  {
    if big != small {
      assert !(big <= small);
      var x :| x in big && x !in small;
      SumOverRemove(big, f, x);
      SumOverZeroExtend(small, big - {x}, f);
    }
  }

  /** The summand of the mass: `el.mass*count`. */
  function MassTerm(table: Table, m: Tally): Atom -> real
  {
    a => table.mass(a) * Get(m, a)
  }

  /** Mass of a tally: the sum of mass x count over its atomic units. */
  ghost function MassOf(table: Table, m: Tally): real
  {
    SumOver(m.Keys, MassTerm(table, m))
  }

  /** One step of summing the mass: the term of `a` taken out of the sum over `keys`. */
  lemma MassOfStep(table: Table, m: Tally, keys: set<Atom>, a: Atom, term: real)
    requires a in keys && a in m && term == table.mass(a) * m[a]
    ensures SumOver(keys, MassTerm(table, m)) == term + SumOver(keys - {a}, MassTerm(table, m))
  {
    SumOverRemove(keys, MassTerm(table, m), a);
  }

  /** The mass of a sum of tallies is the sum of their masses. */
  lemma MassOfAdd(table: Table, m1: Tally, m2: Tally)
    ensures MassOf(table, Add(m1, m2)) == MassOf(table, m1) + MassOf(table, m2)
  {
    var keys := m1.Keys + m2.Keys;
    var f1 := MassTerm(table, m1);
    var f2 := MassTerm(table, m2);
    SumOverAdd(keys, f1, f2, MassTerm(table, Add(m1, m2)));
    SumOverZeroExtend(m1.Keys, keys, f1);
    SumOverZeroExtend(m2.Keys, keys, f2);
  }

  /** Scaling every count scales the mass. */
  lemma MassOfScale(table: Table, m: Tally, c: real)
    ensures MassOf(table, Scale(m, c)) == c * MassOf(table, m)
  {
    MassTermsScale(table, m, c);
    SumOverScaleTo(Scale(m, c).Keys, m.Keys, MassTerm(table, m), MassTerm(table, Scale(m, c)), c, MassOf(table, m));
  }

  /** `SumOverScale` with the sum over `f` already named, for callers that know it by another name. */
  lemma SumOverScaleTo(scaledKeys: set<Atom>, keys: set<Atom>, f: Atom -> real, g: Atom -> real, c: real, total: real)
    requires scaledKeys == keys && total == SumOver(keys, f)
    requires forall a :: a in keys ==> g(a) == c * f(a)
    ensures SumOver(scaledKeys, g) == c * total
  {
    SumOverScale(keys, f, g, c);
  }

  lemma MassTermsScale(table: Table, m: Tally, c: real)
    ensures forall a :: MassTerm(table, Scale(m, c))(a) == c * MassTerm(table, m)(a)
  {
    forall a ensures MassTerm(table, Scale(m, c))(a) == c * MassTerm(table, m)(a) {
      MassTermScale(table, m, c, a);
    }
  }

  lemma MassTermScale(table: Table, m: Tally, c: real, a: Atom)
    ensures MassTerm(table, Scale(m, c))(a) == c * MassTerm(table, m)(a)
  {
    GetScale(m, c, a);
    MulSwapAt(table.mass(a), c, Get(m, a), Get(Scale(m, c), a));
  }

  lemma MassOfEmpty(table: Table)
    ensures MassOf(table, map[]) == 0.0
  {
  }
}
