/**
 * Hill notation (`_convert_to_hill_notation`): the atoms of a tally sorted
 * by the Hill comparator, one flat (count, atom) node each.
 */
module Hill {
  import opened Atoms
  import opened Structure

  predicate StrictlySorted(r: seq<Atom>)
  {
    forall i, j :: 0 <= i < j < |r| ==> HillLess(r[i], r[j])
  }

  predicate IsHillMinimum(m: Atom, keys: set<Atom>)
  {
    m in keys && forall x :: x in keys ==> HillCompare(m, x) <= 0
  }

  lemma MinimumIsLess(m: Atom, keys: set<Atom>)
    requires IsHillMinimum(m, keys)
    ensures forall x :: x in keys && x != m ==> HillLess(m, x)
  {
    forall x | x in keys && x != m ensures HillLess(m, x) {
      HillCompareIsTotalOrder(m, x, x);
    }
  }

  lemma MinimumUnique(keys: set<Atom>)
    ensures forall m, n :: IsHillMinimum(m, keys) && IsHillMinimum(n, keys) ==> m == n
  {
    forall m, n | IsHillMinimum(m, keys) && IsHillMinimum(n, keys) ensures m == n {
      HillCompareIsTotalOrder(m, n, n);
    }
  }

  lemma {:induction false} MinimumExists(keys: set<Atom>)
    requires keys != {}
    ensures exists m :: IsHillMinimum(m, keys)
    decreases |keys|
  {
    var x :| x in keys;
    HillCompareIsTotalOrder(x, x, x);
    if keys - {x} == {} {
      assert keys == {x};
      assert IsHillMinimum(x, keys);
    } else {
      MinimumExists(keys - {x});
      var m :| IsHillMinimum(m, keys - {x});
      if HillLess(x, m) {
        forall y | y in keys ensures HillCompare(x, y) <= 0 {
          if y != x && y != m {
            HillCompareIsTotalOrder(m, y, y);
            HillCompareIsTotalOrder(x, m, y);
          }
        }
        assert IsHillMinimum(x, keys);
      } else {
        HillCompareIsTotalOrder(x, m, m);
        assert IsHillMinimum(m, keys);
      }
    }
  }

  /** The keys of a tally in Hill order: `sorted(atoms.keys(), cmp=_hill_compare)`. */
  function SortedAtoms(keys: set<Atom>): (r: seq<Atom>)
    ensures |r| == |keys|
    ensures forall a :: a in keys <==> a in r
    ensures StrictlySorted(r)
    decreases |keys|
  {
    if keys == {} then []
    else
      MinimumExists(keys);
      MinimumUnique(keys);
      var m :| IsHillMinimum(m, keys);
      var rest := SortedAtoms(keys - {m});
      MinimumIsLess(m, keys);
      assert forall j :: 0 <= j < |rest| ==> rest[j] in rest && rest[j] in keys - {m};
      ConsSorted(m, rest);
      assert forall a :: a in keys <==> a in [m] + rest by {
        assert forall a :: a in [m] + rest <==> a == m || a in rest;
      }
      [m] + rest
  }

  lemma ConsSorted(m: Atom, rest: seq<Atom>)
    requires StrictlySorted(rest)
    requires forall j :: 0 <= j < |rest| ==> HillLess(m, rest[j])
    ensures StrictlySorted([m] + rest)
  {
    var r := [m] + rest;
    forall i, j | 0 <= i < j < |r| ensures HillLess(r[i], r[j]) {
      assert r[j] == rest[j - 1];
      if i > 0 {
        assert r[i] == rest[i - 1];
      }
    }
  }

  /** A flat tree whose atoms are strictly increasing in Hill order. */
  predicate IsHillForm(s: seq<Pair>)
  {
    && (forall i :: 0 <= i < |s| ==> s[i].fragment.Leaf?)
    && (forall i, j :: 0 <= i < j < |s| ==> HillLess(s[i].fragment.atom, s[j].fragment.atom))
  }

  /**
   * `_convert_to_hill_notation`: one (count, atom) node per atomic unit of
   * the tally, in Hill order, each carrying the atom's total count.
   */
  function HillNotation(m: Tally): (s: seq<Pair>)
    ensures |s| == |m.Keys|
    ensures IsHillForm(s)
    ensures forall i :: 0 <= i < |s| ==> s[i].fragment.atom in m && s[i].count == m[s[i].fragment.atom]
    ensures forall a :: a in m ==> Pair(m[a], Leaf(a)) in s
  {
    var keys := SortedAtoms(m.Keys);
    PairsOfSorted(m, keys);
    PairsOf(m, keys)
  }

  /** The nodes of a sorted listing of a tally's keys are its Hill notation. */
  lemma PairsOfSorted(m: Tally, keys: seq<Atom>)
    requires |keys| == |m.Keys| && StrictlySorted(keys)
    requires forall a :: a in m.Keys <==> a in keys
    ensures forall i :: 0 <= i < |keys| ==> keys[i] in m
    ensures var s := PairsOf(m, keys);
            && |s| == |m.Keys|
            && IsHillForm(s)
            && (forall i :: 0 <= i < |s| ==> s[i].fragment.atom in m && s[i].count == m[s[i].fragment.atom])
            && (forall a :: a in m ==> Pair(m[a], Leaf(a)) in s)
  {
    KeysInTally(m, keys);
    HillFormOf(m, keys);
    PairsOfCovers(m, keys);
  }

  lemma KeysInTally(m: Tally, keys: seq<Atom>)
    requires forall a :: a in m.Keys <==> a in keys
    ensures forall i :: 0 <= i < |keys| ==> keys[i] in m
  {
    forall i | 0 <= i < |keys| ensures keys[i] in m {
      assert keys[i] in keys;
    }
  }

  lemma PairsOfCovers(m: Tally, keys: seq<Atom>)
    requires forall i :: 0 <= i < |keys| ==> keys[i] in m
    requires forall a :: a in m.Keys <==> a in keys
    ensures forall a :: a in m ==> Pair(m[a], Leaf(a)) in PairsOf(m, keys)
  {
    var s := PairsOf(m, keys);
    forall a | a in m ensures Pair(m[a], Leaf(a)) in s {
      var i :| 0 <= i < |keys| && keys[i] == a;
      assert s[i] == Pair(m[a], Leaf(a));
    }
  }

  /** The (count, atom) node of each listed key, in the listed order. */
  function PairsOf(m: Tally, keys: seq<Atom>): (s: seq<Pair>)
    requires forall i :: 0 <= i < |keys| ==> keys[i] in m
    ensures |s| == |keys|
    ensures forall i :: 0 <= i < |s| ==> s[i] == Pair(m[keys[i]], Leaf(keys[i]))
  {
    if keys == [] then [] else [Pair(m[keys[0]], Leaf(keys[0]))] + PairsOf(m, keys[1..])
  }

  lemma HillFormOf(m: Tally, keys: seq<Atom>)
    requires forall i :: 0 <= i < |keys| ==> keys[i] in m
    requires StrictlySorted(keys)
    ensures IsHillForm(PairsOf(m, keys))
  {
    var s := PairsOf(m, keys);
    forall i, j | 0 <= i < j < |s| ensures HillLess(s[i].fragment.atom, s[j].fragment.atom) {
      assert s[i].fragment.atom == keys[i] && s[j].fragment.atom == keys[j];
    }
  }

  /** The atoms named by a flat tree. */
  function AtomSet(s: seq<Pair>): set<Atom>
    requires forall i :: 0 <= i < |s| ==> s[i].fragment.Leaf?
  {
    set i | 0 <= i < |s| :: s[i].fragment.atom
  }

  /** A flat tree naming each atom at most once. */
  predicate IsFlatDistinct(s: seq<Pair>)
  {
    && (forall i :: 0 <= i < |s| ==> s[i].fragment.Leaf?)
    && (forall i, j :: 0 <= i < j < |s| ==> s[i].fragment.atom != s[j].fragment.atom)
  }

  lemma HillFormIsFlatDistinct(s: seq<Pair>)
    requires IsHillForm(s)
    ensures IsFlatDistinct(s)
  {
    forall i, j | 0 <= i < j < |s| ensures s[i].fragment.atom != s[j].fragment.atom {
      var a := s[i].fragment.atom;
      HillCompareIsTotalOrder(a, a, a);
      assert HillLess(a, s[j].fragment.atom);
    }
  }

  /** Appending one atom node to a tree adds its count to that atom only. */
  lemma TallyOfSnocLeaf(s: seq<Pair>)
    requires s != [] && s[|s| - 1].fragment.Leaf?
    ensures var a := s[|s| - 1].fragment.atom;
            && TallyOf(s).Keys == TallyOf(s[..|s| - 1]).Keys + {a}
            && Get(TallyOf(s), a) == Get(TallyOf(s[..|s| - 1]), a) + s[|s| - 1].count
            && forall b :: b != a ==> Get(TallyOf(s), b) == Get(TallyOf(s[..|s| - 1]), b)
  {
    var a := s[|s| - 1].fragment.atom;
    assert PartialTally(s[|s| - 1]) == map[a := 1.0];
  }

  /** A flat tree tallies exactly the atoms it names. */
  lemma {:induction false} FlatTallyKeys(s: seq<Pair>)
    requires forall i :: 0 <= i < |s| ==> s[i].fragment.Leaf?
    ensures TallyOf(s).Keys == AtomSet(s)
    decreases |s|
  {
    if s != [] {
      var n := |s| - 1;
      var front := s[..n];
      FlatTallyKeys(front);
      TallyOfSnocLeaf(s);
      AtomSetSnoc(s);
    }
  }

  lemma AtomSetSnoc(s: seq<Pair>)
    requires s != [] && forall i :: 0 <= i < |s| ==> s[i].fragment.Leaf?
    ensures AtomSet(s) == AtomSet(s[..|s| - 1]) + {s[|s| - 1].fragment.atom}
  {
    var n := |s| - 1;
    var front := s[..n];
    forall x | x in AtomSet(s) ensures x in AtomSet(front) + {s[n].fragment.atom} {
      var i :| 0 <= i < |s| && s[i].fragment.atom == x;
      if i < n { assert front[i].fragment.atom == x; }
    }
    forall x | x in AtomSet(front) ensures x in AtomSet(s) {
      var i :| 0 <= i < n && front[i].fragment.atom == x;
      assert s[i].fragment.atom == x;
    }
  }

  /** A flat tree with distinct atoms tallies each atom to its own count. */
  lemma {:induction false} FlatTally(s: seq<Pair>)
    requires IsFlatDistinct(s)
    ensures TallyOf(s).Keys == AtomSet(s)
    ensures forall i :: 0 <= i < |s| ==> Get(TallyOf(s), s[i].fragment.atom) == s[i].count
    decreases |s|
  {
    FlatTallyKeys(s);
    if s != [] {
      var n := |s| - 1;
      var front := s[..n];
      assert IsFlatDistinct(front);
      FlatTally(front);
      TallyOfSnocLeaf(s);
      var a := s[n].fragment.atom;
      assert a !in TallyOf(front) by {
        forall k | 0 <= k < n ensures front[k].fragment.atom != a {
          assert front[k] == s[k];
        }
      }
      forall i | 0 <= i < n ensures Get(TallyOf(s), s[i].fragment.atom) == s[i].count {
        assert front[i] == s[i];
      }
    }
  }

  /** Hill notation keeps the tally: re-counting it gives the tally back. */
  lemma HillPreservesTally(m: Tally)
    ensures TallyOf(HillNotation(m)) == m
  {
    var s := HillNotation(m);
    HillFormIsFlatDistinct(s);
    FlatTally(s);
    forall a | a in m ensures a in AtomSet(s) && Get(TallyOf(s), a) == Get(m, a) {
      HillNotationEntry(m, s, a);
    }
    HillNotationKeys(m, s);
    TallyEq(TallyOf(s), m);
  }

  lemma HillNotationEntry(m: Tally, s: seq<Pair>, a: Atom)
    requires a in m && Pair(m[a], Leaf(a)) in s
    requires forall i :: 0 <= i < |s| ==> s[i].fragment.Leaf?
    requires TallyOf(s).Keys == AtomSet(s)
    requires forall i :: 0 <= i < |s| ==> Get(TallyOf(s), s[i].fragment.atom) == s[i].count
    ensures a in AtomSet(s) && Get(TallyOf(s), a) == Get(m, a)
  {
    var i :| 0 <= i < |s| && s[i] == Pair(m[a], Leaf(a));
    assert s[i].fragment.atom == a;
  }

  lemma HillNotationKeys(m: Tally, s: seq<Pair>)
    requires forall i :: 0 <= i < |s| ==> s[i].fragment.Leaf? && s[i].fragment.atom in m
    requires forall a :: a in m ==> Pair(m[a], Leaf(a)) in s
    ensures AtomSet(s) == m.Keys
  {
    forall a | a in AtomSet(s) ensures a in m {
      var i :| 0 <= i < |s| && s[i].fragment.atom == a;
    }
    forall a | a in m ensures a in AtomSet(s) {
      var i :| 0 <= i < |s| && s[i] == Pair(m[a], Leaf(a));
      assert s[i].fragment.atom == a;
    }
  }

  /** The Hill order of a key set is the only strictly sorted listing of it. */
  lemma {:induction false} SortedAtomsUnique(r: seq<Atom>, keys: set<Atom>)
    requires StrictlySorted(r)
    requires forall a :: a in keys <==> a in r
    ensures r == SortedAtoms(keys)
    decreases |r|
  {
    if r == [] {
      assert forall a :: a !in keys;
      assert keys == {};
    } else {
      assert r[0] in r;
      SortedAtomsUniqueStep(r, keys);
      var m := r[0];
      SortedAtomsUnique(r[1..], keys - {m});
      assert r == [m] + r[1..];
    }
  }

  lemma SortedAtomsUniqueStep(r: seq<Atom>, keys: set<Atom>)
    requires StrictlySorted(r)
    requires forall a :: a in keys <==> a in r
    requires keys != {}
    ensures r != [] && SortedAtoms(keys) != []
    ensures r[0] == SortedAtoms(keys)[0]
    ensures SortedAtoms(keys)[1..] == SortedAtoms(keys - {r[0]})
    ensures StrictlySorted(r[1..]) && forall a :: a in keys - {r[0]} <==> a in r[1..]
  {
    var sorted := SortedAtoms(keys);
    var k :| k in keys;
    assert k in r;
    assert sorted[0] in sorted;
    SortedHeadIsMinimum(r, keys);
    SortedHeadIsMinimum(sorted, keys);
    MinimumUnique(keys);
    SortedAtomsTail(keys);
    SortedTail(r, keys);
  }

  lemma SortedHeadIsMinimum(r: seq<Atom>, keys: set<Atom>)
    requires StrictlySorted(r) && r != []
    requires forall a :: a in keys <==> a in r
    ensures IsHillMinimum(r[0], keys)
  {
    assert r[0] in r;
    forall x | x in keys ensures HillCompare(r[0], x) <= 0 {
      var j :| 0 <= j < |r| && r[j] == x;
      if j == 0 { HillCompareIsTotalOrder(x, x, x); } else { assert HillLess(r[0], r[j]); }
    }
  }

  lemma SortedTail(r: seq<Atom>, keys: set<Atom>)
    requires StrictlySorted(r) && r != []
    requires forall a :: a in keys <==> a in r
    ensures StrictlySorted(r[1..])
    ensures forall a :: a in keys - {r[0]} <==> a in r[1..]
  {
    var tail := r[1..];
    forall i, j | 0 <= i < j < |tail| ensures HillLess(tail[i], tail[j]) {
      assert tail[i] == r[i + 1] && tail[j] == r[j + 1];
    }
    forall a ensures a in keys - {r[0]} <==> a in tail {
      if a in tail {
        var j :| 0 <= j < |tail| && tail[j] == a;
        assert r[j + 1] == a;
        assert HillLess(r[0], r[j + 1]);
        HillCompareIsTotalOrder(a, a, a);
      }
      if a in keys - {r[0]} {
        var j :| 0 <= j < |r| && r[j] == a;
        assert tail[j - 1] == a;
      }
    }
  }

  /** Past its first atom, a Hill order lists the remaining keys in Hill order. */
  lemma SortedAtomsTail(keys: set<Atom>)
    requires keys != {}
    ensures var r := SortedAtoms(keys);
            r[1..] == SortedAtoms(keys - {r[0]})
  {
    MinimumExists(keys);
    MinimumUnique(keys);
  }

  /**
   * Hill notation is the unique canonical form: any flat tree in Hill order
   * with tally `m` is `HillNotation(m)`.
   */
  lemma HillNotationUnique(s: seq<Pair>, m: Tally)
    requires IsHillForm(s) && TallyOf(s) == m
    ensures s == HillNotation(m)
  {
    HillFormIsFlatDistinct(s);
    var r := AtomList(s);
    AtomListSorted(s);
    AtomListMembers(s);
    FlatTally(s);
    SortedAtomsUnique(r, m.Keys);
    PairsOfFlat(s);
  }

  /** The atoms of a flat tree, in order. */
  function AtomList(s: seq<Pair>): (r: seq<Atom>)
    requires forall i :: 0 <= i < |s| ==> s[i].fragment.Leaf?
    ensures |r| == |s| && forall i :: 0 <= i < |s| ==> r[i] == s[i].fragment.atom
  {
    seq(|s|, i requires 0 <= i < |s| => s[i].fragment.atom)
  }

  lemma AtomListSorted(s: seq<Pair>)
    requires IsHillForm(s)
    ensures StrictlySorted(AtomList(s))
  {
  }

  lemma AtomListMembers(s: seq<Pair>)
    requires forall i :: 0 <= i < |s| ==> s[i].fragment.Leaf?
    ensures forall a :: a in AtomSet(s) <==> a in AtomList(s)
  {
    var r := AtomList(s);
    forall a ensures a in AtomSet(s) <==> a in r {
      if a in AtomSet(s) {
        var i :| 0 <= i < |s| && s[i].fragment.atom == a;
        assert r[i] == a;
      }
      if a in r {
        var i :| 0 <= i < |r| && r[i] == a;
        assert s[i].fragment.atom == a;
      }
    }
  }

  /** A flat tree with distinct atoms is rebuilt from its tally and its atom order. */
  lemma PairsOfFlat(s: seq<Pair>)
    requires IsFlatDistinct(s)
    ensures forall i :: 0 <= i < |s| ==> s[i].fragment.atom in TallyOf(s)
    ensures PairsOf(TallyOf(s), AtomList(s)) == s
  {
    FlatTally(s);
    var r := AtomList(s);
    forall i | 0 <= i < |s| ensures s[i].fragment.atom in TallyOf(s) {
      assert s[i].fragment.atom in AtomSet(s);
    }
    var p := PairsOf(TallyOf(s), r);
    forall i | 0 <= i < |s| ensures p[i] == s[i] {
      assert Get(TallyOf(s), r[i]) == s[i].count;
    }
  }

  /** Two trees have the same Hill notation exactly when they have the same tally. */
  lemma HillNotationCanonical(s1: seq<Pair>, s2: seq<Pair>)
    ensures HillNotation(TallyOf(s1)) == HillNotation(TallyOf(s2)) <==> TallyOf(s1) == TallyOf(s2)
  {
    HillPreservesTally(TallyOf(s1));
    HillPreservesTally(TallyOf(s2));
  }

  /** The tally of a two-node flat tree naming two different atoms. */
  lemma TwoAtomTally(x: Atom, cx: real, y: Atom, cy: real)
    requires x != y
    ensures TallyOf([Pair(cx, Leaf(x)), Pair(cy, Leaf(y))]) == map[x := cx, y := cy]
  {
    var s := [Pair(cx, Leaf(x)), Pair(cy, Leaf(y))];
    assert IsFlatDistinct(s);
    FlatTally(s);
    assert AtomSet(s) == {x, y} by {
      assert s[0].fragment.atom == x && s[1].fragment.atom == y;
    }
    assert Get(TallyOf(s), x) == cx && Get(TallyOf(s), y) == cy by {
      assert s[0].count == cx && s[1].count == cy;
    }
    TallyEq(TallyOf(s), map[x := cx, y := cy]);
  }

  /** "OH2" and "H2O" differ as trees but share the Hill notation H2O. */
  lemma WaterHillNotation()
    ensures var h := Atom("H", 0);
            var o := Atom("O", 0);
            var oh2 := [Pair(1.0, Leaf(o)), Pair(2.0, Leaf(h))];
            var h2o := [Pair(2.0, Leaf(h)), Pair(1.0, Leaf(o))];
            oh2 != h2o && HillNotation(TallyOf(oh2)) == h2o && HillNotation(TallyOf(h2o)) == h2o
  {
    var h := Atom("H", 0);
    var o := Atom("O", 0);
    var oh2 := [Pair(1.0, Leaf(o)), Pair(2.0, Leaf(h))];
    var h2o := [Pair(2.0, Leaf(h)), Pair(1.0, Leaf(o))];
    assert HillLess(h, o);
    assert IsHillForm(h2o);
    TwoAtomTally(o, 1.0, h, 2.0);
    TwoAtomTally(h, 2.0, o, 1.0);
    assert map[o := 1.0, h := 2.0] == map[h := 2.0, o := 1.0];
    HillNotationUnique(h2o, TallyOf(h2o));
    assert oh2[0] != h2o[0];
  }
}
