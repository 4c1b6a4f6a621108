/**
 * The structure-level operations behind `Formula.__add__`, `__iadd__` and
 * `__rmul__`, and what they do to the atom tally and the mass.
 */
module Algebra {
  import opened Atoms
  import opened Structure
  import opened Hill

  /** `formula + formula`: the two structures side by side. */
  function Join(a: seq<Pair>, b: seq<Pair>): (r: seq<Pair>)
    ensures |r| == |a| + |b|
  {
    a + b
  }

  /** Joining adds the tallies. */
  lemma JoinTally(a: seq<Pair>, b: seq<Pair>)
    ensures TallyOf(Join(a, b)) == Add(TallyOf(a), TallyOf(b))
  {
    TallyOfAppend(a, b);
  }

  /**
   * `n * formula`: unchanged when n is 1 or the structure is empty, the
   * single node's count multiplied when there is one node, and otherwise
   * the whole structure wrapped as one group of count n.
   */
  function Times(n: real, s: seq<Pair>): (r: seq<Pair>)
    ensures |r| <= 1 || r == s
  {
    if n == 1.0 || s == [] then s
    else if |s| == 1 then [ScalePair(n, s[0])]
    else [Pair(n, Group(s))]
  }

  /** One node with its count multiplied by `n`. */
  function ScalePair(n: real, p: Pair): Pair
  {
    Pair(n * p.count, p.fragment)
  }

  /** Scaling a formula by `n` scales its tally by `n`, in each of the three shapes. */
  lemma TimesTally(n: real, s: seq<Pair>)
    ensures TallyOf(Times(n, s)) == Scale(TallyOf(s), n)
  {
    if n == 1.0 || s == [] {
      ScaleOne(TallyOf(s));
    } else if |s| == 1 {
      assert s == [s[0]];
      TimesSingle(n, s[0]);
    } else {
      TimesWrap(n, s);
    }
  }

  lemma ScaleOne(m: Tally)
    ensures Scale(m, 1.0) == m
  {
    TallyEq(Scale(m, 1.0), m);
  }

  lemma ScaleScale(m: Tally, a: real, b: real)
    ensures Scale(Scale(m, a), b) == Scale(m, b * a)
  {
    var inner := Scale(m, a);
    var outer := Scale(inner, b);
    var direct := Scale(m, b * a);
    forall x | x in m ensures outer[x] == direct[x] {
      ScaleScaleAt(m, a, b, x);
    }
  }

  lemma ScaleScaleAt(m: Tally, a: real, b: real, x: Atom)
    requires x in m
    ensures Scale(Scale(m, a), b)[x] == Scale(m, b * a)[x]
  {
    ScaleTwiceAt(m, a, b, b * a, x);
  }

  lemma ScaleTwiceAt(m: Tally, a: real, b: real, ba: real, x: Atom)
    requires ba == b * a
    ensures Get(Scale(Scale(m, a), b), x) == Get(Scale(m, ba), x)
  {
    GetScale(m, a, x);
    GetScale(Scale(m, a), b, x);
    GetScale(m, ba, x);
    MulTwiceAt(a, b, ba, Get(m, x), Get(Scale(m, a), x), Get(Scale(Scale(m, a), b), x), Get(Scale(m, ba), x));
  }

  lemma ScaleAdd(m1: Tally, m2: Tally, c: real)
    ensures Scale(Add(m1, m2), c) == Add(Scale(m1, c), Scale(m2, c))
  {
    forall x ensures Get(Scale(Add(m1, m2), c), x) == Get(Add(Scale(m1, c), Scale(m2, c)), x) {
      ScaleAddAt(m1, m2, c, x);
    }
    TallyEq(Scale(Add(m1, m2), c), Add(Scale(m1, c), Scale(m2, c)));
  }

  lemma ScaleAddAt(m1: Tally, m2: Tally, c: real, x: Atom)
    ensures Get(Scale(Add(m1, m2), c), x) == Get(Add(Scale(m1, c), Scale(m2, c)), x)
  {
    var g1, g2 := Get(m1, x), Get(m2, x);
    ScaleOfSumAt(m1, m2, c, x);
    SumOfScalesAt(m1, m2, c, x);
    MulDistribAt(c, g1, g2, g1 + g2);
  }

  lemma ScaleOfSumAt(m1: Tally, m2: Tally, c: real, x: Atom)
    ensures Get(Scale(Add(m1, m2), c), x) == c * (Get(m1, x) + Get(m2, x))
  {
    var sum := Add(m1, m2);
    GetAdd(m1, m2, x);
    GetScale(sum, c, x);
  }

  lemma SumOfScalesAt(m1: Tally, m2: Tally, c: real, x: Atom)
    ensures Get(Add(Scale(m1, c), Scale(m2, c)), x) == c * Get(m1, x) + c * Get(m2, x)
  {
    var s1, s2 := Scale(m1, c), Scale(m2, c);
    GetScale(m1, c, x);
    GetScale(m2, c, x);
    GetAdd(s1, s2, x);
  }

  lemma TimesSingle(n: real, p: Pair)
    ensures TallyOf([ScalePair(n, p)]) == Scale(TallyOf([p]), n)
  {
    var q := ScalePair(n, p);
    var part := PartialTally(p);
    TallyOfSingle(p);
    TallyOfSingle(q);
    assert PartialTally(q) == part;
    ScaleScaleTo(part, p.count, n, q.count);
  }

  lemma ScaleScaleTo(m: Tally, a: real, b: real, ba: real)
    requires ba == b * a
    ensures Scale(m, ba) == Scale(Scale(m, a), b)
  {
    ScaleScale(m, a, b);
  }

  lemma TimesWrap(n: real, s: seq<Pair>)
    ensures TallyOf([Pair(n, Group(s))]) == Scale(TallyOf(s), n)
  {
    TallyOfSingle(Pair(n, Group(s)));
    assert PartialTally(Pair(n, Group(s))) == TallyOf(s);
  }

  /** Scaling distributes over joining, at the level of the tally. */
  lemma TimesJoin(n: real, a: seq<Pair>, b: seq<Pair>)
    ensures TallyOf(Times(n, Join(a, b))) == TallyOf(Join(Times(n, a), Times(n, b)))
  {
    JoinTally(a, b);
    TimesTally(n, Join(a, b));
    TimesTally(n, a);
    TimesTally(n, b);
    JoinTally(Times(n, a), Times(n, b));
    ScaleAdd(TallyOf(a), TallyOf(b), n);
  }

  /** Repeated scaling multiplies the factors, at the level of the tally. */
  lemma TimesTimes(n: real, k: real, s: seq<Pair>)
    ensures TallyOf(Times(n, Times(k, s))) == TallyOf(Times(n * k, s))
  {
    TimesTally(k, s);
    TimesTally(n, Times(k, s));
    TimesTally(n * k, s);
    ScaleScale(TallyOf(s), k, n);
  }

  /**
   * Joining is commutative for the tally, hence for the Hill notation, but
   * not for the structure: "H" + "O" and "O" + "H" are different formulas.
   */
  lemma JoinCommutesInHill(a: seq<Pair>, b: seq<Pair>)
    ensures TallyOf(Join(a, b)) == TallyOf(Join(b, a))
    ensures HillNotation(TallyOf(Join(a, b))) == HillNotation(TallyOf(Join(b, a)))
  {
    JoinTally(a, b);
    JoinTally(b, a);
    var l := TallyOf(Join(a, b));
    var r := TallyOf(Join(b, a));
    TallyEq(l, r);
  }

  lemma JoinNotCommutative()
    ensures var h := [Pair(1.0, Leaf(Atom("H", 0)))];
            var o := [Pair(1.0, Leaf(Atom("O", 0)))];
            Join(h, o) != Join(o, h)
  {
    var h := [Pair(1.0, Leaf(Atom("H", 0)))];
    var o := [Pair(1.0, Leaf(Atom("O", 0)))];
    assert Join(h, o)[0] != Join(o, h)[0];
  }
}
