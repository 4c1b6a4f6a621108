/**
 * The formula tree of periodictable/formulas.py: a sequence of
 * (count, fragment) pairs whose fragments are atoms or nested sequences,
 * the check that turns a hand-built Python structure into such a tree, and
 * the atom tally (`_count_atoms`).
 */
module Structure {
  import opened Atoms

  /** A fragment is an atomic unit (a leaf) or a nested formula (a group). */
  datatype Fragment = Leaf(atom: Atom) | Group(items: seq<Pair>)

  /** One (count, fragment) node. */
  datatype Pair = Pair(count: real, fragment: Fragment)

  /** Atom tally: total count per atomic unit. */
  type Tally = map<Atom, real>

  // ---------------------------------------------------------------------
  // Hand-built structures (`_check_atoms`, `_immutable`)
  // ---------------------------------------------------------------------

  /**
   * The Python values a hand-built structure can be made of. `_check_atoms`
   * and `_immutable` only iterate, so every iterable value (a list, a tuple,
   * a dict, a string, ...) is a `Sequence` of the elements its iteration
   * yields, in that order; `Other` is a value that cannot be iterated.
   */
  datatype PyValue =
    | Number(n: real)
    | AtomValue(atom: Atom)
    | Sequence(elements: seq<PyValue>)   // any iterable, in its iteration order
    | Other                              // not iterable (None, ...)

  /** `_check_atoms`: a sequence of pairs (number, atom or such a sequence). */
  predicate CheckAtoms(v: PyValue)
    decreases v, 1
  {
    v.Sequence? && forall i :: 0 <= i < |v.elements| ==> CheckPair(v.elements[i])
  }

  predicate CheckPair(p: PyValue)
    decreases p, 0
  {
    && p.Sequence? && |p.elements| == 2
    && p.elements[0].Number?
    && (p.elements[1].AtomValue? || CheckAtoms(p.elements[1]))
  }

  /** `_immutable` on a checked structure: the tree it denotes. */
  function Immutable(v: PyValue): (s: seq<Pair>)
    requires CheckAtoms(v)
    ensures |s| == |v.elements|
    decreases v, 1
  {
    ImmutableFrom(v, 0)
  }

  function ImmutableFrom(v: PyValue, k: nat): (s: seq<Pair>)
    requires CheckAtoms(v) && k <= |v.elements|
    ensures |s| == |v.elements| - k
    decreases v, 0, |v.elements| - k
  {
    if k == |v.elements| then []
    else
      var p := v.elements[k];
      assert CheckPair(p);
      var fragment := if p.elements[1].AtomValue? then Leaf(p.elements[1].atom)
                      else Group(Immutable(p.elements[1]));
      [Pair(p.elements[0].n, fragment)] + ImmutableFrom(v, k + 1)
  }

  /** The nested tuples that a tree is written as in Python. */
  function ToPython(s: seq<Pair>): (v: PyValue)
    ensures v.Sequence? && |v.elements| == |s|
    decreases s
  {
    if s == [] then Sequence([])
    else Sequence(ToPython(s[..|s| - 1]).elements + [PairToPython(s[|s| - 1])])
  }

  function PairToPython(p: Pair): PyValue
    decreases p
  {
    match p.fragment
    case Leaf(a) => Sequence([Number(p.count), AtomValue(a)])
    case Group(items) => Sequence([Number(p.count), ToPython(items)])
  }

  /** Every tree passes the check, and `_immutable` gives it back. */
  lemma {:induction false} ToPythonChecks(s: seq<Pair>)
    ensures CheckAtoms(ToPython(s)) && Immutable(ToPython(s)) == s
    decreases s
  {
    if s != [] {
      ToPythonChecks(s[..|s| - 1]);
      PairToPythonChecks(s[|s| - 1]);
      var v := ToPython(s);
      ImmutableFromSuffix(v, s, 0);
      assert s[0..] == s;
    }
  }

  lemma {:induction false} PairToPythonChecks(p: Pair)
    ensures p.fragment.Group? ==>
              CheckAtoms(ToPython(p.fragment.items)) && Immutable(ToPython(p.fragment.items)) == p.fragment.items
    decreases p
  {
    if p.fragment.Group? {
      ToPythonChecks(p.fragment.items);
    }
  }

  /** Conversely, a checked structure is exactly the tuples of the tree `_immutable` makes of it. */
  lemma {:induction false} ImmutableToPython(v: PyValue)
    requires CheckAtoms(v)
    ensures ToPython(Immutable(v)) == v
    decreases v
  {
    var s := Immutable(v);
    var w := ToPython(s);
    forall i | 0 <= i < |s|
      ensures w.elements[i] == v.elements[i]
    {
      ToPythonAt(s, i);
      ImmutableFromPrefix(v, i);
      var p := v.elements[i];
      assert CheckPair(p);
      if !p.elements[1].AtomValue? {
        ImmutableToPython(p.elements[1]);
      }
      assert p == Sequence([p.elements[0], p.elements[1]]);
    }
    assert w.elements == v.elements;
  }

  lemma {:induction false} ToPythonAt(s: seq<Pair>, i: nat)
    requires i < |s|
    ensures ToPython(s).elements[i] == PairToPython(s[i])
    decreases |s|
  {
    if i < |s| - 1 {
      ToPythonAt(s[..|s| - 1], i);
    }
  }

  lemma {:induction false} ImmutableFromSuffix(v: PyValue, s: seq<Pair>, k: nat)
    requires s != [] && v == ToPython(s) && k <= |s|
    requires CheckAtoms(ToPython(s[..|s| - 1])) && Immutable(ToPython(s[..|s| - 1])) == s[..|s| - 1]
    requires s[|s| - 1].fragment.Group? ==>
               CheckAtoms(ToPython(s[|s| - 1].fragment.items))
               && Immutable(ToPython(s[|s| - 1].fragment.items)) == s[|s| - 1].fragment.items
    ensures CheckAtoms(v) && ImmutableFrom(v, k) == s[k..]
    decreases |s| - k
  {
    var front := ToPython(s[..|s| - 1]);
    assert v.elements == front.elements + [v.elements[|s| - 1]];
    assert CheckAtoms(v) by {
      forall i | 0 <= i < |v.elements| ensures CheckPair(v.elements[i]) {
        if i < |s| - 1 {
          assert v.elements[i] == front.elements[i];
        }
      }
    }
    if k < |s| {
      ImmutableFromSuffix(v, s, k + 1);
      if k < |s| - 1 {
        assert v.elements[k] == front.elements[k];
        ImmutableFromPrefix(front, k);
        assert ImmutableFrom(front, k)[0] == s[..|s| - 1][k];
      }
      assert s[k..] == [s[k]] + s[k + 1..];
    }
  }

  lemma ImmutableFromPrefix(v: PyValue, k: nat)
    requires CheckAtoms(v) && k < |v.elements|
    ensures ImmutableFrom(v, k)[0] == Immutable(v)[k]
  {
    ImmutableFromDrop(v, 0, k);
  }

  lemma {:induction false} ImmutableFromDrop(v: PyValue, j: nat, k: nat)
    requires CheckAtoms(v) && j <= k < |v.elements|
    ensures ImmutableFrom(v, k)[0] == ImmutableFrom(v, j)[k - j]
    decreases k - j
  {
    if j < k {
      ImmutableFromDrop(v, j + 1, k);
    }
  }

  // ---------------------------------------------------------------------
  // Tally algebra
  // ---------------------------------------------------------------------

  /** The count of `a` in a tally, 0 when absent. */
  function Get(m: Tally, a: Atom): real
  {
    if a in m then m[a] else 0.0
  }

  /** Pointwise sum of two tallies. */
  function Add(m1: Tally, m2: Tally): (r: Tally)
    ensures r.Keys == m1.Keys + m2.Keys
    ensures forall a :: Get(r, a) == Get(m1, a) + Get(m2, a)
  {
    map a | a in m1.Keys + m2.Keys :: Get(m1, a) + Get(m2, a)
  }

  /** Every count multiplied by `c`. */
  function Scale(m: Tally, c: real): (r: Tally)
    ensures r.Keys == m.Keys
    ensures forall a :: Get(r, a) == c * Get(m, a)
  {
    map a | a in m :: c * m[a]
  }

  lemma GetAdd(m1: Tally, m2: Tally, a: Atom)
    ensures Get(Add(m1, m2), a) == Get(m1, a) + Get(m2, a)
  {
  }

  lemma GetScale(m: Tally, c: real, a: Atom)
    ensures Get(Scale(m, c), a) == c * Get(m, a)
  {
  }

  // Real arithmetic steps, each stated over plain variables so that the
  // solver meets only the product it needs.

  lemma MulAssocAt(x: real, y: real, z: real, yz: real, xy: real)
    requires yz == y * z && xy == x * y
    ensures x * yz == xy * z
  {
  }

  lemma MulTwiceAt(a: real, b: real, ba: real, g: real, ag: real, bag: real, bag2: real)
    requires ba == b * a
    requires ag == a * g
    requires bag == b * ag
    requires bag2 == ba * g
    ensures bag == bag2
  {
    MulAssocAt(b, a, g, ag, ba);
  }

  lemma MulSwapAt(x: real, y: real, z: real, yz: real)
    requires yz == y * z
    ensures x * yz == y * (x * z)
  {
  }

  lemma MulDistribAt(x: real, y: real, z: real, sum: real)
    requires sum == y + z
    ensures x * sum == x * y + x * z
  {
  }

  lemma TallyEq(m1: Tally, m2: Tally)
    requires m1.Keys == m2.Keys
    requires forall a :: Get(m1, a) == Get(m2, a)
    ensures m1 == m2
  {
    forall a | a in m1 ensures m1[a] == m2[a] {
      assert Get(m1, a) == Get(m2, a);
    }
  }

  // ---------------------------------------------------------------------
  // `_count_atoms`
  // ---------------------------------------------------------------------

  /**
   * The tally of a tree: every node adds count x (tally of its fragment),
   * summing an atom over all the places it occurs. Defined by the last
   * node, the order in which `_count_atoms` accumulates.
   */
  function TallyOf(s: seq<Pair>): Tally
    decreases s
  {
    if s == [] then map[]
    else
      var last := s[|s| - 1];
      Add(TallyOf(s[..|s| - 1]), Scale(PartialTally(last), last.count))
  }

  /** The `partial` tally of one node's fragment, before its count is applied. */
  function PartialTally(p: Pair): Tally
    decreases p
  {
    match p.fragment
    case Leaf(a) => map[a := 1.0]
    case Group(items) => TallyOf(items)
  }

  /** `_count_atoms`: builds the `total` dictionary node by node. */
  method CountAtoms(s: seq<Pair>) returns (total: Tally)
    ensures total == TallyOf(s)
    decreases s
  {
    total := map[];
    var i := 0;
    while i < |s|
      invariant 0 <= i <= |s|
      invariant total == TallyOf(s[..i])
    {
      var partial := CountPartial(s[i]);
      total := MergeInto(total, partial, s[i].count);
      assert s[..i + 1][..i] == s[..i];
      i := i + 1;
    }
    assert s[..|s|] == s;
  }

  /** The `partial` dictionary of `_count_atoms` for one node. */
  method CountPartial(p: Pair) returns (partial: Tally)
    ensures partial == PartialTally(p)
    decreases p
  {
    match p.fragment {
      case Leaf(a) =>
        partial := map[a := 1.0];
      case Group(items) =>
        partial := CountAtoms(items);
    }
  }

  /** The inner loop of `_count_atoms`: `total[el] += elcount*count` for each entry. */
  method MergeInto(total0: Tally, partial: Tally, count: real) returns (total: Tally)
    ensures total == Add(total0, Scale(partial, count))
  {
    total := total0;
    var pending := partial.Keys;
    while pending != {}
      invariant pending <= partial.Keys
      invariant total.Keys == total0.Keys + (partial.Keys - pending)
      invariant forall a :: Get(total, a) ==
                  Get(total0, a) + (if a in pending then 0.0 else count * Get(partial, a))
      decreases pending
    {
      var el :| el in pending;
      if el !in total {
        total := total[el := 0.0];
      }
      total := total[el := total[el] + partial[el] * count];
      pending := pending - {el};
    }
    TallyEq(total, Add(total0, Scale(partial, count)));
  }

  // ---------------------------------------------------------------------
  // Tally laws
  // ---------------------------------------------------------------------

  /** Concatenated trees have the pointwise sum of their tallies. */
  lemma {:induction false} TallyOfAppend(a: seq<Pair>, b: seq<Pair>)
    ensures TallyOf(a + b) == Add(TallyOf(a), TallyOf(b))
    decreases |b|
  {
    if b == [] {
      assert a + b == a;
      TallyEq(TallyOf(a), Add(TallyOf(a), map[]));
    } else {
      var last := b[|b| - 1];
      var front := b[..|b| - 1];
      assert (a + b)[..|a + b| - 1] == a + front;
      assert (a + b)[|a + b| - 1] == last;
      TallyOfAppend(a, front);
      var step := Scale(PartialTally(last), last.count);
      TallyEq(Add(Add(TallyOf(a), TallyOf(front)), step), Add(TallyOf(a), Add(TallyOf(front), step)));
    }
  }

  /** A single node tallies to its count times its partial tally. */
  lemma TallyOfSingle(p: Pair)
    ensures TallyOf([p]) == Scale(PartialTally(p), p.count)
  {
    var s := [p];
    assert s[..0] == [];
    assert TallyOf(s) == Add(map[], Scale(PartialTally(p), p.count));
    TallyEq(TallyOf(s), Scale(PartialTally(p), p.count));
  }
}
