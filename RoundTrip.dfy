/**
 * Pickling a formula writes its structure as a string (`__getstate__`
 * uses `str(self)`) and unpickling parses that string back
 * (`__setstate__` calls `_parse_string`). This module proves what comes
 * back: exactly the structure, once groups of count 1 are spliced into
 * their parents, and so always the same atom tally, provided the counts
 * are whole numbers from 1 to 999999 and the table resolves every symbol the
 * structure uses.
 */
module RoundTrip {
  import opened Wrappers
  import opened Atoms
  import opened Structure
  import opened Decimal
  import opened Printing
  import opened Grammar
  import Algebra

  // ---------------------------------------------------------------------
  // Which structures can be written and read back
  // ---------------------------------------------------------------------

  /** An element symbol: a capital letter, then lowercase letters. */
  predicate IsSymbol(symbol: string)
  {
    |symbol| >= 1 && IsUpper(symbol[0]) && forall i :: 1 <= i < |symbol| ==> IsLower(symbol[i])
  }

  /** The table reads the atom's symbol (and mass number) back as this atom. */
  predicate PrintableAtom(table: Table, a: Atom)
  {
    && IsSymbol(a.symbol)
    && table.element(a.symbol) == Some(Atom(a.symbol, 0))
    && (a.isotope != 0 ==> table.isotope(Atom(a.symbol, 0), a.isotope) == Some(a))
  }

  /** A whole count that `"%g"` writes as plain digits: at least 1 and below 1e6. */
  predicate IsPositiveWhole(c: real)
  {
    1.0 <= c < 1000000.0 && c == c.Floor as real
  }

  /** Positive whole counts and printable atoms throughout. */
  predicate Writable(table: Table, s: seq<Pair>)
    decreases s
  {
    forall i :: 0 <= i < |s| ==> WritablePair(table, s[i])
  }

  predicate WritablePair(table: Table, p: Pair)
    decreases p
  {
    && IsPositiveWhole(p.count)
    && (p.fragment.Leaf? ==> PrintableAtom(table, p.fragment.atom))
    && (p.fragment.Group? ==> Writable(table, p.fragment.items))
  }

  /**
   * Writable, and every group whose parentheses are written (count other
   * than 1) holds at least one atom, so that it is not written as "()".
   */
  predicate Printable(table: Table, s: seq<Pair>)
    decreases s
  {
    forall i :: 0 <= i < |s| ==> PrintablePair(table, s[i])
  }

  predicate PrintablePair(table: Table, p: Pair)
    decreases p
  {
    && IsPositiveWhole(p.count)
    && (p.fragment.Leaf? ==> PrintableAtom(table, p.fragment.atom))
    && (p.fragment.Group? ==>
          Printable(table, p.fragment.items)
          && (p.count != 1.0 ==> Normalize(p.fragment.items) != []))
  }

  // ---------------------------------------------------------------------
  // Splicing groups of count 1
  // ---------------------------------------------------------------------

  /** The structure with every group of count 1 spliced into its parent. */
  function Normalize(s: seq<Pair>): seq<Pair>
    decreases s
  {
    if s == [] then [] else Normalize(s[..|s| - 1]) + NormalizePair(s[|s| - 1])
  }

  function NormalizePair(p: Pair): seq<Pair>
    decreases p
  {
    match p.fragment
    case Leaf(_) => [p]
    case Group(items) =>
      if p.count == 1.0 then Normalize(items) else [Pair(p.count, Group(Normalize(items)))]
  }

  /** Splicing does not change the text: a group of count 1 is written without parentheses. */
  lemma {:induction false} NormalizeRender(s: seq<Pair>)
    ensures Render(Normalize(s)) == Render(s)
    decreases s
  {
    if s != [] {
      var front, last := s[..|s| - 1], s[|s| - 1];
      NormalizeRender(front);
      NormalizePairRender(last);
      RenderAppend(Normalize(front), NormalizePair(last));
      RenderSnoc(s);
    }
  }

  lemma {:induction false} NormalizePairRender(p: Pair)
    ensures Render(NormalizePair(p)) == RenderPiece(p)
    decreases p
  {
    match p.fragment {
      case Leaf(_) =>
        RenderOne(p);
      case Group(items) =>
        NormalizeRender(items);
        if p.count != 1.0 {
          RenderOne(Pair(p.count, Group(Normalize(items))));
        }
    }
  }

  /** Splicing does not change the atom tally. */
  lemma {:induction false} NormalizeTally(s: seq<Pair>)
    ensures TallyOf(Normalize(s)) == TallyOf(s)
    decreases s
  {
    if s != [] {
      var front, last := s[..|s| - 1], s[|s| - 1];
      NormalizeTally(front);
      NormalizePairTally(last);
      TallyOfAppend(Normalize(front), NormalizePair(last));
    }
  }

  lemma {:induction false} NormalizePairTally(p: Pair)
    ensures TallyOf(NormalizePair(p)) == Scale(PartialTally(p), p.count)
    decreases p
  {
    match p.fragment {
      case Leaf(_) =>
        TallyOfSingle(p);
      case Group(items) =>
        NormalizeTally(items);
        if p.count == 1.0 {
          Algebra.ScaleOne(TallyOf(items));
        } else {
          TallyOfSingle(Pair(p.count, Group(Normalize(items))));
        }
    }
  }

  /** A printable structure splices into the shape the parser produces. */
  lemma {:induction false} NormalizeShape(table: Table, s: seq<Pair>)
    requires Printable(table, s)
    ensures Normal(Normalize(s)) && Writable(table, Normalize(s))
    decreases s
  {
    if s != [] {
      var front, last := s[..|s| - 1], s[|s| - 1];
      assert Printable(table, front) by {
        forall i | 0 <= i < |front| ensures PrintablePair(table, front[i]) {
          assert front[i] == s[i];
        }
      }
      assert PrintablePair(table, last);
      NormalizeShape(table, front);
      NormalizePairShape(table, last);
      NormalAppend(Normalize(front), NormalizePair(last));
      WritableAppend(table, Normalize(front), NormalizePair(last));
    }
  }

  lemma {:induction false} NormalizePairShape(table: Table, p: Pair)
    requires PrintablePair(table, p)
    ensures Normal(NormalizePair(p)) && Writable(table, NormalizePair(p))
    decreases p
  {
    match p.fragment {
      case Leaf(_) =>
        assert NormalPair(p) && WritablePair(table, p);
        assert [p][0] == p;
      case Group(items) =>
        NormalizeShape(table, items);
        if p.count != 1.0 {
          var q := Pair(p.count, Group(Normalize(items)));
          assert NormalPair(q) && WritablePair(table, q);
          assert [q][0] == q;
        }
    }
  }

  lemma WritableAppend(table: Table, a: seq<Pair>, b: seq<Pair>)
    requires Writable(table, a) && Writable(table, b)
    ensures Writable(table, a + b)
  {
    forall i | 0 <= i < |a + b| ensures WritablePair(table, (a + b)[i]) {
      if i < |a| { assert (a + b)[i] == a[i]; } else { assert (a + b)[i] == b[i - |a|]; }
    }
  }

  lemma PrefixShape(table: Table, n: seq<Pair>, k: nat)
    requires Normal(n) && Writable(table, n) && k <= |n|
    ensures Normal(n[..k]) && Writable(table, n[..k])
  {
    forall i | 0 <= i < k ensures NormalPair(n[..k][i]) && WritablePair(table, n[..k][i]) {
      assert n[..k][i] == n[i];
    }
  }

  lemma SuffixShape(table: Table, n: seq<Pair>, k: nat)
    requires Normal(n) && Writable(table, n) && k <= |n|
    ensures Normal(n[k..]) && Writable(table, n[k..])
  {
    forall i | 0 <= i < |n| - k ensures NormalPair(n[k..][i]) && WritablePair(table, n[k..][i]) {
      assert n[k..][i] == n[k + i];
    }
  }

  // ---------------------------------------------------------------------
  // Reading back one element
  // ---------------------------------------------------------------------

  /** What may follow a piece of formula text: nothing, a parenthesis or a symbol. */
  predicate Follows(t: string)
  {
    t == [] || t[0] == '(' || t[0] == ')' || IsUpper(t[0])
  }

  /** What may follow a whole (sub)formula: nothing or a closing parenthesis. */
  predicate Closes(t: string)
  {
    t == [] || t[0] == ')'
  }

  function CountText(c: real): string
  {
    if c != 1.0 then FormatCount(c) else ""
  }

  function IsotopeText(isotope: nat): string
  {
    if isotope != 0 then "[" + NatToString(isotope) + "]" else ""
  }

  /** Where no digit or point follows, the count is the default 1. */
  lemma CountDefault(s: string)
    requires s == [] || (!IsDigit(s[0]) && s[0] != '.')
    ensures Count(s) == Match(1.0, s)
  {
    if s != [] && !IsWhite(s[0]) {
      assert FractIntPart(s) == None;
    }
  }

  /** A whole number not followed by a point is read as that number. */
  lemma CountWhole(d: string, t: string)
    requires AllDigits(d) && d != [] && IsNonzeroDigit(d[0])
    requires t == [] || (!IsDigit(t[0]) && t[0] != '.')
    ensures Count(d + t) == Match(DigitsValue(d) as real, t)
  {
    var u := d + t;
    DigitRunOfDigits(d, t);
    assert u[..|d|] == d && u[|d|..] == t;
    assert u[0] == d[0];
    assert FractIntPart(u) == None by {
      if |d| < |u| {
        assert u[|d|] == t[0];
      }
    }
  }

  lemma CountRT(c: real, t: string)
    requires IsPositiveWhole(c) && Follows(t)
    ensures Count(CountText(c) + t) == Match(c, t)
  {
    if c == 1.0 {
      assert CountText(c) + t == t;
      CountDefault(t);
    } else {
      CountWhole(FormatCount(c), t);
    }
  }

  lemma IsotopeRT(isotope: nat, u: string)
    requires u == [] || u[0] != '['
    ensures Isotope(IsotopeText(isotope) + u) == (isotope, u)
  {
    if isotope == 0 {
      assert IsotopeText(isotope) + u == u;
    } else {
      var n := NatToString(isotope);
      var close := "]" + u;
      var w := n + close;
      var v := IsotopeText(isotope) + u;
      assert v == "[" + w;
      assert v[1..] == w;
      assert w[0] == n[0];
      assert SkipWs(w) == w;
      DigitRunOfDigits(n, close);
      assert w[..|n|] == n && w[|n|..] == close;
      assert SkipWs(close) == close;
      assert close[1..] == u;
    }
  }

  lemma {:induction false} LowerRunOf(l: string, v: string)
    requires forall i :: 0 <= i < |l| ==> IsLower(l[i])
    requires v == [] || !IsLower(v[0])
    ensures LowerRun(l + v) == |l|
  {
    if l == [] {
      assert l + v == v;
    } else {
      assert (l + v)[1..] == l[1..] + v;
      LowerRunOf(l[1..], v);
    }
  }

  /** The text of an atom node, split as the grammar reads it. */
  lemma ElementText(c: real, a: Atom, t: string)
    ensures RenderPiece(Pair(c, Leaf(a))) + t
            == a.symbol + (IsotopeText(a.isotope) + (CountText(c) + t))
  {
    var x, y, z := a.symbol, IsotopeText(a.isotope), CountText(c);
    assert RenderAtom(a) == x + y;
    assert RenderPiece(Pair(c, Leaf(a))) == (x + y) + z;
    ConcatAssoc(x + y, z, t);
    ConcatAssoc(x, y, z + t);
  }

  /** The symbol pattern reads exactly the symbol when no lowercase letter follows. */
  lemma SymbolScan(symbol: string, v: string)
    requires IsSymbol(symbol)
    requires v == [] || !IsLower(v[0])
    ensures var s := symbol + v;
            && SkipWs(s) == s && s != [] && IsUpper(s[0])
            && 1 + LowerRun(s[1..]) == |symbol|
            && s[..|symbol|] == symbol && s[|symbol|..] == v
  {
    var s := symbol + v;
    assert s[0] == symbol[0];
    assert s[1..] == symbol[1..] + v;
    LowerRunOf(symbol[1..], v);
    assert s[..|symbol|] == symbol && s[|symbol|..] == v;
  }

  /** What follows an isotope suffix cannot start a symbol's lowercase part or a bracket. */
  lemma AfterSymbol(c: real, isotope: nat, t: string)
    requires IsPositiveWhole(c) && Follows(t)
    ensures var u := CountText(c) + t;
            && (u == [] || (u[0] != '[' && !IsLower(u[0])))
            && (IsotopeText(isotope) + u == [] || !IsLower((IsotopeText(isotope) + u)[0]))
  {
    var u := CountText(c) + t;
    if c != 1.0 {
      assert u[0] == FormatCount(c)[0];
    } else {
      assert u == t;
    }
    if isotope != 0 {
      assert (IsotopeText(isotope) + u)[0] == '[';
    } else {
      assert IsotopeText(isotope) + u == u;
    }
  }

  lemma ElementStep(table: Table, s: string, symbol: string, v: string, isotope: nat, u: string,
                    c: real, t: string, a: Atom)
    requires SkipWs(s) == s && s != [] && IsUpper(s[0])
    requires 1 + LowerRun(s[1..]) == |symbol| && s[..|symbol|] == symbol && s[|symbol|..] == v
    requires table.element(symbol) == Some(Atom(symbol, 0))
    requires Isotope(v) == (isotope, u) && Count(u) == Match(c, t)
    requires isotope == 0 ==> a == Atom(symbol, 0)
    requires isotope != 0 ==> table.isotope(Atom(symbol, 0), isotope) == Some(a)
    ensures Element(table, s) == Match(Pair(c, Leaf(a)), t)
  {
  }

  /** One element followed by a count is read back as that node. */
  lemma ElementRT(table: Table, c: real, a: Atom, t: string)
    requires IsPositiveWhole(c) && PrintableAtom(table, a) && Follows(t)
    ensures Element(table, RenderPiece(Pair(c, Leaf(a))) + t) == Match(Pair(c, Leaf(a)), t)
  {
    var u := CountText(c) + t;
    var v := IsotopeText(a.isotope) + u;
    ElementText(c, a, t);
    AfterSymbol(c, a.isotope, t);
    CountRT(c, t);
    IsotopeRT(a.isotope, u);
    SymbolScan(a.symbol, v);
    ElementStep(table, a.symbol + v, a.symbol, v, a.isotope, u, c, t, a);
  }

  // ---------------------------------------------------------------------
  // Reading back runs, groups and formulas
  // ---------------------------------------------------------------------

  /** The number of leading atom nodes. */
  function LeafRun(n: seq<Pair>): (k: nat)
    ensures k <= |n|
    ensures forall i :: 0 <= i < k ==> n[i].fragment.Leaf?
    ensures k == |n| || n[k].fragment.Group?
  {
    if n == [] || n[0].fragment.Group? then 0
    else
      var k := 1 + LeafRun(n[1..]);
      assert forall i :: 1 <= i < k ==> n[i] == n[1..][i - 1];
      k
  }

  /**
   * The nodes one `group` of the grammar reads from the text of `n`: a
   * maximal run of atoms (an implicit group), or one parenthesised group.
   */
  function SegmentLength(n: seq<Pair>): (k: nat)
    requires n != []
    ensures 1 <= k <= |n|
  {
    if n[0].fragment.Leaf? then LeafRun(n) else 1
  }

  lemma RenderStart(table: Table, n: seq<Pair>)
    requires n != [] && Normal(n) && Writable(table, n)
    ensures Render(n) != []
    ensures n[0].fragment.Leaf? ==> IsUpper(Render(n)[0])
    ensures n[0].fragment.Group? ==> Render(n)[0] == '('
  {
    var p := n[0];
    assert n == [p] + n[1..];
    RenderCons(p, n[1..]);
    assert NormalPair(p) && WritablePair(table, p);
    match p.fragment {
      case Leaf(a) =>
        assert RenderPiece(p) == RenderAtom(a) + CountText(p.count);
        assert RenderAtom(a)[0] == a.symbol[0];
      case Group(items) =>
        assert p.count != 1.0;
    }
  }

  lemma FollowsRender(table: Table, m: seq<Pair>, t: string)
    requires Normal(m) && Writable(table, m) && Follows(t)
    ensures Follows(Render(m) + t)
  {
    if m == [] {
      assert Render(m) + t == t;
    } else {
      RenderStart(table, m);
      assert (Render(m) + t)[0] == Render(m)[0];
    }
  }

  lemma NoElementAt(table: Table, t: string)
    requires t == [] || t[0] == '(' || t[0] == ')'
    ensures Element(table, t) == NoMatch && Elements(table, t) == NoMatch
  {
    assert SkipWs(t) == t;
  }

  lemma ElementsLast(table: Table, s: string, p: Pair, rest: string)
    requires Element(table, s) == Match(p, rest) && Elements(table, rest) == NoMatch
    ensures Elements(table, s) == Match([p], rest)
  {
  }

  lemma ElementsMore(table: Table, s: string, p: Pair, rest: string, more: seq<Pair>, t: string)
    requires Element(table, s) == Match(p, rest) && Elements(table, rest) == Match(more, t)
    ensures Elements(table, s) == Match([p] + more, t)
  {
  }

  /** A run of atom nodes is read back by `OneOrMore(element)`. */
  lemma {:induction false} ElementsRT(table: Table, run: seq<Pair>, t: string)
    requires run != [] && AllLeaves(run) && Writable(table, run)
    requires t == [] || t[0] == '(' || t[0] == ')'
    ensures Elements(table, Render(run) + t) == Match(run, t)
    decreases |run|
  {
    var p, rest := run[0], run[1..];
    assert run == [p] + rest;
    assert WritablePair(table, p) && p.fragment.Leaf?;
    var c, a := p.count, p.fragment.atom;
    assert p == Pair(c, Leaf(a));
    var r := Render(rest) + t;
    var s := Render(run) + t;
    assert s == RenderPiece(p) + r by {
      RenderCons(p, rest);
      ConcatAssoc(RenderPiece(p), Render(rest), t);
    }
    assert AllLeaves(rest) && Writable(table, rest) by {
      assert forall i :: 0 <= i < |rest| ==> rest[i] == run[i + 1];
    }
    LeavesAreNormal(rest);
    FollowsRender(table, rest, t);
    ElementRT(table, c, a, r);
    if rest == [] {
      assert r == t;
      NoElementAt(table, t);
      assert run == [p];
      ElementsLast(table, s, p, t);
    } else {
      ElementsRT(table, rest, t);
      ElementsMore(table, s, p, r, rest, t);
    }
  }

  // One step of each parser, stated once so that the proofs below need not
  // unfold the parsers themselves.

  lemma ImplicitStep(table: Table, s: string, run: seq<Pair>, r: string)
    requires Count(s) == Match(1.0, s) && Elements(table, s) == Match(run, r)
    ensures ImplicitGroup(table, s) == Match(run, r)
  {
  }

  lemma ImplicitNone(table: Table, s: string)
    requires Count(s) == Match(1.0, s) && Elements(table, s) == NoMatch
    ensures ImplicitGroup(table, s) == NoMatch
  {
  }

  lemma ExplicitStep(table: Table, s: string, inner: seq<Pair>, t2: string, c: real, r: string)
    requires s != [] && s[0] == '(' && Formula(table, s[1..]) == Match(inner, t2)
    requires t2 != [] && t2[0] == ')' && Count(t2[1..]) == Match(c, r)
    ensures Normal(inner) && inner != [] && c >= 0.0
    ensures ExplicitGroup(table, s) == Match(Collapse(c, inner), r)
  {
    assert SkipWs(t2) == t2;
  }

  lemma GroupImplicit(table: Table, s: string, v: seq<Pair>, r: string)
    requires SkipWs(s) == s && ImplicitGroup(table, s) == Match(v, r)
    ensures AnyGroup(table, s) == Match(v, r)
  {
  }

  lemma GroupExplicit(table: Table, s: string, v: seq<Pair>, r: string)
    requires SkipWs(s) == s && ImplicitGroup(table, s) == NoMatch
    requires ExplicitGroup(table, s) == Match(v, r)
    ensures AnyGroup(table, s) == Match(v, r)
  {
  }

  lemma FormulaStep(table: Table, s: string, first: seq<Pair>, r: string, more: seq<Pair>, t: string)
    requires AnyGroup(table, s) == Match(first, r) && FormulaTail(table, r) == Match(more, t)
    ensures Formula(table, s) == Match(first + more, t)
  {
  }

  lemma TailStep(table: Table, s: string, first: seq<Pair>, r: string, more: seq<Pair>, t: string)
    requires SkipWs(s) == s && (s == [] || s[0] != '+')
    requires AnyGroup(table, s) == Match(first, r) && FormulaTail(table, r) == Match(more, t)
    ensures FormulaTail(table, s) == Match(first + more, t)
  {
  }

  /** At a closing parenthesis or the end there is no further group. */
  lemma TailEnd(table: Table, t: string)
    requires Closes(t)
    ensures AnyGroup(table, t) == NoMatch
    ensures FormulaTail(table, t) == Match([], t)
  {
    assert SkipWs(t) == t;
    CountDefault(t);
    NoElementAt(table, t);
    ImplicitNone(table, t);
  }

  /** The text of a structure split after its first `k` nodes. */
  lemma SegmentText(n: seq<Pair>, k: nat, t: string)
    requires k <= |n|
    ensures n == n[..k] + n[k..]
    ensures Render(n) + t == Render(n[..k]) + (Render(n[k..]) + t)
  {
    assert n == n[..k] + n[k..];
    RenderAppend(n[..k], n[k..]);
    ConcatAssoc(Render(n[..k]), Render(n[k..]), t);
  }

  /** The text of a parenthesised group followed by `r`, split as the grammar reads it. */
  lemma ParenText(c: real, items: seq<Pair>, r: string)
    requires c != 1.0
    ensures Render([Pair(c, Group(items))]) + r
            == "(" + (Render(items) + (")" + (CountText(c) + r)))
  {
    RenderOne(Pair(c, Group(items)));
    GroupPiece(c, items);
    ParenConcat(Render(items), FormatCount(c), r);
  }

  lemma GroupPiece(c: real, items: seq<Pair>)
    requires c != 1.0
    ensures RenderPiece(Pair(c, Group(items))) == "(" + Render(items) + ")" + FormatCount(c)
  {
  }

  lemma ParenConcat(x: string, y: string, r: string)
    ensures "(" + x + ")" + y + r == "(" + (x + (")" + (y + r)))
  {
  }

  /** What follows the segment read by one `group`. */
  lemma AfterSegment(table: Table, n: seq<Pair>, t: string)
    requires n != [] && Normal(n) && Writable(table, n) && Closes(t)
    ensures var k := SegmentLength(n);
            && Normal(n[..k]) && Writable(table, n[..k]) && Normal(n[k..]) && Writable(table, n[k..])
            && Render(n[..k]) != []
            && Follows(Render(n[k..]) + t)
            && (n[0].fragment.Leaf? ==>
                  var r := Render(n[k..]) + t; r == [] || r[0] == '(' || r[0] == ')')
  {
    var k := SegmentLength(n);
    PrefixShape(table, n, k);
    SuffixShape(table, n, k);
    RenderStart(table, n[..k]);
    FollowsRender(table, n[k..], t);
    var r := Render(n[k..]) + t;
    if n[0].fragment.Leaf? {
      if k < |n| {
        RenderStart(table, n[k..]);
        assert n[k..][0] == n[k];
        assert r[0] == Render(n[k..])[0];
      } else {
        assert r == t;
      }
    }
  }

  /** The first segment of a structure that starts with an atom is a run of atoms. */
  lemma LeafSegment(table: Table, n: seq<Pair>)
    requires n != [] && Normal(n) && Writable(table, n) && n[0].fragment.Leaf?
    ensures var head := n[..SegmentLength(n)];
            && head != [] && AllLeaves(head) && Writable(table, head)
            && Render(head) != [] && IsUpper(Render(head)[0])
  {
    var head := n[..SegmentLength(n)];
    PrefixShape(table, n, SegmentLength(n));
    forall i | 0 <= i < |head| ensures head[i].fragment.Leaf? && head[i].count >= 0.0 {
      assert head[i] == n[i];
      assert NormalPair(n[i]);
    }
    RenderStart(table, head);
    assert head[0] == n[0];
  }

  /** The text of a run of atoms starts with a symbol: no whitespace, no leading count. */
  lemma RunStart(table: Table, head: seq<Pair>, r: string)
    requires head != [] && AllLeaves(head) && Writable(table, head)
    ensures var s := Render(head) + r; SkipWs(s) == s && Count(s) == Match(1.0, s)
  {
    LeavesAreNormal(head);
    RenderStart(table, head);
    var s := Render(head) + r;
    assert s[0] == Render(head)[0];
    UpperStart(s);
  }

  lemma UpperStart(s: string)
    requires s != [] && IsUpper(s[0])
    ensures SkipWs(s) == s && Count(s) == Match(1.0, s)
  {
    CountDefault(s);
  }

  /** A run of atoms is read back by an implicit group of count 1. */
  lemma RunRead(table: Table, head: seq<Pair>, r: string)
    requires head != [] && AllLeaves(head) && Writable(table, head)
    requires r == [] || r[0] == '(' || r[0] == ')'
    ensures AnyGroup(table, Render(head) + r) == Match(head, r)
  {
    var s := Render(head) + r;
    RunStart(table, head, r);
    ElementsRT(table, head, r);
    ImplicitStep(table, s, head, r);
    GroupImplicit(table, s, head, r);
  }

  /** A maximal run of atoms is read back by an implicit group of count 1. */
  lemma LeafSegmentRT(table: Table, n: seq<Pair>, t: string)
    requires n != [] && Normal(n) && Writable(table, n) && Closes(t)
    requires n[0].fragment.Leaf?
    ensures AnyGroup(table, Render(n) + t)
            == Match(n[..SegmentLength(n)], Render(n[SegmentLength(n)..]) + t)
  {
    var k := SegmentLength(n);
    SegmentText(n, k, t);
    AfterSegment(table, n, t);
    LeafSegment(table, n);
    RunRead(table, n[..k], Render(n[k..]) + t);
  }

  /**
   * A parenthesised group is read back by an explicit group, once its
   * contents are read back by `formula`.
   */
  lemma ParenRead(table: Table, c: real, items: seq<Pair>, r: string)
    requires IsPositiveWhole(c) && c != 1.0 && Follows(r)
    requires Formula(table, Render(items) + (")" + (CountText(c) + r)))
             == Match(items, ")" + (CountText(c) + r))
    ensures AnyGroup(table, Render([Pair(c, Group(items))]) + r) == Match([Pair(c, Group(items))], r)
  {
    var t2 := ")" + (CountText(c) + r);
    var s := "(" + (Render(items) + t2);
    ParenText(c, items, r);
    assert SkipWs(s) == s;
    CountDefault(s);
    NoElementAt(table, s);
    ImplicitNone(table, s);
    assert s[1..] == Render(items) + t2;
    assert t2[1..] == CountText(c) + r;
    CountRT(c, r);
    ExplicitStep(table, s, items, t2, c, r);
    GroupExplicit(table, s, [Pair(c, Group(items))], r);
  }

  /** One `group` of the grammar reads back the first segment of a structure. */
  lemma {:induction false} GroupRT(table: Table, n: seq<Pair>, t: string)
    requires n != [] && Normal(n) && Writable(table, n) && Closes(t)
    ensures AnyGroup(table, Render(n) + t)
            == Match(n[..SegmentLength(n)], Render(n[SegmentLength(n)..]) + t)
    decreases |Render(n) + t|, 0
  {
    if n[0].fragment.Leaf? {
      LeafSegmentRT(table, n, t);
    } else {
      var p := n[0];
      var c, items := p.count, p.fragment.items;
      assert NormalPair(p) && WritablePair(table, p);
      assert p == Pair(c, Group(items));
      assert n[..1] == [p];
      var r := Render(n[1..]) + t;
      SegmentText(n, 1, t);
      AfterSegment(table, n, t);
      var t2 := ")" + (CountText(c) + r);
      ParenText(c, items, r);
      FormulaRT(table, items, t2);
      ParenRead(table, c, items, r);
    }
  }

  /** `formula` reads back a whole non-empty structure. */
  lemma {:induction false} FormulaRT(table: Table, n: seq<Pair>, t: string)
    requires n != [] && Normal(n) && Writable(table, n) && Closes(t)
    ensures Formula(table, Render(n) + t) == Match(n, t)
    decreases |Render(n) + t|, 1
  {
    var k := SegmentLength(n);
    SegmentText(n, k, t);
    AfterSegment(table, n, t);
    GroupRT(table, n, t);
    FormulaTailRT(table, n[k..], t);
    FormulaStep(table, Render(n) + t, n[..k], Render(n[k..]) + t, n[k..], t);
  }

  /** `ZeroOrMore(Optional('+') + group)` reads back the rest of a structure. */
  lemma {:induction false} FormulaTailRT(table: Table, m: seq<Pair>, t: string)
    requires Normal(m) && Writable(table, m) && Closes(t)
    ensures FormulaTail(table, Render(m) + t) == Match(m, t)
    decreases |Render(m) + t|, 2
  {
    if m == [] {
      assert Render(m) + t == t;
      TailEnd(table, t);
    } else {
      var k := SegmentLength(m);
      TailSegment(table, m, t);
      FormulaTailRT(table, m[k..], t);
      TailStep(table, Render(m) + t, m[..k], Render(m[k..]) + t, m[k..], t);
    }
  }

  /** The first segment of a non-empty tail is read as a group, leaving the text of the rest. */
  lemma {:induction false} TailSegment(table: Table, m: seq<Pair>, t: string)
    requires m != [] && Normal(m) && Writable(table, m) && Closes(t)
    ensures m == m[..SegmentLength(m)] + m[SegmentLength(m)..]
    ensures SkipWs(Render(m) + t) == Render(m) + t && Render(m) != [] && (Render(m) + t)[0] != '+'
    ensures Normal(m[SegmentLength(m)..]) && Writable(table, m[SegmentLength(m)..])
    ensures |Render(m[SegmentLength(m)..]) + t| < |Render(m) + t|
    ensures AnyGroup(table, Render(m) + t) == Match(m[..SegmentLength(m)], Render(m[SegmentLength(m)..]) + t)
    decreases |Render(m) + t|, 1
  {
    TailStart(table, m, t);
    SegmentText(m, SegmentLength(m), t);
    AfterSegment(table, m, t);
    GroupRT(table, m, t);
  }

  /** A printed structure starts with a capital or '(': no whitespace to skip and no '+'. */
  lemma TailStart(table: Table, m: seq<Pair>, t: string)
    requires m != [] && Normal(m) && Writable(table, m)
    ensures SkipWs(Render(m) + t) == Render(m) + t && Render(m) != [] && (Render(m) + t)[0] != '+'
  {
    RenderStart(table, m);
    PlainStart(Render(m), t);
  }

  lemma PlainStart(r: string, t: string)
    requires r != [] && (IsUpper(r[0]) || r[0] == '(')
    ensures SkipWs(r + t) == r + t && (r + t)[0] != '+'
  {
    assert (r + t)[0] == r[0];
  }

  // ---------------------------------------------------------------------
  // The round trips
  // ---------------------------------------------------------------------

  /** Parsing the text of a structure in parser shape gives that structure back. */
  lemma ParseRender(table: Table, n: seq<Pair>)
    requires Normal(n) && Writable(table, n)
    ensures Parse(table, Render(n)) == Success(n)
  {
    if n == [] {
      TailEnd(table, "");
    } else {
      assert Render(n) + "" == Render(n);
      FormulaRT(table, n, "");
    }
  }

  /**
   * `__setstate__(__getstate__())`: the text of a printable structure
   * parses to the structure with its count-1 groups spliced, which has the
   * same atom tally.
   */
  lemma PickleRoundTrip(table: Table, s: seq<Pair>)
    requires Printable(table, s)
    ensures Parse(table, Render(s)) == Success(Normalize(s))
    ensures TallyOf(Parse(table, Render(s)).value) == TallyOf(s)
  {
    NormalizeShape(table, s);
    NormalizeRender(s);
    ParseRender(table, Normalize(s));
    NormalizeTally(s);
  }

  /** An explicit group of count 1 is spliced: "(H2O)" reads as "H2O". */
  lemma ParenthesesCollapse(table: Table, n: seq<Pair>)
    requires n != [] && Normal(n) && Writable(table, n)
    ensures Parse(table, "(" + Render(n) + ")") == Success(n)
  {
    var s := "(" + (Render(n) + ")");
    assert "(" + Render(n) + ")" == s;
    assert SkipWs(s) == s;
    CountDefault(s);
    NoElementAt(table, s);
    ImplicitNone(table, s);
    assert s[1..] == Render(n) + ")";
    FormulaRT(table, n, ")");
    assert ")"[1..] == "";
    CountDefault("");
    ExplicitStep(table, s, n, ")", 1.0, "");
    GroupExplicit(table, s, n, "");
    TailEnd(table, "");
    FormulaStep(table, s, n, "", [], "");
    assert n + [] == n;
  }

  lemma GroupNone(table: Table, s: string)
    requires SkipWs(s) == s && ImplicitGroup(table, s) == NoMatch
    requires s == [] || s[0] != '('
    ensures AnyGroup(table, s) == NoMatch
  {
  }

  lemma TailNone(table: Table, s: string)
    requires SkipWs(s) == s && (s == [] || s[0] != '+') && AnyGroup(table, s) == NoMatch
    ensures FormulaTail(table, s) == Match([], s)
  {
  }

  /**
   * A zero count (as `0 * Formula("H")` makes) is written as "H0", which
   * does not parse: the count pattern does not accept "0" on its own.
   */
  lemma ZeroCountDoesNotRoundTrip(table: Table)
    requires table.element("H") == Some(Atom("H", 0))
    ensures Render([Pair(0.0, Leaf(Atom("H", 0)))]) == "H0"
    ensures Parse(table, "H0") == Failure(Syntax)
  {
    var h := Pair(1.0, Leaf(Atom("H", 0)));
    RenderOne(Pair(0.0, Leaf(Atom("H", 0))));
    assert FormatCount(0.0) == "0";
    assert "H" + "0" == "H0";
    assert IsSymbol("H");
    SymbolScan("H", "0");
    assert Isotope("0") == (0, "0");
    assert FractIntPart("0") == None;
    assert Count("0") == Match(1.0, "0");
    assert Element(table, "H0") == Match(h, "0");
    assert SkipWs("0") == "0";
    assert Element(table, "0") == NoMatch;
    assert Elements(table, "0") == NoMatch;
    ElementsLast(table, "H0", h, "0");
    CountDefault("H0");
    ImplicitStep(table, "H0", [h], "0");
    GroupImplicit(table, "H0", [h], "0");
    ImplicitNone(table, "0");
    GroupNone(table, "0");
    TailNone(table, "0");
    FormulaStep(table, "H0", [h], "0", [], "0");
    assert [h] + [] == [h];
  }

  /**
   * An empty group with a count other than 1 (as `Formula([(2, [])])`
   * holds) is written "()2", which does not parse: an explicit group needs
   * a formula between its parentheses.
   */
  lemma EmptyGroupDoesNotRoundTrip(table: Table)
    ensures Render([Pair(2.0, Group([]))]) == "()2"
    ensures Parse(table, "()2") == Failure(Syntax)
  {
    EmptyGroupRender();
    EmptyParenthesesRejected(table, "()2");
  }

  lemma EmptyGroupRender()
    ensures Render([Pair(2.0, Group([]))]) == "()2"
  {
    EmptyGroupText(2.0);
    TwoFormat();
    assert "()" + "2" == "()2";
  }

  /** An empty group with a count other than 1 is written as "()" and its count. */
  lemma EmptyGroupText(c: real)
    requires c != 1.0
    ensures Render([Pair(c, Group([]))]) == "()" + FormatCount(c)
  {
    RenderOne(Pair(c, Group([])));
    assert Render([]) == "";
  }

  lemma TwoFormat()
    ensures FormatCount(2.0) == "2"
  {
    assert (2.0).Floor == 2;
    assert NatToString(2) == "2";
  }

  /** Text that opens with "()" matches no group, so it is a syntax error. */
  lemma EmptyParenthesesRejected(table: Table, s: string)
    requires |s| >= 2 && s[0] == '(' && s[1] == ')'
    ensures Parse(table, s) == Failure(Syntax)
  {
    var inner := s[1..];
    assert SkipWs(s) == s && SkipWs(inner) == inner;
    CountDefault(s);
    NoElementAt(table, s);
    ImplicitNone(table, s);
    CountDefault(inner);
    NoElementAt(table, inner);
    ImplicitNone(table, inner);
    GroupNone(table, inner);
    assert Formula(table, inner) == NoMatch;
    assert ExplicitGroup(table, s) == NoMatch;
    assert AnyGroup(table, s) == NoMatch;
    assert Formula(table, s) == NoMatch;
  }

  /**
   * A whole count of a million (as `Formula("H1000000")` holds) is written
   * "H1e+06", which does not parse: the grammar reads "H1" and stops at
   * the exponent.
   */
  lemma MillionCountDoesNotRoundTrip(table: Table)
    requires table.element("H") == Some(Atom("H", 0))
    ensures Render([Pair(1000000.0, Leaf(Atom("H", 0)))]) == "H1e+06"
    ensures Parse(table, "H1e+06") == Failure(Syntax)
  {
    MillionRender();
    ExponentStopsParse(table);
  }

  lemma MillionRender()
    ensures Render([Pair(1000000.0, Leaf(Atom("H", 0)))]) == "H1e+06"
  {
    var h := Atom("H", 0);
    RenderOne(Pair(1000000.0, Leaf(h)));
    RenderLeaf(h, 1000000.0);
    MillionFormat();
    assert RenderAtom(h) == "H";
    HydrogenMillionText();
  }

  lemma HydrogenMillionText()
    ensures "H" + "1e+06" == "H1e+06"
  {
  }

  lemma RenderLeaf(a: Atom, c: real)
    requires c != 1.0
    ensures RenderPiece(Pair(c, Leaf(a))) == RenderAtom(a) + FormatCount(c)
  {
  }

  lemma ExponentStopsParse(table: Table)
    requires table.element("H") == Some(Atom("H", 0))
    ensures Parse(table, "H1e+06") == Failure(Syntax)
  {
    HydrogenBeforeExponent(table);
    CountDefault("H1e+06");
    CountDefault("e+06");
    StopsBeforeRest(table, "H1e+06", Pair(1.0, Leaf(Atom("H", 0))), "e+06");
  }

  /**
   * A formula whose first element is followed by text that starts no
   * element, group or tail leaves that text unread, which is a syntax error.
   */
  lemma StopsBeforeRest(table: Table, s: string, h: Pair, rest: string)
    requires SkipWs(s) == s && Count(s) == Match(1.0, s)
    requires Element(table, s) == Match(h, rest)
    requires rest != [] && SkipWs(rest) == rest && Count(rest) == Match(1.0, rest)
    requires Elements(table, rest) == NoMatch && rest[0] != '(' && rest[0] != '+'
    ensures Parse(table, s) == Failure(Syntax)
  {
    ElementsLast(table, s, h, rest);
    ImplicitStep(table, s, [h], rest);
    GroupImplicit(table, s, [h], rest);
    ImplicitNone(table, rest);
    GroupNone(table, rest);
    TailNone(table, rest);
    FormulaStep(table, s, [h], rest, [], rest);
    assert [h] + [] == [h];
  }

  lemma HydrogenBeforeExponent(table: Table)
    requires table.element("H") == Some(Atom("H", 0))
    ensures Element(table, "H1e+06") == Match(Pair(1.0, Leaf(Atom("H", 0))), "e+06")
    ensures SkipWs("e+06") == "e+06" && Elements(table, "e+06") == NoMatch
  {
    CountBeforeExponent();
    assert "H" + "1e+06" == "H1e+06";
    assert IsSymbol("H");
    SymbolScan("H", "1e+06");
    assert Isotope("1e+06") == (0, "1e+06");
    ExponentIsNoElement(table);
  }

  lemma CountBeforeExponent()
    ensures Count("1e+06") == Match(1.0, "e+06")
  {
    CountWhole("1", "e+06");
    assert "1" + "e+06" == "1e+06";
    assert DigitsValue("1") == 1;
  }

  lemma ExponentIsNoElement(table: Table)
    ensures SkipWs("e+06") == "e+06" && Elements(table, "e+06") == NoMatch
  {
    assert SkipWs("e+06") == "e+06";
    assert Element(table, "e+06") == NoMatch;
  }
}
