/**
 * The formula grammar of `formula_grammar`, as a recursive-descent parser.
 *
 * Each parser takes the remaining input and answers `Match` (the value and
 * the input left over), `NoMatch` (the alternative does not apply; the
 * caller backtracks) or `Abort` (a parse action raised `ValueError`, which
 * ends the whole parse). Whitespace is skipped before a symbol, a bracket,
 * a parenthesis, a '+' separator and the end of input, but a count or an
 * isotope mass number must follow its element or group without a gap.
 */
module Grammar {
  import opened Wrappers
  import opened Atoms
  import opened Structure
  import opened Decimal

  datatype ParseError =
    | Syntax                                      // pyparsing found no parse
    | UnknownSymbol(symbol: string)               // the table does not know the symbol
    | BadCount                                    // `float(".")`
    | NotAnIsotope(symbol: string, isotope: nat)  // "%d is not an isotope of %s"

  datatype Parsed<T> = Match(value: T, rest: string) | NoMatch | Abort(error: ParseError)

  predicate IsWhite(c: char)
  {
    c == ' ' || c == '\t' || c == '\r' || c == '\n'
  }

  predicate IsUpper(c: char)
  {
    'A' <= c <= 'Z'
  }

  predicate IsLower(c: char)
  {
    'a' <= c <= 'z'
  }

  /** The input after its leading whitespace. */
  function SkipWs(s: string): (r: string)
    ensures |r| <= |s|
    ensures r == [] || !IsWhite(r[0])
  {
    if s != [] && IsWhite(s[0]) then SkipWs(s[1..]) else s
  }

  /** The length of the longest lowercase prefix. */
  function LowerRun(s: string): (k: nat)
    ensures k <= |s|
    ensures forall i :: 0 <= i < k ==> IsLower(s[i])
    ensures k == |s| || !IsLower(s[k])
  {
    if s == [] || !IsLower(s[0]) then 0 else 1 + LowerRun(s[1..])
  }

  /**
   * Where the `fract` pattern `(0|[1-9][0-9]*|)([.][0-9]*)` applies, the
   * length of its integer part (the point follows it).
   */
  function FractIntPart(s: string): (k: Option<nat>)
    ensures k.Some? ==> k.value < |s| && s[k.value] == '.' && AllDigits(s[..k.value])
  {
    if s == [] then None
    else if s[0] == '.' then Some(0)
    else if s[0] == '0' then (if |s| > 1 && s[1] == '.' then Some(1) else None)
    else if IsNonzeroDigit(s[0]) then
      var d := DigitRun(s);
      if d < |s| && s[d] == '.' then Some(d) else None
    else None
  }

  /**
   * `count = Optional(~White() + (fract | whole), default=1)`: nothing when
   * whitespace or the end follows; otherwise a decimal with a point, or a
   * whole number without a leading zero, or the default 1.
   */
  function Count(s: string): (r: Parsed<real>)
    ensures !r.NoMatch?
    ensures r.Abort? ==> r.error == BadCount
    ensures r.Match? ==> |r.rest| <= |s| && r.value >= 0.0
    ensures r.Match? && |r.rest| == |s| ==> r.value == 1.0 && r.rest == s
  {
    if s == [] || IsWhite(s[0]) then Match(1.0, s)
    else
      match FractIntPart(s)
      case Some(k) =>
        var fraction := s[k + 1..];
        var f := DigitRun(fraction);
        if k == 0 && f == 0 then Abort(BadCount)
        else Match(DigitsValue(s[..k]) as real + FractionValue(fraction[..f]), fraction[f..])
      case None =>
        if IsNonzeroDigit(s[0]) then
          var d := DigitRun(s);
          Match(DigitsValue(s[..d]) as real, s[d..])
        else Match(1.0, s)
  }

  /**
   * `isotope = Optional(~White() + '[' + Regex("[1-9][0-9]*") + ']', default=0)`:
   * the mass number and the input after the closing bracket, or 0 and the
   * input unchanged.
   */
  function Isotope(s: string): (r: (nat, string))
    ensures |r.1| <= |s|
    ensures |r.1| == |s| ==> r == (0, s)
  {
    if s != [] && s[0] == '[' then
      var t := SkipWs(s[1..]);
      if t != [] && IsNonzeroDigit(t[0]) then
        var d := DigitRun(t);
        var u := SkipWs(t[d..]);
        if u != [] && u[0] == ']' then (DigitsValue(t[..d]), u[1..]) else (0, s)
      else (0, s)
    else (0, s)
  }

  /**
   * `element = symbol + isotope + count` with `convert_element`: the
   * symbol is looked up first, then the count is read, then the isotope is
   * looked up.
   */
  function Element(table: Table, s: string): (r: Parsed<Pair>)
    ensures r.Match? ==> |r.rest| < |s| && r.value.fragment.Leaf? && r.value.count >= 0.0
  {
    var t := SkipWs(s);
    if t == [] || !IsUpper(t[0]) then NoMatch
    else
      var n := 1 + LowerRun(t[1..]);
      var symbol := t[..n];
      match table.element(symbol)
      case None => Abort(UnknownSymbol(symbol))
      case Some(base) =>
        var (isotope, afterIsotope) := Isotope(t[n..]);
        match Count(afterIsotope)
        case Abort(e) => Abort(e)
        case NoMatch => NoMatch
        case Match(count, rest) =>
          if isotope == 0 then Match(Pair(count, Leaf(base)), rest)
          else
            match table.isotope(base, isotope)
            case None => Abort(NotAnIsotope(symbol, isotope))
            case Some(a) => Match(Pair(count, Leaf(a)), rest)
  }

  /** `OneOrMore(element)`. */
  function Elements(table: Table, s: string): (r: Parsed<seq<Pair>>)
    ensures r.Match? ==> |r.rest| < |s| && r.value != [] && AllLeaves(r.value)
    decreases |s|
  {
    match Element(table, s)
    case NoMatch => NoMatch
    case Abort(e) => Abort(e)
    case Match(p, rest) =>
      match Elements(table, rest)
      case NoMatch => Match([p], rest)
      case Abort(e) => Abort(e)
      case Match(more, rest2) =>
        LeavesCons(p, more);
        Match([p] + more, rest2)
  }

  /** Atoms with counts that are not negative. */
  predicate AllLeaves(s: seq<Pair>)
  {
    forall i :: 0 <= i < |s| ==> s[i].fragment.Leaf? && s[i].count >= 0.0
  }

  lemma LeavesCons(p: Pair, s: seq<Pair>)
    requires p.fragment.Leaf? && p.count >= 0.0 && AllLeaves(s)
    ensures AllLeaves([p] + s)
  {
    forall i | 0 <= i < |[p] + s| ensures ([p] + s)[i].fragment.Leaf? && ([p] + s)[i].count >= 0.0 {
      if i > 0 { assert ([p] + s)[i] == s[i - 1]; }
    }
  }

  lemma LeavesAreNormal(s: seq<Pair>)
    requires AllLeaves(s)
    ensures Normal(s)
  {
  }

  /**
   * `convert_implicit` and `convert_explicit`: a group of count 1 is
   * spliced into the enclosing formula, any other becomes one node.
   */
  function Collapse(count: real, fragment: seq<Pair>): (r: seq<Pair>)
    requires count >= 0.0 && fragment != [] && Normal(fragment)
    ensures r != [] && Normal(r)
    ensures count == 1.0 ==> r == fragment
    ensures count != 1.0 ==> r == [Pair(count, Group(fragment))]
  {
    if count == 1.0 then fragment else [Pair(count, Group(fragment))]
  }

  /** `implicit_group = count + OneOrMore(element)`. */
  function ImplicitGroup(table: Table, s: string): (r: Parsed<seq<Pair>>)
    ensures r.Match? ==> |r.rest| < |s| && r.value != [] && Normal(r.value)
    decreases |s|, 1
  {
    match Count(s)
    case Abort(e) => Abort(e)
    case NoMatch => NoMatch
    case Match(count, afterCount) =>
      match Elements(table, afterCount)
      case NoMatch => NoMatch
      case Abort(e) => Abort(e)
      case Match(elements, rest) =>
        LeavesAreNormal(elements);
        Match(Collapse(count, elements), rest)
  }

  /** `explicit_group = '(' + formula + ')' + count`. */
  function ExplicitGroup(table: Table, s: string): (r: Parsed<seq<Pair>>)
    ensures r.Match? ==> |r.rest| < |s| && r.value != [] && Normal(r.value)
    decreases |s|, 1
  {
    if s == [] || s[0] != '(' then NoMatch
    else
      match Formula(table, s[1..])
      case NoMatch => NoMatch
      case Abort(e) => Abort(e)
      case Match(inner, afterInner) =>
        var t := SkipWs(afterInner);
        if t == [] || t[0] != ')' then NoMatch
        else
          match Count(t[1..])
          case Abort(e) => Abort(e)
          case NoMatch => NoMatch
          case Match(count, rest) => Match(Collapse(count, inner), rest)
  }

  /** `group = implicit_group | explicit_group`, after leading whitespace. */
  function AnyGroup(table: Table, s: string): (r: Parsed<seq<Pair>>)
    ensures r.Match? ==> |r.rest| < |s| && r.value != [] && Normal(r.value)
    decreases |s|, 2
  {
    var t := SkipWs(s);
    match ImplicitGroup(table, t)
    case NoMatch => ExplicitGroup(table, t)
    case Abort(e) => Abort(e)
    case Match(v, rest) => Match(v, rest)
  }

  /** `formula = group + ZeroOrMore(Optional('+') + group)`. */
  function Formula(table: Table, s: string): (r: Parsed<seq<Pair>>)
    ensures r.Match? ==> |r.rest| < |s| && r.value != [] && Normal(r.value)
    decreases |s|, 3
  {
    match AnyGroup(table, s)
    case NoMatch => NoMatch
    case Abort(e) => Abort(e)
    case Match(first, rest) =>
      match FormulaTail(table, rest)
      case NoMatch => NoMatch
      case Abort(e) => Abort(e)
      case Match(more, rest2) =>
        NormalAppend(first, more);
        Match(first + more, rest2)
  }

  /**
   * `ZeroOrMore(Optional('+') + group)`: a repetition that fails leaves the
   * input where it was before its whitespace and separator.
   */
  function FormulaTail(table: Table, s: string): (r: Parsed<seq<Pair>>)
    ensures !r.NoMatch?
    ensures r.Match? ==> |r.rest| <= |s| && Normal(r.value)
    decreases |s|, 3
  {
    var t := SkipWs(s);
    var u := if t != [] && t[0] == '+' then t[1..] else t;
    match AnyGroup(table, u)
    case NoMatch => Match([], s)
    case Abort(e) => Abort(e)
    case Match(next, rest) =>
      match FormulaTail(table, rest)
      case NoMatch => NoMatch
      case Abort(e) => Abort(e)
      case Match(more, rest2) =>
        NormalAppend(next, more);
        Match(next + more, rest2)
  }

  /**
   * `Optional(formula) + StringEnd()` applied by `parseString`: blank input
   * is the empty formula; anything but whitespace left over is an error.
   */
  function Parse(table: Table, s: string): (r: Result<seq<Pair>, ParseError>)
    ensures r.Success? ==> Normal(r.value)
    ensures r.Success? && r.value == [] ==> SkipWs(s) == []
  {
    match Formula(table, s)
    case Abort(e) => Failure(e)
    case NoMatch => if SkipWs(s) == [] then Success([]) else Failure(Syntax)
    case Match(v, rest) => if SkipWs(rest) == [] then Success(v) else Failure(Syntax)
  }

  // ---------------------------------------------------------------------
  // Shape of parser output
  // ---------------------------------------------------------------------

  /**
   * The shape every parse has: counts are not negative, and every group
   * is non-empty, has a count other than 1 and is itself of this shape.
   */
  predicate Normal(s: seq<Pair>)
    decreases s
  {
    forall i :: 0 <= i < |s| ==> NormalPair(s[i])
  }

  predicate NormalPair(p: Pair)
    decreases p
  {
    && p.count >= 0.0
    && (p.fragment.Group? ==>
          p.count != 1.0 && p.fragment.items != [] && Normal(p.fragment.items))
  }

  lemma NormalAppend(a: seq<Pair>, b: seq<Pair>)
    requires Normal(a) && Normal(b)
    ensures Normal(a + b)
  {
    forall i | 0 <= i < |a + b| ensures NormalPair((a + b)[i]) {
      if i < |a| { assert (a + b)[i] == a[i]; } else { assert (a + b)[i] == b[i - |a|]; }
    }
  }
}
