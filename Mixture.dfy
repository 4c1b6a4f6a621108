/**
 * `mix_by_weight` and `mix_by_volume` of periodictable/formulas.py: a
 * mixture formula whose components are scaled so that their masses (or
 * volumes) stand in the ratio of the given quantities, the smallest scaled
 * to one formula unit, with a density computed from the components'.
 */
module Mixture {
  import opened Wrappers
  import opened Atoms
  import opened Structure
  import opened Mass
  import opened Algebra
  import opened Formulas

  /**
   * A positional argument: something `Formula()` is given, a number, or
   * `None`. As a quantity, `Material(Nothing)` stands for the empty string.
   */
  datatype Arg = Material(value: Initializer) | Amount(q: real) | NoValue

  /** The errors the mixing functions raise. */
  datatype MixError =
    | OddArity                       // ValueError: a formula without a quantity
    | BadComponent(error: InitError) // ValueError from `Formula(args[i])`
    | MissingDensity                 // ValueError: a component without a density (by volume)
    | NotNumeric                     // TypeError: arithmetic on a quantity that is not a number
    | DivisionByZero                 // ZeroDivisionError

  /** Which quantity the components are apportioned by. */
  datatype Mode = ByWeight | ByVolume

  /** A pair `(Formula(args[i]), args[i+1])`, kept as the fields the mixing code reads. */
  datatype Component = Component(structure: seq<Pair>, density: Option<real>, quantity: Arg)

  /** The mixture's fields. */
  datatype MixValue = MixValue(structure: seq<Pair>, density: Option<real>, name: Option<string>)

  // ---------------------------------------------------------------------
  // The components
  // ---------------------------------------------------------------------

  /** `(Formula(a), q)`; a number is not a valid formula initializer, and `Formula(None)` is empty. */
  function MakeComponent(table: Table, a: Arg, q: Arg): Result<Component, MixError>
  {
    match a
    case Amount(_) => Failure(BadComponent(BadStructure))
    case NoValue => FromInitializer(table, Nothing, q)
    case Material(v) => FromInitializer(table, v, q)
  }

  function FromInitializer(table: Table, v: Initializer, q: Arg): Result<Component, MixError>
  {
    match InitialStructure(table, v)
    case Failure(e) => Failure(BadComponent(e))
    case Success(s) => Success(Component(s, InitialDensity(table, v, None, s), q))
  }

  /**
   * The first `n` results, in order, or the first error among them: a list
   * built element by element, where the first failing element raises.
   */
  function Collect<T, E>(rs: seq<Result<T, E>>, n: nat): (r: Result<seq<T>, E>)
    requires n <= |rs|
    ensures r.Success? ==> |r.value| == n
  {
    if n == 0 then Success([])
    else
      match Collect(rs, n - 1)
      case Failure(e) => Failure(e)
      case Success(xs) =>
        match rs[n - 1]
        case Failure(e) => Failure(e)
        case Success(x) => Success(xs + [x])
  }

  /** Collected element `i` is the value of result `i`. */
  lemma {:induction false} CollectAt<T, E>(rs: seq<Result<T, E>>, n: nat, i: nat)
    requires n <= |rs| && Collect(rs, n).Success? && i < n
    ensures rs[i] == Success(Collect(rs, n).value[i])
  {
    if i < n - 1 {
      CollectAt(rs, n - 1, i);
    }
  }

  /** The result is the error of the first failing element, if any. */
  lemma {:induction false} CollectFailure<T, E>(rs: seq<Result<T, E>>, n: nat, i: nat)
    requires i < n <= |rs| && rs[i].Failure?
    requires forall j :: 0 <= j < i ==> rs[j].Success?
    ensures Collect(rs, n) == Failure(rs[i].error)
  {
    if i < n - 1 {
      CollectFailure(rs, n - 1, i);
    } else {
      CollectSuccess(rs, i);
    }
  }

  /** With no failing element, every element is collected. */
  lemma {:induction false} CollectSuccess<T, E>(rs: seq<Result<T, E>>, n: nat)
    requires n <= |rs| && forall j :: 0 <= j < n ==> rs[j].Success?
    ensures Collect(rs, n).Success?
  {
    if n > 0 {
      CollectSuccess(rs, n - 1);
    }
  }

  /** Once the first `n` results fail, every longer prefix fails the same way. */
  lemma {:induction false} CollectStopsAtError<T, E>(rs: seq<Result<T, E>>, n: nat, k: nat)
    requires n <= k <= |rs| && Collect(rs, n).Failure?
    ensures Collect(rs, k) == Collect(rs, n)
    decreases k
  {
    if n < k {
      CollectStopsAtError(rs, n, k - 1);
    }
  }

  /** `Formula(args[i])` for each formula position, in order. */
  function MadeComponents(table: Table, args: seq<Arg>): (rs: seq<Result<Component, MixError>>)
    requires |args| % 2 == 0
    ensures |rs| * 2 == |args|
  {
    seq(|args| / 2, i requires 0 <= i < |args| / 2 => MakeComponent(table, args[2 * i], args[2 * i + 1]))
  }

  /** The list of pairs: the first bad formula is the one reported. */
  function Components(table: Table, args: seq<Arg>): (r: Result<seq<Component>, MixError>)
    requires |args| % 2 == 0
    ensures r.Success? ==> |r.value| * 2 == |args|
  {
    Collect(MadeComponents(table, args), |args| / 2)
  }

  /** Component `i` is `(Formula(args[2i]), args[2i+1])`. */
  lemma ComponentsAt(table: Table, args: seq<Arg>, i: nat)
    requires |args| % 2 == 0 && Components(table, args).Success?
    requires i < |args| / 2
    ensures MakeComponent(table, args[2 * i], args[2 * i + 1]) == Success(Components(table, args).value[i])
  {
    CollectAt(MadeComponents(table, args), |args| / 2, i);
  }

  /** Every component has a density, in Python's sense of truth. */
  predicate AllDense(cs: seq<Component>)
  {
    forall i :: 0 <= i < |cs| ==> Given(cs[i].density)
  }

  /**
   * `if q > 0` under Python 2's ordering of mixed types: `None` is below
   * every number, a number must be positive, and any other object (a
   * string, a formula) compares above every number.
   */
  predicate AboveZero(q: Arg)
  {
    match q
    case NoValue => false
    case Amount(x) => x > 0.0
    case Material(_) => true
  }

  /** The pairs kept by the filter on the quantity. */
  function Kept(cs: seq<Component>): (r: seq<Component>)
    ensures forall i :: 0 <= i < |r| ==> r[i] in cs && AboveZero(r[i].quantity)
    ensures forall c :: c in cs && AboveZero(c.quantity) ==> c in r
    ensures |r| <= |cs|
  {
    if cs == [] then []
    else if AboveZero(cs[0].quantity) then [cs[0]] + Kept(cs[1..])
    else Kept(cs[1..])
  }

  /** The filter works pair by pair: filtering a concatenation filters each part. */
  lemma {:induction false} KeptAppend(a: seq<Component>, b: seq<Component>)
    ensures Kept(a + b) == Kept(a) + Kept(b)
  {
    if a == [] {
      assert a + b == b;
    } else {
      assert (a + b)[0] == a[0];
      assert (a + b)[1..] == a[1..] + b;
      KeptAppend(a[1..], b);
    }
  }

  /** One more pair is kept, in its place at the end, exactly when its quantity compares above 0. */
  lemma KeptSnoc(cs: seq<Component>, c: Component)
    ensures Kept(cs + [c]) == Kept(cs) + (if AboveZero(c.quantity) then [c] else [])
  {
    KeptAppend(cs, [c]);
    assert [c][1..] == [];
  }

  // ---------------------------------------------------------------------
  // The scale and the multipliers
  // ---------------------------------------------------------------------

  /** The mass of a component's formula (its `mass` property). */
  ghost function ComponentMass(table: Table, c: Component): real
  {
    MassOf(table, TallyOf(c.structure))
  }

  /**
   * The number of formula units per unit quantity: `q/f.mass` by weight,
   * `q*f.density/f.mass` by volume, with the errors Python raises on the way.
   */
  ghost function Ratio(table: Table, c: Component, mode: Mode): (r: Result<real, MixError>)
    ensures r.Success? ==> c.quantity.Amount? && ComponentMass(table, c) != 0.0
    ensures r.Success? && mode.ByVolume? ==> c.density.Some?
  {
    if !c.quantity.Amount? then Failure(NotNumeric)
    else if mode.ByVolume? && c.density.None? then Failure(NotNumeric)
    else
      var m := ComponentMass(table, c);
      if m == 0.0 then Failure(DivisionByZero)
      else Success(RatioOf(c.quantity.q, c.density, m, mode))
  }

  /** The arithmetic of one ratio, for a non-zero mass. */
  function RatioOf(q: real, density: Option<real>, m: real, mode: Mode): real
    requires m != 0.0 && (mode.ByVolume? ==> density.Some?)
  {
    if mode.ByWeight? then q / m else q * density.value / m
  }

  /** The ratio of each kept pair, each on its own. */
  ghost function RatioList(table: Table, cs: seq<Component>, mode: Mode): (rs: seq<Result<real, MixError>>)
    ensures |rs| == |cs|
  {
    seq(|cs|, i requires 0 <= i < |cs| => Ratio(table, cs[i], mode))
  }

  /** The ratios of the kept pairs, evaluated in order, so the first error is the one raised. */
  ghost function Ratios(table: Table, cs: seq<Component>, mode: Mode): (r: Result<seq<real>, MixError>)
    ensures r.Success? ==> |r.value| == |cs|
  {
    Collect(RatioList(table, cs, mode), |cs|)
  }

  /** `min(...)` of a non-empty list. */
  function Min(rs: seq<real>): (m: real)
    requires rs != []
    ensures m in rs
    ensures forall i :: 0 <= i < |rs| ==> m <= rs[i]
  {
    if |rs| == 1 then rs[0]
    else
      var rest := Min(rs[1..]);
      assert forall i :: 1 <= i < |rs| ==> rs[i] == rs[1..][i - 1];
      if rs[0] <= rest then rs[0] else rest
  }

  /** The multiplier of each component: its ratio over the scale. */
  function Multipliers(rs: seq<real>, scale: real): (ks: seq<real>)
    requires scale != 0.0
    ensures |ks| == |rs|
  {
    seq(|rs|, i requires 0 <= i < |rs| => rs[i] / scale)
  }

  // ---------------------------------------------------------------------
  // The mixture
  // ---------------------------------------------------------------------

  /** `result += k * f` over the first `n` components. */
  function MixStructure(cs: seq<Component>, ks: seq<real>, n: nat): seq<Pair>
    requires n <= |cs| && |cs| == |ks|
  {
    if n == 0 then []
    else Join(MixStructure(cs, ks, n - 1), Algebra.Times(ks[n - 1], cs[n - 1].structure))
  }

  /** The sum of the (numeric) quantities: `sum(q for _,q in pairs)`. */
  function SumQuantities(cs: seq<Component>): real
  {
    if cs == [] then 0.0
    else SumQuantities(cs[..|cs| - 1]) + QuantityOf(cs[|cs| - 1])
  }

  function QuantityOf(c: Component): real
  {
    if c.quantity.Amount? then c.quantity.q else 0.0
  }

  /** `sum(q/f.density for f,q in pairs)`, for components that all have densities. */
  function SumVolumes(cs: seq<Component>): real
  {
    if cs == [] then 0.0
    else SumVolumes(cs[..|cs| - 1]) + VolumeOf(cs[|cs| - 1])
  }

  function VolumeOf(c: Component): real
  {
    if c.quantity.Amount? && c.density.Some? && c.density.value != 0.0
    then c.quantity.q / c.density.value else 0.0
  }

  /**
   * Everything after the filter: the scale, the accumulated structure, the
   * density and name overrides, and the computed density.
   */
  ghost function MixKeptValue(table: Table, kept: seq<Component>, mode: Mode,
                              density: Option<real>, name: Option<string>): Result<MixValue, MixError>
  {
    match Ratios(table, kept, mode)
    case Failure(e) => Failure(e)
    case Success(rs) =>
      var scale := if rs == [] then 1.0 else Min(rs);
      if scale == 0.0 then Failure(DivisionByZero)
      else
        var s := MixStructure(kept, Multipliers(rs, scale), |kept|);
        Finished(table, s, kept, mode, scale, density, name)
  }

  /** The overrides and the computed density of a mixture whose structure is `s`. */
  ghost function Finished(table: Table, s: seq<Pair>, kept: seq<Component>, mode: Mode, scale: real,
                          density: Option<real>, name: Option<string>): Result<MixValue, MixError>
    requires scale != 0.0
  {
    var nm := if Named(name) then name else None;
    if Given(density) then Success(MixValue(s, density, nm))
    else if mode.ByWeight? && !AllDense(kept) then Success(MixValue(s, None, nm))
    else
      var volume := (if mode.ByVolume? then SumQuantities(kept) else SumVolumes(kept)) / scale;
      if volume == 0.0 then Failure(DivisionByZero)
      else Success(MixValue(s, Some(MassOf(table, TallyOf(s)) / volume), nm))
  }

  /** `mix_by_volume(*args, density=, name=)`. */
  ghost function VolumeMix(table: Table, args: seq<Arg>, density: Option<real>, name: Option<string>)
    : Result<MixValue, MixError>
  {
    if |args| % 2 != 0 then Failure(OddArity)
    else
      match Components(table, args)
      case Failure(e) => Failure(e)
      case Success(cs) =>
        if !AllDense(cs) then Failure(MissingDensity)
        else MixKeptValue(table, Kept(cs), ByVolume, density, name)
  }

  /**
   * `mix_by_weight` as written: the filter unpacks each pair in the wrong
   * order and tests the formula, which in Python 2 always compares above
   * 0, so no pair is dropped.
   */
  ghost function WeightMixAsWritten(table: Table, args: seq<Arg>, density: Option<real>, name: Option<string>)
    : Result<MixValue, MixError>
  {
    if |args| % 2 != 0 then Failure(OddArity)
    else
      match Components(table, args)
      case Failure(e) => Failure(e)
      case Success(cs) => MixKeptValue(table, cs, ByWeight, density, name)
  }

  /** `mix_by_weight` as intended: pairs whose quantity is not positive are dropped. */
  ghost function WeightMix(table: Table, args: seq<Arg>, density: Option<real>, name: Option<string>)
    : Result<MixValue, MixError>
  {
    if |args| % 2 != 0 then Failure(OddArity)
    else
      match Components(table, args)
      case Failure(e) => Failure(e)
      case Success(cs) => MixKeptValue(table, Kept(cs), ByWeight, density, name)
  }

  // ---------------------------------------------------------------------
  // The mixing code
  // ---------------------------------------------------------------------

  /** `mix_by_volume(*args, density=density, name=name)`. */
  method MixByVolume(table: Table, args: seq<Arg>, density: Option<real>, name: Option<string>)
    returns (r: Result<Formula, MixError>)
    ensures match VolumeMix(table, args, density, name)
            case Failure(e) => r == Failure(e)
            case Success(v) => && r.Success? && fresh(r.value)
                               && r.value.structure == v.structure
                               && r.value.density == v.density && r.value.name == v.name
  {
    if |args| % 2 != 0 {
      return Failure(OddArity);
    }
    var pairs := Components(table, args);
    if pairs.Failure? {
      return Failure(pairs.error);
    }
    if !AllDense(pairs.value) {
      return Failure(MissingDensity);
    }
    r := MixKept(table, Kept(pairs.value), ByVolume, density, name);
  }

  /** `mix_by_weight(*args, density=density, name=name)` as written: no pair is dropped. */
  method MixByWeightAsWritten(table: Table, args: seq<Arg>, density: Option<real>, name: Option<string>)
    returns (r: Result<Formula, MixError>)
    ensures match WeightMixAsWritten(table, args, density, name)
            case Failure(e) => r == Failure(e)
            case Success(v) => && r.Success? && fresh(r.value)
                               && r.value.structure == v.structure
                               && r.value.density == v.density && r.value.name == v.name
  {
    if |args| % 2 != 0 {
      return Failure(OddArity);
    }
    var pairs := Components(table, args);
    if pairs.Failure? {
      return Failure(pairs.error);
    }
    r := MixKept(table, pairs.value, ByWeight, density, name);
  }

  /** `mix_by_weight` with the filter testing the quantity, as its comment intends. */
  method MixByWeight(table: Table, args: seq<Arg>, density: Option<real>, name: Option<string>)
    returns (r: Result<Formula, MixError>)
    ensures match WeightMix(table, args, density, name)
            case Failure(e) => r == Failure(e)
            case Success(v) => && r.Success? && fresh(r.value)
                               && r.value.structure == v.structure
                               && r.value.density == v.density && r.value.name == v.name
  {
    if |args| % 2 != 0 {
      return Failure(OddArity);
    }
    var pairs := Components(table, args);
    if pairs.Failure? {
      return Failure(pairs.error);
    }
    r := MixKept(table, Kept(pairs.value), ByWeight, density, name);
  }

  /**
   * The shared part of both functions: the scale, the `result += k * f`
   * loop, the overrides and the computed density.
   */
  method MixKept(table: Table, kept: seq<Component>, mode: Mode, density: Option<real>, name: Option<string>)
    returns (r: Result<Formula, MixError>)
    ensures match MixKeptValue(table, kept, mode, density, name)
            case Failure(e) => r == Failure(e)
            case Success(v) => && r.Success? && fresh(r.value)
                               && r.value.structure == v.structure
                               && r.value.density == v.density && r.value.name == v.name
  {
    var ratios := ComputeRatios(table, kept, mode);
    if ratios.Failure? {
      return Failure(ratios.error);
    }
    var rs := ratios.value;
    var scale := if rs == [] then 1.0 else Min(rs);
    if scale == 0.0 {
      // `kept` is not empty, and the loop's first `(...)/scale` divides by zero
      return Failure(DivisionByZero);
    }
    var result := Accumulate(table, kept, Multipliers(rs, scale));
    r := Finish(table, result, kept, mode, scale, density, name);
  }

  /** `result = Formula()` followed by `result += k * f` for each kept pair. */
  method Accumulate(table: Table, kept: seq<Component>, ks: seq<real>) returns (result: Formula)
    requires |kept| == |ks|
    ensures fresh(result)
    ensures result.structure == MixStructure(kept, ks, |kept|)
    ensures result.density == None && result.name == None
  {
    result := new Formula([], None, None);
    var i := 0;
    while i < |kept|
      invariant 0 <= i <= |kept|
      invariant fresh(result)
      invariant result.structure == MixStructure(kept, ks, i)
      invariant result.density == None && result.name == None
    {
      ghost var before := result.structure;
      AddScaled(table, result, kept[i], ks[i]);
      assert result.structure == Join(before, Algebra.Times(ks[i], kept[i].structure));
      i := i + 1;
    }
  }

  /** `result += k * f` for one pair. */
  method AddScaled(table: Table, result: Formula, c: Component, k: real)
    modifies result
    ensures result.structure == Join(old(result.structure), Algebra.Times(k, c.structure))
    ensures result.density == old(result.density) && result.name == old(result.name)
  {
    var f := new Formula(c.structure, c.density, None);
    var part := f.Times(table, Some(k));
    result.Extend(part.value);
  }

  /** The `density` and `name` overrides, then the density computed from the components. */
  method Finish(table: Table, result: Formula, kept: seq<Component>, mode: Mode, scale: real,
                density: Option<real>, name: Option<string>) returns (r: Result<Formula, MixError>)
    requires scale != 0.0 && result.density == None && result.name == None
    modifies result
    ensures match Finished(table, old(result.structure), kept, mode, scale, density, name)
            case Failure(e) => r == Failure(e)
            case Success(v) => && r == Success(result)
                               && result.structure == v.structure
                               && result.density == v.density && result.name == v.name
  {
    if Given(density) {
      result.density := density;
    }
    if Named(name) {
      result.name := name;
    }
    if !Given(result.density) && (mode.ByVolume? || AllDense(kept)) {
      var volume := (if mode.ByVolume? then SumQuantities(kept) else SumVolumes(kept)) / scale;
      if volume == 0.0 {
        return Failure(DivisionByZero);
      }
      var mass := result.Mass(table);
      result.density := Some(mass / volume);
    }
    return Success(result);
  }

  /** The `min(...)` generator: one ratio per kept pair, stopping at the first error. */
  method ComputeRatios(table: Table, cs: seq<Component>, mode: Mode) returns (r: Result<seq<real>, MixError>)
    ensures r == Ratios(table, cs, mode)
  {
    ghost var all := RatioList(table, cs, mode);
    var rs: seq<real> := [];
    var i := 0;
    while i < |cs|
      invariant 0 <= i <= |cs|
      invariant Collect(all, i) == Success(rs)
    {
      var next := NextRatios(table, cs, mode, i, rs);
      if next.Failure? {
        RatiosStop(table, cs, mode, i + 1, next.error);
        return next;
      }
      rs, i := next.value, i + 1;
    }
    assert Ratios(table, cs, mode) == Collect(all, |cs|);
    return Success(rs);
  }

  /** An error among the first `n` ratios is the error of them all. */
  lemma RatiosStop(table: Table, cs: seq<Component>, mode: Mode, n: nat, e: MixError)
    requires n <= |cs| && Collect(RatioList(table, cs, mode), n) == Failure(e)
    ensures Ratios(table, cs, mode) == Failure(e)
  {
    CollectStopsAtError(RatioList(table, cs, mode), n, |cs|);
  }

  /** One step of the generator: the ratio of pair `i` appended, or its error. */
  method NextRatios(table: Table, cs: seq<Component>, mode: Mode, i: nat, rs: seq<real>)
    returns (r: Result<seq<real>, MixError>)
    requires i < |cs| && Collect(RatioList(table, cs, mode), i) == Success(rs)
    ensures r == Collect(RatioList(table, cs, mode), i + 1)
  {
    var x := ComputeRatio(table, cs[i], mode);
    if x.Failure? {
      return Failure(x.error);
    }
    return Success(rs + [x.value]);
  }

  /** `q/f.mass` or `q*f.density/f.mass` for one pair. */
  method ComputeRatio(table: Table, c: Component, mode: Mode) returns (r: Result<real, MixError>)
    ensures r == Ratio(table, c, mode)
  {
    if !c.quantity.Amount? || (mode.ByVolume? && c.density.None?) {
      return Failure(NotNumeric);
    }
    var f := new Formula(c.structure, c.density, None);
    var m := f.Mass(table);
    assert m == ComponentMass(table, c);
    if m == 0.0 {
      return Failure(DivisionByZero);
    }
    r := Success(RatioOf(c.quantity.q, c.density, m, mode));
  }
}
