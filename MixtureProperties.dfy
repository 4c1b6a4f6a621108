/**
 * What `mix_by_weight` and `mix_by_volume` promise: which errors win, how
 * the scale and the multipliers come out, that each component contributes
 * its share of mass (or volume) in the ratio of the given quantities, and
 * the two ways the weight filter as written and as intended part company.
 */
module MixtureProperties {
  import opened Wrappers
  import opened Atoms
  import opened Structure
  import opened Mass
  import opened Formulas
  import opened Mixture

  // ---------------------------------------------------------------------
  // Real-number steps
  // ---------------------------------------------------------------------

  lemma DivNonNegative(q: real, m: real)
    requires q >= 0.0 && m > 0.0
    ensures q / m >= 0.0
  {
  }

  lemma DivPositive(q: real, m: real)
    requires q > 0.0 && m > 0.0
    ensures q / m > 0.0
  {
  }

  lemma AtLeastOneAt(x: real, m: real, k: real)
    requires 0.0 < m <= x && k == x / m
    ensures k >= 1.0
  {
  }

  lemma SelfAt(m: real, k: real)
    requires m != 0.0 && k == m / m
    ensures k == 1.0
  {
  }

  lemma DivSumAt(a: real, b: real, s: real, x: real, y: real)
    requires s != 0.0 && x == a / s && y == b / s
    ensures (a + b) / s == x + y
  {
  }

  /** By weight: a multiplier `k = (q/m)/s` times the mass `m` is `q/s`. */
  lemma WeightShareAt(q: real, m: real, s: real, r: real, k: real)
    requires m != 0.0 && s != 0.0 && r == q / m && k == r / s
    ensures k * m == q / s
  {
    assert r * m == q;
    assert k * s == r;
    assert (k * m) * s == q;
  }

  /** By volume: a multiplier `k = (q*d/m)/s` times the mass `m` over the density `d` is `q/s`. */
  lemma VolumeShareAt(q: real, d: real, m: real, s: real, r: real, k: real)
    requires m != 0.0 && d != 0.0 && s != 0.0 && r == q * d / m && k == r / s
    ensures k * m / d == q / s
  {
    var qd := q * d;
    WeightShareAt(qd, m, s, r, k);
    assert k * m == qd / s;
    assert (k * m / d) * s == q;
  }

  /** `(q/s)/d == (q/d)/s`. */
  lemma DivSwapAt(q: real, s: real, d: real, x: real, y: real)
    requires s != 0.0 && d != 0.0 && x == q / s && y == q / d
    ensures x / d == y / s
  {
    assert x * s == q;
    assert y * d == q;
    assert (x / d) * d * s == q;
  }

  // ---------------------------------------------------------------------
  // Which error is raised
  // ---------------------------------------------------------------------

  /** An odd number of arguments is rejected before any formula is built. */
  lemma OddArity(table: Table, args: seq<Arg>, density: Option<real>, name: Option<string>)
    requires |args| % 2 == 1
    ensures VolumeMix(table, args, density, name) == Failure(Mixture.OddArity)
    ensures WeightMix(table, args, density, name) == Failure(Mixture.OddArity)
    ensures WeightMixAsWritten(table, args, density, name) == Failure(Mixture.OddArity)
  {
  }

  /**
   * By volume, the density check comes before the filter: a pair whose
   * formula has no density raises even when its quantity would drop it.
   */
  lemma {:induction false} DensityCheckedFirst(table: Table, args: seq<Arg>, density: Option<real>,
                                                name: Option<string>, i: nat)
    requires |args| % 2 == 0 && Components(table, args).Success?
    requires i < |args| / 2
    requires MakeComponent(table, args[2 * i], args[2 * i + 1]).Success?
    requires !Given(MakeComponent(table, args[2 * i], args[2 * i + 1]).value.density)
    ensures VolumeMix(table, args, density, name) == Failure(MissingDensity)
  {
    ComponentsAt(table, args, i);
    var cs := Components(table, args).value;
    assert !Given(cs[i].density);
  }

  // ---------------------------------------------------------------------
  // The ratios, the scale and the multipliers
  // ---------------------------------------------------------------------

  /** Numeric quantities, non-zero masses and (by volume) densities: every ratio is computed. */
  lemma {:induction false} RatiosSucceed(table: Table, cs: seq<Component>, mode: Mode)
    requires forall i :: 0 <= i < |cs| ==> cs[i].quantity.Amount? && ComponentMass(table, cs[i]) != 0.0
    requires mode.ByVolume? ==> forall i :: 0 <= i < |cs| ==> cs[i].density.Some?
    ensures Ratios(table, cs, mode).Success?
  {
    var all := RatioList(table, cs, mode);
    forall j | 0 <= j < |cs| ensures all[j].Success? {
      assert all[j] == Ratio(table, cs[j], mode);
    }
    CollectSuccess(all, |cs|);
  }

  /** Ratio `i` is `q/m` by weight and `q*d/m` by volume, for a non-zero mass `m`. */
  lemma RatioAt(table: Table, cs: seq<Component>, mode: Mode, rs: seq<real>, i: nat)
    requires Ratios(table, cs, mode) == Success(rs) && i < |cs|
    ensures cs[i].quantity.Amount? && ComponentMass(table, cs[i]) != 0.0
    ensures mode.ByVolume? ==> cs[i].density.Some?
    ensures rs[i] == RatioOf(cs[i].quantity.q, cs[i].density, ComponentMass(table, cs[i]), mode)
  {
    var all := RatioList(table, cs, mode);
    CollectAt(all, |cs|, i);
    assert all[i] == Ratio(table, cs[i], mode);
  }

  /** Positive quantities, masses and (by volume) densities give positive ratios. */
  lemma RatiosPositive(table: Table, cs: seq<Component>, mode: Mode, rs: seq<real>)
    requires Ratios(table, cs, mode) == Success(rs)
    requires forall i :: 0 <= i < |cs| ==> cs[i].quantity.Amount? ==> cs[i].quantity.q > 0.0
    requires forall i :: 0 <= i < |cs| ==> ComponentMass(table, cs[i]) > 0.0
    requires mode.ByVolume? ==> forall i :: 0 <= i < |cs| ==> cs[i].density.Some? ==> cs[i].density.value > 0.0
    ensures forall i :: 0 <= i < |rs| ==> rs[i] > 0.0
  {
    forall i | 0 <= i < |rs| ensures rs[i] > 0.0 {
      RatioAt(table, cs, mode, rs, i);
      var q, m := cs[i].quantity.q, ComponentMass(table, cs[i]);
      if mode.ByWeight? {
        DivPositive(q, m);
      } else {
        var d := cs[i].density.value;
        assert q * d > 0.0;
        DivPositive(q * d, m);
      }
    }
  }

  /**
   * With positive ratios, the scale is their minimum, every multiplier is
   * at least one, and the component that sets the scale gets exactly one.
   */
  lemma MultipliersAtLeastOne(rs: seq<real>)
    requires rs != [] && forall i :: 0 <= i < |rs| ==> rs[i] > 0.0
    ensures Min(rs) > 0.0
    ensures forall i :: 0 <= i < |rs| ==> Multipliers(rs, Min(rs))[i] >= 1.0
    ensures exists i :: 0 <= i < |rs| && Multipliers(rs, Min(rs))[i] == 1.0
  {
    var m := Min(rs);
    var ks := Multipliers(rs, m);
    var j :| 0 <= j < |rs| && rs[j] == m;
    forall i | 0 <= i < |rs| ensures ks[i] >= 1.0 {
      var k := ks[i];
      assert k == rs[i] / m;
      AtLeastOneAt(rs[i], m, k);
    }
    var kj := ks[j];
    assert kj == m / m;
    SelfAt(m, kj);
  }

  /** The mass of one component scaled by `k`: multiplier x mass. */
  ghost function ShareMass(table: Table, c: Component, k: real): real
  {
    k * ComponentMass(table, c)
  }

  /** The volume of one component scaled by `k`: multiplier x mass / density. */
  ghost function ShareVolume(table: Table, c: Component, k: real): real
    requires Given(c.density)
  {
    k * ComponentMass(table, c) / c.density.value
  }

  /**
   * Each component's share: by weight, multiplier x mass is the quantity
   * over the scale; by volume, multiplier x mass / density is. So the
   * components' masses (volumes) stand in the ratio of the quantities.
   * By weight the scaled volume is also quantity / density over the scale.
   */
  lemma Share(table: Table, kept: seq<Component>, mode: Mode, rs: seq<real>, scale: real, i: nat)
    requires Ratios(table, kept, mode) == Success(rs) && scale != 0.0 && i < |kept|
    requires mode.ByVolume? ==> Given(kept[i].density)
    ensures kept[i].quantity.Amount?
    ensures mode.ByWeight? ==> ShareMass(table, kept[i], Multipliers(rs, scale)[i]) == QuantityOf(kept[i]) / scale
    ensures mode.ByVolume? ==> ShareVolume(table, kept[i], Multipliers(rs, scale)[i]) == QuantityOf(kept[i]) / scale
    ensures mode.ByWeight? && Given(kept[i].density) ==>
              ShareVolume(table, kept[i], Multipliers(rs, scale)[i]) == VolumeOf(kept[i]) / scale
  {
    var all := RatioList(table, kept, mode);
    CollectAt(all, |kept|, i);
    assert all[i] == Ratio(table, kept[i], mode);
    ComponentShare(table, kept[i], mode, rs[i], scale, Multipliers(rs, scale)[i]);
  }

  /** `Share` for one component whose ratio is `r` and multiplier `k = r/scale`. */
  lemma ComponentShare(table: Table, c: Component, mode: Mode, r: real, scale: real, k: real)
    requires Ratio(table, c, mode) == Success(r) && scale != 0.0 && k == r / scale
    requires mode.ByVolume? ==> Given(c.density)
    ensures c.quantity.Amount?
    ensures mode.ByWeight? ==> ShareMass(table, c, k) == QuantityOf(c) / scale
    ensures mode.ByVolume? ==> ShareVolume(table, c, k) == QuantityOf(c) / scale
    ensures mode.ByWeight? && Given(c.density) ==> ShareVolume(table, c, k) == VolumeOf(c) / scale
  {
    var q, m := c.quantity.q, ComponentMass(table, c);
    assert r == RatioOf(q, c.density, m, mode);
    RatioShare(q, c.density, m, mode, scale, r, k);
  }

  /** The arithmetic of `ComponentShare`, on plain values. */
  lemma RatioShare(q: real, density: Option<real>, m: real, mode: Mode, scale: real, r: real, k: real)
    requires m != 0.0 && scale != 0.0 && (mode.ByVolume? ==> Given(density))
    requires r == RatioOf(q, density, m, mode) && k == r / scale
    ensures mode.ByWeight? ==> k * m == q / scale
    ensures mode.ByVolume? ==> k * m / density.value == q / scale
    ensures mode.ByWeight? && Given(density) ==> k * m / density.value == q / density.value / scale
  {
    if mode.ByWeight? {
      WeightShareAt(q, m, scale, r, k);
      if Given(density) {
        var d := density.value;
        DivSwapAt(q, scale, d, k * m, q / d);
      }
    } else {
      VolumeShareAt(q, density.value, m, scale, r, k);
    }
  }

  // ---------------------------------------------------------------------
  // The computed volume
  // ---------------------------------------------------------------------

  /** The volume of the first `n` scaled components, summed. */
  ghost function ScaledVolume(table: Table, kept: seq<Component>, ks: seq<real>, n: nat): real
    requires n <= |kept| == |ks|
    requires forall i :: 0 <= i < |kept| ==> Given(kept[i].density)
  {
    if n == 0 then 0.0
    else ScaledVolume(table, kept, ks, n - 1) + ShareVolume(table, kept[n - 1], ks[n - 1])
  }

  /** The quantity the code sums for one component: `q` by volume, `q/density` by weight. */
  function Summand(c: Component, mode: Mode): real
  {
    if mode.ByVolume? then QuantityOf(c) else VolumeOf(c)
  }

  /** The sum the code divides by the scale. */
  function Summed(cs: seq<Component>, mode: Mode): real
  {
    if mode.ByVolume? then SumQuantities(cs) else SumVolumes(cs)
  }

  /**
   * The volume the code divides the mass by is the volume of the mixture's
   * components: `sum(q)/scale` by volume and `sum(q/density)/scale` by
   * weight both equal the sum of multiplier x mass / density.
   */
  lemma VolumeOfMixture(table: Table, kept: seq<Component>, mode: Mode, rs: seq<real>, scale: real)
    requires Ratios(table, kept, mode) == Success(rs) && scale != 0.0
    requires forall i :: 0 <= i < |kept| ==> Given(kept[i].density)
    ensures Summed(kept, mode) / scale == ScaledVolume(table, kept, Multipliers(rs, scale), |kept|)
  {
    var ks := Multipliers(rs, scale);
    forall i | 0 <= i < |kept|
      ensures ShareVolume(table, kept[i], ks[i]) == Summand(kept[i], mode) / scale
    {
      Share(table, kept, mode, rs, scale, i);
    }
    SumOfShares(table, kept, mode, ks, scale, |kept|);
    assert kept[..|kept|] == kept;
  }

  /** Summing the shares one component at a time. */
  lemma {:induction false} SumOfShares(table: Table, kept: seq<Component>, mode: Mode,
                                       ks: seq<real>, scale: real, n: nat)
    requires scale != 0.0 && n <= |kept| == |ks|
    requires forall i :: 0 <= i < |kept| ==> Given(kept[i].density)
    requires forall i :: 0 <= i < |kept| ==> ShareVolume(table, kept[i], ks[i]) == Summand(kept[i], mode) / scale
    ensures Summed(kept[..n], mode) / scale == ScaledVolume(table, kept, ks, n)
  {
    if n > 0 {
      SumOfShares(table, kept, mode, ks, scale, n - 1);
      var prefix := kept[..n];
      assert prefix[..n - 1] == kept[..n - 1];
      assert prefix[n - 1] == kept[n - 1];
      var before, last := Summed(kept[..n - 1], mode), Summand(kept[n - 1], mode);
      assert Summed(prefix, mode) == before + last;
      DivSumAt(before, last, scale, before / scale, last / scale);
    }
  }

  // ---------------------------------------------------------------------
  // Nothing left after the filter
  // ---------------------------------------------------------------------

  /** The filter keeps nothing when no quantity is above zero. */
  lemma {:induction false} KeptNone(cs: seq<Component>)
    requires forall i :: 0 <= i < |cs| ==> !AboveZero(cs[i].quantity)
    ensures Kept(cs) == []
  {
    if cs != [] {
      KeptNone(cs[1..]);
    }
  }

  /**
   * When every pair is dropped, the mixture is the empty formula with the
   * given density; with no density given, the volume is zero and the
   * density computation divides by it.
   */
  lemma AllDropped(table: Table, args: seq<Arg>, density: Option<real>, name: Option<string>)
    requires |args| % 2 == 0 && Components(table, args).Success?
    requires var cs := Components(table, args).value;
             && AllDense(cs)
             && forall i :: 0 <= i < |cs| ==> !AboveZero(cs[i].quantity)
    ensures Given(density) ==>
              VolumeMix(table, args, density, name) == Success(MixValue([], density, if Named(name) then name else None))
    ensures !Given(density) ==> VolumeMix(table, args, density, name) == Failure(DivisionByZero)
  {
    var cs := Components(table, args).value;
    KeptNone(cs);
    assert Ratios(table, [], ByVolume) == Success([]);
  }

  // ---------------------------------------------------------------------
  // mix_by_weight's filter, as written and as intended
  // ---------------------------------------------------------------------

  /**
   * As written, no pair is dropped: a zero quantity among positive masses
   * makes the scale zero, and the first `(...)/scale` divides by it.
   */
  lemma ZeroQuantityAsWritten(table: Table, args: seq<Arg>, density: Option<real>, name: Option<string>, j: nat)
    requires |args| % 2 == 0 && Components(table, args).Success?
    requires var cs := Components(table, args).value;
             && (forall i :: 0 <= i < |cs| ==> cs[i].quantity.Amount? && cs[i].quantity.q >= 0.0)
             && (forall i :: 0 <= i < |cs| ==> ComponentMass(table, cs[i]) > 0.0)
             && j < |cs| && cs[j].quantity.q == 0.0
    ensures WeightMixAsWritten(table, args, density, name) == Failure(DivisionByZero)
  {
    var cs := Components(table, args).value;
    RatiosSucceed(table, cs, ByWeight);
    var rs := Ratios(table, cs, ByWeight).value;
    forall i | 0 <= i < |rs| ensures rs[i] >= 0.0 {
      RatioAt(table, cs, ByWeight, rs, i);
      DivNonNegative(cs[i].quantity.q, ComponentMass(table, cs[i]));
    }
    RatioAt(table, cs, ByWeight, rs, j);
    assert rs[j] == 0.0;
    var m := Min(rs);
    assert m <= rs[j];
    assert m == 0.0;
  }

  /** By weight, the sum of `q/density` over components with positive quantities and densities is positive. */
  lemma {:induction false} SumVolumesPositive(cs: seq<Component>)
    requires cs != []
    requires forall i :: 0 <= i < |cs| ==> cs[i].quantity.Amount? && cs[i].quantity.q > 0.0
    requires forall i :: 0 <= i < |cs| ==> cs[i].density.Some? && cs[i].density.value > 0.0
    ensures SumVolumes(cs) > 0.0
  {
    var last := cs[|cs| - 1];
    DivPositive(last.quantity.q, last.density.value);
    if |cs| > 1 {
      SumVolumesPositive(cs[..|cs| - 1]);
    }
  }

  /**
   * By weight, a non-empty list of pairs with positive quantities, masses
   * and (where given) densities mixes: the scale is positive and so is the
   * volume the density is computed from.
   */
  lemma KeptMixes(table: Table, kept: seq<Component>, density: Option<real>, name: Option<string>)
    requires kept != []
    requires forall i :: 0 <= i < |kept| ==> kept[i].quantity.Amount? && kept[i].quantity.q > 0.0
    requires forall i :: 0 <= i < |kept| ==> ComponentMass(table, kept[i]) > 0.0
    requires forall i :: 0 <= i < |kept| ==> kept[i].density.Some? ==> kept[i].density.value > 0.0
    ensures MixKeptValue(table, kept, ByWeight, density, name).Success?
  {
    RatiosSucceed(table, kept, ByWeight);
    var rs := Ratios(table, kept, ByWeight).value;
    RatiosPositive(table, kept, ByWeight, rs);
    MultipliersAtLeastOne(rs);
    var scale := Min(rs);
    if !Given(density) && AllDense(kept) {
      SumVolumesPositive(kept);
      DivPositive(SumVolumes(kept), scale);
    }
  }

  /**
   * As intended, the same inputs mix: with some positive quantity, positive
   * masses, and positive densities where given, the zero quantity is
   * dropped and the scale is positive.
   */
  lemma ZeroQuantityIntended(table: Table, args: seq<Arg>, density: Option<real>, name: Option<string>, j: nat)
    requires |args| % 2 == 0 && Components(table, args).Success?
    requires var cs := Components(table, args).value;
             && (forall i :: 0 <= i < |cs| ==> cs[i].quantity.Amount? && cs[i].quantity.q >= 0.0)
             && (forall i :: 0 <= i < |cs| ==> ComponentMass(table, cs[i]) > 0.0)
             && (forall i :: 0 <= i < |cs| ==> cs[i].density.Some? ==> cs[i].density.value > 0.0)
             && j < |cs| && cs[j].quantity.q > 0.0
    ensures WeightMix(table, args, density, name).Success?
  {
    var cs := Components(table, args).value;
    KeptPositive(table, cs, j);
    KeptMixes(table, Kept(cs), density, name);
  }

  /** What survives the filter of such pairs: at least one pair, each with positive values. */
  lemma KeptPositive(table: Table, cs: seq<Component>, j: nat)
    requires forall i :: 0 <= i < |cs| ==> cs[i].quantity.Amount? && cs[i].quantity.q >= 0.0
    requires forall i :: 0 <= i < |cs| ==> ComponentMass(table, cs[i]) > 0.0
    requires forall i :: 0 <= i < |cs| ==> cs[i].density.Some? ==> cs[i].density.value > 0.0
    requires j < |cs| && cs[j].quantity.q > 0.0
    ensures var kept := Kept(cs);
            && kept != []
            && (forall i :: 0 <= i < |kept| ==> kept[i].quantity.Amount? && kept[i].quantity.q > 0.0)
            && (forall i :: 0 <= i < |kept| ==> ComponentMass(table, kept[i]) > 0.0)
            && (forall i :: 0 <= i < |kept| ==> kept[i].density.Some? ==> kept[i].density.value > 0.0)
  {
    var kept := Kept(cs);
    assert cs[j] in kept;
    forall i | 0 <= i < |kept|
      ensures kept[i].quantity.Amount? && kept[i].quantity.q > 0.0 && ComponentMass(table, kept[i]) > 0.0
      ensures kept[i].density.Some? ==> kept[i].density.value > 0.0
    {
      var k :| 0 <= k < |cs| && cs[k] == kept[i];
    }
  }
}
