/**
 * The `Formula` class of periodictable/formulas.py: a formula structure
 * with an optional density and name, built from any of the accepted
 * initializers, and the operations on it (atom tally, Hill form, mass,
 * equality, joining, scaling, printing and pickling).
 */
module Formulas {
  import opened Wrappers
  import opened Atoms
  import opened Structure
  import opened Mass
  import opened Hill
  import opened Algebra
  import opened Printing
  import Grammar

  /**
   * What `Formula(value)` accepts: nothing (None or ""), another formula
   * (its fields), a single atom, an atom-count dictionary, a formula
   * string, or a hand-built structure.
   */
  datatype Initializer =
    | Nothing
    | Copy(structure: seq<Pair>, density: Option<real>, name: Option<string>)
    | SingleAtom(atom: Atom)
    | Counts(tally: Tally)
    | Text(text: string)
    | Built(value: PyValue)

  /** The ValueErrors `Formula(value)` raises. */
  datatype InitError = BadStructure | BadFormula(error: Grammar.ParseError)

  /** The TypeErrors of the arithmetic operators. */
  datatype OperandError = NotAFormula | NotANumber

  /** The state `__getstate__` hands to pickle: the structure as its formula string. */
  datatype PickleState = PickleState(structure: string, density: Option<real>, name: Option<string>)

  /** Python truth of an optional density: present and non-zero. */
  predicate Given(d: Option<real>)
  {
    d.Some? && d.value != 0.0
  }

  /** Python truth of an optional name: present and non-empty. */
  predicate Named(n: Option<string>)
  {
    n.Some? && n.value != ""
  }

  /** The structure `__init__` builds from its initializer, or the error it raises. */
  function InitialStructure(table: Table, value: Initializer): (r: Result<seq<Pair>, InitError>)
    ensures value.Counts? ==> r.Success?
  {
    match value
    case Nothing => Success([])
    case Copy(s, _, _) => Success(s)
    case SingleAtom(a) => Success([Pair(1.0, Leaf(a))])
    case Counts(m) => Success(HillNotation(m))
    case Text(t) =>
      if t == "" then Success([])
      else
        (match Grammar.Parse(table, t)
         case Success(s) => Success(s)
         case Failure(e) => Failure(BadFormula(e)))
    case Built(v) =>
      if CheckAtoms(v) then Success(Immutable(v)) else Failure(BadStructure)
  }

  /**
   * What each initializer gives: the empty formula for nothing, a copy's
   * structure unchanged, one unit of an atom, the Hill form of a tally
   * (with that tally), the parse of a string or its error, and a
   * hand-built structure exactly when it passes the check.
   */
  lemma InitialStructureCases(table: Table, value: Initializer)
    ensures var r := InitialStructure(table, value);
            && (value.Nothing? || value == Text("") ==> r == Success([]))
            && (value.Copy? ==> r == Success(value.structure))
            && (value.SingleAtom? ==> r == Success([Pair(1.0, Leaf(value.atom))]))
            && (value.Counts? ==> r.Success? && IsHillForm(r.value) && TallyOf(r.value) == value.tally)
            && (value.Built? ==> (r.Success? <==> CheckAtoms(value.value)))
            && (value.Text? && value.text != "" ==>
                  match Grammar.Parse(table, value.text)
                  case Success(s) => r == Success(s)
                  case Failure(e) => r == Failure(BadFormula(e)))
  {
    if value.Counts? {
      HillPreservesTally(value.tally);
    }
  }

  /** The only atomic unit of a one-entry tally (`self.atoms.keys()[0]`). */
  function OnlyAtom(m: Tally): (a: Atom)
    requires |m| == 1
    ensures m.Keys == {a}
  {
    var s := HillNotation(m);
    var a := s[0].fragment.atom;
    forall b | b in m ensures b == a {
      assert Pair(m[b], Leaf(b)) in s;
    }
    a
  }

  /**
   * The density `__init__` leaves: the copied density, replaced by a
   * non-zero `density` argument; when still None and the formula has a
   * single kind of atom, that atom's density.
   */
  function InitialDensity(table: Table, value: Initializer, density: Option<real>, structure: seq<Pair>): Option<real>
  {
    var kept := if Given(density) then density else if value.Copy? then value.density else None;
    if kept.None? && |TallyOf(structure)| == 1 then table.density(OnlyAtom(TallyOf(structure)))
    else kept
  }

  /**
   * A non-zero density argument wins; otherwise a copied density is kept;
   * otherwise a formula with a single kind of atom takes that atom's
   * density, and any other formula has none.
   */
  lemma InitialDensityCases(table: Table, value: Initializer, density: Option<real>, structure: seq<Pair>)
    ensures var d := InitialDensity(table, value, density, structure);
            && (Given(density) ==> d == density)
            && (!Given(density) && value.Copy? && value.density.Some? ==> d == value.density)
            && (!Given(density) && !(value.Copy? && value.density.Some?) ==>
                  if |TallyOf(structure)| == 1
                  then exists a :: TallyOf(structure).Keys == {a} && d == table.density(a)
                  else d == None)
  {
    if |TallyOf(structure)| == 1 {
      var a := OnlyAtom(TallyOf(structure));
      assert TallyOf(structure).Keys == {a};
    }
  }

  /** The density default, once the copied density and the override are settled. */
  lemma DensityDefault(table: Table, value: Initializer, density: Option<real>, structure: seq<Pair>, kept: Option<real>)
    requires kept == if Given(density) then density else if value.Copy? then value.density else None
    ensures kept.Some? ==> InitialDensity(table, value, density, structure) == kept
    ensures kept.None? && |TallyOf(structure)| == 1 ==>
              InitialDensity(table, value, density, structure) == table.density(OnlyAtom(TallyOf(structure)))
    ensures kept.None? && |TallyOf(structure)| != 1 ==> InitialDensity(table, value, density, structure) == None
  {
  }

  /** The name `__init__` leaves: a non-empty `name` argument, else the copied name. */
  function InitialName(value: Initializer, name: Option<string>): (n: Option<string>)
    ensures Named(name) ==> n == name
    ensures !Named(name) ==> n == (if value.Copy? then value.name else None)
  {
    if Named(name) then name else if value.Copy? then value.name else None
  }

  /** `str(formula)`: the name when there is one, otherwise the formula string. */
  function Display(structure: seq<Pair>, name: Option<string>): (s: string)
    ensures Named(name) ==> s == name.value
    ensures !Named(name) ==> s == Render(structure)
  {
    if Named(name) then name.value else Render(structure)
  }

  class Formula {
    var structure: seq<Pair>
    var density: Option<real>
    var name: Option<string>

    constructor (structure: seq<Pair>, density: Option<real>, name: Option<string>)
      ensures this.structure == structure && this.density == density && this.name == name
    {
      this.structure := structure;
      this.density := density;
      this.name := name;
    }

    /**
     * `Formula(value, density, name)`: the structure from the initializer,
     * then the density and name overrides, then the single-atom density
     * default.
     */
    static method New(table: Table, value: Initializer, density: Option<real>, name: Option<string>)
      returns (r: Result<Formula, InitError>)
      ensures InitialStructure(table, value).Failure? ==> r == Failure(InitialStructure(table, value).error)
      ensures InitialStructure(table, value).Success? ==>
                && r.Success? && fresh(r.value)
                && r.value.structure == InitialStructure(table, value).value
                && r.value.density == InitialDensity(table, value, density, r.value.structure)
                && r.value.name == InitialName(value, name)
    {
      var s := InitialStructure(table, value);
      if s.Failure? {
        return Failure(s.error);
      }
      var f := Init(table, s.value, value, density, name);
      return Success(f);
    }

    /** The rest of `__init__` once the structure is built: copied fields, overrides, density default. */
    static method Init(table: Table, structure: seq<Pair>, value: Initializer, density: Option<real>, name: Option<string>)
      returns (f: Formula)
      ensures fresh(f)
      ensures f.structure == structure
      ensures f.density == InitialDensity(table, value, density, structure)
      ensures f.name == InitialName(value, name)
    {
      f := new Formula(structure, if value.Copy? then value.density else None,
                       if value.Copy? then value.name else None);
      if Given(density) {
        f.density := density;
      }
      if Named(name) {
        f.name := name;
      }
      DensityDefault(table, value, density, f.structure, f.density);
      f.DefaultDensity(table);
    }

    /** With no density yet and a single kind of atom, take that atom's density. */
    method DefaultDensity(table: Table)
      modifies this
      ensures structure == old(structure) && name == old(name)
      ensures density == if old(density).None? && |TallyOf(structure)| == 1
                         then table.density(OnlyAtom(TallyOf(structure))) else old(density)
    {
      if density.None? {
        var atoms := Atoms();
        if |atoms| == 1 {
          density := table.density(OnlyAtom(atoms));
        }
      }
    }

    /** The `atoms` property: the tally of the structure. */
    method Atoms() returns (atoms: Tally)
      ensures atoms == TallyOf(structure)
    {
      atoms := CountAtoms(structure);
    }

    /** The `hill` property: a new formula built from the tally, so in Hill form with the same tally. */
    method Hill(table: Table) returns (h: Formula)
      ensures fresh(h)
      ensures h.structure == HillNotation(TallyOf(structure))
      ensures IsHillForm(h.structure) && TallyOf(h.structure) == TallyOf(structure)
      ensures h.density == InitialDensity(table, Counts(TallyOf(structure)), None, h.structure)
      ensures h.name == None
    {
      var atoms := Atoms();
      HillPreservesTally(atoms);
      var r := New(table, Counts(atoms), None, None);
      h := r.value;
    }

    /** The `mass` property: `el.mass*count` summed over the tally. */
    method Mass(table: Table) returns (mass: real)
      ensures mass == MassOf(table, TallyOf(structure))
    {
      var atoms := Atoms();
      ghost var f := MassTerm(table, atoms);
      mass := 0.0;
      var pending := atoms.Keys;
      while pending != {}
        invariant pending <= atoms.Keys
        invariant mass + SumOver(pending, f) == SumOver(atoms.Keys, f)
        decreases pending
      {
        var el :| el in pending;
        var term := table.mass(el) * atoms[el];
        MassOfStep(table, atoms, pending, el, term);
        mass := mass + term;
        pending := pending - {el};
      }
    }

    /**
     * `==`: the same structure (density and name are not compared); `null`
     * stands for any value that is not a formula.
     */
    method Equals(other: Formula?) returns (same: bool)
      ensures same <==> other != null && structure == other.structure
    {
      if other == null {
        return false;
      }
      same := structure == other.structure;
    }

    /**
     * `self + other`: a new formula whose structure is this structure followed
     * by the other's; `null` stands for an operand that is not a formula.
     */
    method Plus(other: Formula?) returns (r: Result<Formula, OperandError>)
      ensures other == null ==> r == Failure(NotAFormula)
      ensures other != null ==>
                && r.Success? && fresh(r.value)
                && r.value.structure == Join(structure, other.structure)
                && r.value.density == None && r.value.name == None
    {
      if other == null {
        return Failure(NotAFormula);
      }
      var ret := new Formula([], None, None);
      ret.structure := Join(structure, other.structure);
      return Success(ret);
    }

    /** `self += other`: the other's structure appended in place. */
    method Extend(other: Formula)
      modifies this
      ensures structure == Join(old(structure), old(other.structure))
      ensures density == old(density) && name == old(name)
    {
      structure := Join(structure, other.structure);
    }

    /**
     * `n * self`: a copy (so with the density default applied) whose
     * structure is scaled by `n`; `None` stands for a non-numeric `n`.
     */
    method Times(table: Table, n: Option<real>) returns (r: Result<Formula, OperandError>)
      ensures n.None? ==> r == Failure(NotANumber)
      ensures n.Some? ==>
                && r.Success? && fresh(r.value)
                && r.value.structure == Algebra.Times(n.value, structure)
                && r.value.density == InitialDensity(table, Copy(structure, density, name), None, structure)
                && r.value.name == name
    {
      if n.None? {
        return Failure(NotANumber);
      }
      var copy := New(table, Copy(structure, density, name), None, None);
      var ret := copy.value;
      ret.structure := Algebra.Times(n.value, structure);
      return Success(ret);
    }

    /** `str(self)`. */
    method ToString() returns (s: string)
      ensures s == Display(structure, name)
    {
      if Named(name) {
        s := name.value;
      } else {
        s := StrAtoms(structure);
      }
    }

    /** `__getstate__`: the fields, with the structure as its formula string. */
    method GetState() returns (state: PickleState)
      ensures state == PickleState(Render(structure), density, name)
    {
      var text := StrAtoms(structure);
      state := PickleState(text, density, name);
    }

    /**
     * `__setstate__`: takes the fields of the state and re-parses the
     * structure string; a parse error is raised.
     */
    method SetState(table: Table, state: PickleState) returns (r: Result<(), Grammar.ParseError>)
      modifies this
      ensures density == state.density && name == state.name
      ensures match Grammar.Parse(table, state.structure)
              case Success(s) => r == Success(()) && structure == s
              case Failure(e) => r == Failure(e) && structure == old(structure)
    {
      density := state.density;
      name := state.name;
      var parsed := Grammar.Parse(table, state.structure);
      match parsed {
        case Success(s) =>
          structure := s;
          r := Success(());
        case Failure(e) =>
          r := Failure(e);
      }
    }
  }

  /** The mass of a joined structure is the sum of the masses. */
  lemma JoinMass(table: Table, a: seq<Pair>, b: seq<Pair>)
    ensures MassOf(table, TallyOf(Join(a, b))) == MassOf(table, TallyOf(a)) + MassOf(table, TallyOf(b))
  {
    JoinTally(a, b);
    MassOfAdd(table, TallyOf(a), TallyOf(b));
  }
}
