# Chemical formulas of periodictable, in Dafny

This project models the formula core of the `periodictable` package
(`periodictable/formulas.py`, Python 2) and proves properties of the model.
It covers:

- the formula structure: a sequence of `(count, fragment)` pairs whose
  fragments are atoms (elements or isotopes) or nested structures;
- the check and conversion of hand-built structures (`_check_atoms`,
  `_immutable`);
- the atom tally (`_count_atoms`) and the molar mass;
- the Hill comparator and Hill notation (`_hill_compare`,
  `_convert_to_hill_notation`);
- the `Formula` class: its initializers, `atoms`, `hill`, `mass`, `==`,
  `+`, `+=`, `n*formula`, `str` and pickling;
- the printer `_str_atoms` and the formula grammar, written as a
  recursive-descent parser with the pyparsing semantics of the grammar;
- `mix_by_weight` and `mix_by_volume`.

Modules, one per file:

| file | module | models |
|---|---|---|
| Wrappers.dfy | `Wrappers` | `Option` and `Result` |
| Atoms.dfy | `Atoms` | atoms, the periodic table as the formula code sees it, `cmp`, `_hill_compare` as written and corrected |
| Structure.dfy | `Structure` | the structure, `_check_atoms`/`_immutable`, tallies, `_count_atoms` |
| Mass.dfy | `Mass` | the `mass` property as a sum over the tally |
| Hill.dfy | `Hill` | sorting by the Hill order, `_convert_to_hill_notation` |
| Algebra.dfy | `Algebra` | the structure built by `+` and by `n*formula`, and their tallies |
| Decimal.dfy | `Decimal` | digit strings and their values |
| Printing.dfy | `Printing` | `"%g" % count` for the counts used here, `_str_atoms` |
| Grammar.dfy | `Grammar` | `formula_grammar()` and `parser.parseString` |
| RoundTrip.dfy | `RoundTrip` | printing then parsing: the pickling round trip |
| Formula.dfy | `Formulas` | class `Formula` |
| Mixture.dfy | `Mixture` | `mix_by_weight`, `mix_by_volume` |
| MixtureProperties.dfy | `MixtureProperties` | what the mixing functions promise |

The periodic table is a parameter (`Atoms.Table`): a symbol lookup, an
isotope lookup, and a mass and a density per atom. The numbers are exact
reals. Python's exceptions are `Failure` values of a `Result`:

- `ValueError` from the initializer and from the grammar's parse actions
  (an unknown symbol or isotope, a malformed count);
- pyparsing's `ParseException` for text the grammar does not match
  (`Grammar.Syntax`), which is not a `ValueError`: `Formula`'s
  `except ValueError` does not catch it, and it reaches the caller as it is;
- `TypeError` from the operators;
- `ZeroDivisionError` from the mixing code.

`Formula` is a class whose fields `structure`, `density` and `name` are
updated in place. `_count_atoms`, `_str_atoms`, the `atoms`/`mass`
properties and the mixing loops are methods with loops, each proved
against a function. Everything else is functions and lemmas.

## Model

| member | source | states |
|---|---|---|
| Atoms.HillCompareIsTotalOrder | periodictable/formulas.py:620-634 | The corrected comparator is antisymmetric, is 0 exactly on equal atoms, and is transitive: C first, then H, then alphabetical, with the element before its isotopes by mass number |
| Atoms.HillOrderFacts | periodictable/formulas.py:620-634 | The same three facts, for all atoms |
| Atoms.HillCompareAsWrittenDiffers | periodictable/formulas.py:628-634 | The comparator as written differs from the intended one exactly when only `b` is C or H and `a`'s symbol sorts alphabetically before it |
| Atoms.HillCompareAsWrittenNotAntisymmetric | periodictable/formulas.py:628-634 | As written, Br sorts before C and C sorts before Br; the corrected comparator puts C first |
| Atoms.CmpStrTransitive | periodictable/formulas.py:630 | `cmp` on symbols is transitive (with CmpStrAntisymmetric and CmpStrZero: a total order) |
| Structure.Immutable | periodictable/formulas.py:615-618 | `_immutable` on a structure that passes `_check_atoms` keeps one pair per input pair |
| Structure.ToPythonChecks | periodictable/formulas.py:604-618 | Every structure, written as nested tuples, passes `_check_atoms`, and `_immutable` gives it back |
| Structure.ImmutableToPython | periodictable/formulas.py:615-618 | Conversely, a checked value is exactly the tuples of the structure `_immutable` makes of it |
| Structure.Add | periodictable/formulas.py:599-601 | The merged tally has the union of the keys, and each count is the sum of the two counts |
| Structure.Scale | periodictable/formulas.py:601 | The scaled tally keeps its keys, and each count is multiplied by the factor |
| Structure.CountAtoms | periodictable/formulas.py:589-602 | The loop's `total` is the tally of the structure: each node adds count x the tally of its fragment |
| Structure.CountPartial | periodictable/formulas.py:595-598 | `partial` is `{atom: 1}` for an atom and the recursive tally for a group |
| Structure.MergeInto | periodictable/formulas.py:599-601 | The inner loop adds `partial` scaled by `count` to `total` |
| Structure.TallyOfAppend | periodictable/formulas.py:589-602 | Tally additivity: the tally of `a + b` is the sum of the tallies |
| Structure.TallyOfSingle | periodictable/formulas.py:594-601 | A one-node structure tallies to its fragment's tally times its count |
| Mass.MassOfAdd | periodictable/formulas.py:336-339 | The mass of a sum of tallies is the sum of the masses |
| Mass.MassOfScale | periodictable/formulas.py:336-339 | Scaling the tally scales the mass |
| Mass.MassOfEmpty | periodictable/formulas.py:336 | The empty formula has mass 0 |
| Hill.SortedAtoms | periodictable/formulas.py:640 | `sorted(keys, cmp=_hill_compare)` (corrected): the same atoms, strictly increasing in Hill order |
| Hill.MinimumExists | periodictable/formulas.py:640 | A non-empty set of atoms has a Hill minimum |
| Hill.HillNotation | periodictable/formulas.py:636-640 | One `(count, atom)` pair per tally key, in Hill order, each with that atom's count, and every key appears |
| Hill.HillPreservesTally | periodictable/formulas.py:282-291 | Hill notation has exactly the tally it was made from |
| Hill.HillNotationUnique | periodictable/formulas.py:636-640 | Hill notation is the only flat, sorted structure with a given tally |
| Hill.HillNotationCanonical | periodictable/formulas.py:282-291 | Two structures have the same Hill form if and only if they have the same tally |
| Hill.HillFormIsFlatDistinct | periodictable/formulas.py:640 | A structure in Hill form is flat and names each atom once |
| Hill.FlatTally | periodictable/formulas.py:589-602 | A flat structure with distinct atoms tallies each atom to its own count |
| Hill.WaterHillNotation | periodictable/formulas.py:282-291 | OH2 and H2O are different structures with the same Hill form, H2O |
| Algebra.Join | periodictable/formulas.py:460 | The joined structure has the length of both operands together |
| Algebra.JoinTally | periodictable/formulas.py:452-468 | The tally of `a + b` (and of `a += b`) is the sum of the tallies |
| Algebra.Times | periodictable/formulas.py:479-486 | `n*f` leaves the structure alone or builds a one-node structure |
| Algebra.TimesTally | periodictable/formulas.py:470-486 | In all three cases of `n*f` (n == 1 or empty; one node; several nodes) the tally is the tally of `f` scaled by `n` |
| Algebra.TimesSingle | periodictable/formulas.py:481-483 | Multiplying a one-node structure's count by `n` scales its tally by `n` |
| Algebra.TimesWrap | periodictable/formulas.py:484-485 | Wrapping a structure in a group of count `n` scales its tally by `n` |
| Algebra.TimesJoin | periodictable/formulas.py:452-486 | `n*(a+b)` has the tally of `n*a + n*b` |
| Algebra.TimesTimes | periodictable/formulas.py:470-486 | `n*(k*f)` has the tally of `(n*k)*f` |
| Algebra.JoinCommutesInHill | periodictable/formulas.py:443-461 | `a+b` and `b+a` have the same tally and the same Hill form |
| Algebra.JoinNotCommutative | periodictable/formulas.py:443-461 | `H+O` and `O+H` are different structures, so `==` tells them apart |
| Algebra.ScaleScale | periodictable/formulas.py:601 | Scaling twice scales by the product |
| Algebra.ScaleAdd | periodictable/formulas.py:601 | Scaling distributes over the sum of tallies |
| Decimal.NatToString | periodictable/formulas.py:657 | The decimal digits of a whole number: non-empty, no leading zero, and their value is the number |
| Decimal.NatToStringPow10 | periodictable/formulas.py:657 | A power of ten is written as a 1 followed by that many zeros |
| Decimal.DigitRun | periodictable/formulas.py:545 | The longest run of digits at the start of a string |
| Decimal.DigitRunOfDigits | periodictable/formulas.py:545 | Digits followed by a non-digit are read as exactly those digits |
| Printing.FormatCount | periodictable/formulas.py:656-657 | `"%g" % count` is non-empty; a whole count from 1 to 999999 is its decimal digits with the count's value; a whole count from 1e6 up is in exponent form, starting with a non-zero digit |
| Printing.Significant | periodictable/formulas.py:657 | `%g`'s six significant digits of a whole number from 1e6 up: six digits and a decimal exponent whose value is within half a unit of the number, and at an exact tie the six digits are even (round half to even) |
| Printing.Scientific | periodictable/formulas.py:657 | `%g`'s exponent form: a non-empty text starting with a non-zero digit and containing an `e` |
| Printing.MillionFormat | periodictable/formulas.py:657 | `"%g" % 1000000` is `1e+06` |
| Printing.StripTrailingZeros | periodictable/formulas.py:657 | A prefix of the input with no trailing '0', and everything it drops is '0' |
| Printing.RenderAppend | periodictable/formulas.py:643-666 | The text of `a + b` is the text of `a` followed by the text of `b` |
| Printing.StrAtoms | periodictable/formulas.py:643-666 | The loop's `ret` is the rendering: each node as `Sym`, `Sym[iso]` or a group, with its count unless it is 1 |
| Printing.StrPiece | periodictable/formulas.py:649-664 | One node's text: parentheses only around a group whose count is not 1 |
| Grammar.SkipWs | periodictable/formulas.py:582-585 | The whitespace pyparsing skips before a token |
| Grammar.LowerRun | periodictable/formulas.py:532 | The lowercase letters after a symbol's capital |
| Grammar.FractIntPart | periodictable/formulas.py:543 | The integer part before a decimal point is digits |
| Grammar.Count | periodictable/formulas.py:542-547 | A count never fails to match; it defaults to 1 consuming nothing; a malformed fraction aborts; matched counts are non-negative |
| Grammar.Isotope | periodictable/formulas.py:535-540 | An isotope suffix defaults to 0 consuming nothing |
| Grammar.Element | periodictable/formulas.py:549-560 | A matched element is an atom leaf with a non-negative count, and it consumes input |
| Grammar.Elements | periodictable/formulas.py:563 | One or more elements: a non-empty run of atom leaves |
| Grammar.Collapse | periodictable/formulas.py:568 | A group of count 1 is spliced into its parent; otherwise it becomes one `(count, group)` node |
| Grammar.ImplicitGroup | periodictable/formulas.py:562-569 | A count then elements: a non-empty, normal structure |
| Grammar.ExplicitGroup | periodictable/formulas.py:571-580 | Parentheses then a count: a non-empty, normal structure |
| Grammar.AnyGroup | periodictable/formulas.py:582 | A group of either kind consumes input and gives a non-empty, normal structure |
| Grammar.Formula | periodictable/formulas.py:584 | A group followed by further groups, each optionally after '+' |
| Grammar.FormulaTail | periodictable/formulas.py:584 | The repetition never fails to match, and gives a normal structure |
| Grammar.Parse | periodictable/formulas.py:585 | A parsed string gives a normal structure, empty only for a blank string |
| Grammar.NormalAppend | periodictable/formulas.py:584 | Joining two normal structures gives a normal structure |
| RoundTrip.CountRT | periodictable/formulas.py:545-547 | A whole count from 1 to 999999, printed, is read back as that count |
| RoundTrip.IsotopeRT | periodictable/formulas.py:538-540 | An isotope suffix, printed, is read back as that mass number |
| RoundTrip.ElementRT | periodictable/formulas.py:549-560 | One printed atom node is read back as that node |
| RoundTrip.ElementsRT | periodictable/formulas.py:563 | A printed run of atom nodes is read back as that run |
| RoundTrip.GroupRT | periodictable/formulas.py:582 | The first group of a printed structure is read back as its first segment |
| RoundTrip.FormulaRT | periodictable/formulas.py:584 | A printed non-empty normal structure is read back whole |
| RoundTrip.FormulaTailRT | periodictable/formulas.py:584 | The repetition reads back the rest of a printed structure |
| RoundTrip.ParseRender | periodictable/formulas.py:643-666 | Parsing `_str_atoms` of a normal structure with whole counts below 1e6 and known symbols gives the structure back |
| RoundTrip.NormalizeRender | periodictable/formulas.py:659-660 | Splicing groups of count 1 into their parents does not change the printed text |
| RoundTrip.NormalizeTally | periodictable/formulas.py:589-602 | Splicing groups of count 1 does not change the tally |
| RoundTrip.NormalizeShape | periodictable/formulas.py:568 | A printable structure, spliced, is normal and writable |
| RoundTrip.PickleRoundTrip | periodictable/formulas.py:494-509 | Unpickling a pickled formula gives back its structure with count-1 groups spliced, and so the same tally |
| RoundTrip.ParenthesesCollapse | periodictable/formulas.py:571-580 | `"(" + s + ")"` parses to the same structure as `s` |
| RoundTrip.ZeroCountDoesNotRoundTrip | periodictable/formulas.py:545-547 | A count of 0 prints as `H0`, which the grammar rejects |
| RoundTrip.EmptyGroupDoesNotRoundTrip | periodictable/formulas.py:659-662 | An empty group of count 2 (which `_check_atoms` accepts) prints as `()2`, which the grammar rejects: no group starts with `()` |
| RoundTrip.MillionCountDoesNotRoundTrip | periodictable/formulas.py:545-547 | A count of 1e6 prints as `H1e+06`, which the grammar rejects: it reads `H` and stops before the exponent |
| Formulas.InitialStructure | periodictable/formulas.py:224-242 | An atom-count dictionary always gives a structure |
| Formulas.InitialStructureCases | periodictable/formulas.py:224-242 | None and "" give the empty structure; a formula is copied; an atom gives `((1, atom),)`; a dictionary gives its Hill form with the same tally; a hand-built value succeeds if and only if it passes `_check_atoms`; a string gives its parse or its parse error |
| Formulas.InitialDensityCases | periodictable/formulas.py:244-255 | A truthy density wins, then a copied density, then the density of the only atom, else None |
| Formulas.DensityDefault | periodictable/formulas.py:248-255 | The default density is that of the single atom in the tally, and None when there is more than one |
| Formulas.OnlyAtom | periodictable/formulas.py:255 | The one key of a one-key tally |
| Formulas.InitialName | periodictable/formulas.py:223-246 | A truthy name wins; otherwise a copied name; otherwise None |
| Formulas.Display | periodictable/formulas.py:488-489 | `str` is the name when it is truthy, and the printed structure otherwise |
| Formulas.Formula.constructor | periodictable/formulas.py:221-223 | A formula with the given fields |
| Formulas.Formula.New | periodictable/formulas.py:221-255 | `Formula(value, density, name)`: the initializer's ValueError, or a new formula with the initial structure, density and name |
| Formulas.Formula.Init | periodictable/formulas.py:223-255 | A new formula with the given structure, the initializer's density (override, copied, or the only atom's) and its name (override or copied) |
| Formulas.Formula.DefaultDensity | periodictable/formulas.py:248-255 | With no density yet, a one-atom formula takes that atom's density; nothing else changes |
| Formulas.Formula.Atoms | periodictable/formulas.py:270-279 | `atoms` is the tally of the structure |
| Formulas.Formula.Hill | periodictable/formulas.py:282-291 | `hill` is a new formula whose structure is the Hill form of the tally, with the same tally, no name, and the initializer's default density |
| Formulas.Formula.Mass | periodictable/formulas.py:328-339 | `mass` is the sum over the tally of atom mass x count |
| Formulas.Formula.Equals | periodictable/formulas.py:443-450 | `==` holds exactly when the other value is a formula with the same structure |
| Formulas.Formula.Plus | periodictable/formulas.py:452-461 | `+` rejects a non-formula; otherwise a new formula whose structure is both structures joined, with no density or name |
| Formulas.Formula.Extend | periodictable/formulas.py:463-468 | `+=` joins the other structure onto this one and leaves density and name alone |
| Formulas.Formula.Times | periodictable/formulas.py:470-486 | `n*f` rejects a non-number; otherwise a copy of `f` whose structure is `Times(n, f.structure)` |
| Formulas.Formula.ToString | periodictable/formulas.py:488-489 | `str(f)` is `Display` of its fields |
| Formulas.Formula.GetState | periodictable/formulas.py:494-501 | The pickled state is the printed structure with the density and name |
| Formulas.Formula.SetState | periodictable/formulas.py:503-509 | Unpickling restores density and name and parses the structure; a parse error is returned |
| Formulas.JoinMass | periodictable/formulas.py:452-461 | The mass of `a + b` is the sum of the masses |
| Mixture.Collect | periodictable/formulas.py:65 | A list comprehension: all `n` values, or the first error raised |
| Mixture.CollectAt | periodictable/formulas.py:65 | Each collected value is the value of its element |
| Mixture.CollectFailure | periodictable/formulas.py:65 | The first failing element's error is the one raised |
| Mixture.CollectSuccess | periodictable/formulas.py:65 | With no failing element, the comprehension succeeds |
| Mixture.CollectStopsAtError | periodictable/formulas.py:78 | An error in a prefix is the error of the whole |
| Mixture.Components | periodictable/formulas.py:65 | `[(Formula(args[i]), args[i+1]) ...]`: one pair per two arguments |
| Mixture.ComponentsAt | periodictable/formulas.py:65 | Pair `i` is made from arguments `2i` and `2i+1` |
| Mixture.Kept | periodictable/formulas.py:145 | Every kept pair is one of the input pairs with a quantity above 0 (None is not; a non-numeric object is), and every such pair is kept |
| Mixture.KeptAppend | periodictable/formulas.py:145 | The filter works pair by pair: filtering `a + b` gives the pairs kept from `a` followed by those kept from `b` |
| Mixture.KeptSnoc | periodictable/formulas.py:145 | A list with one more pair keeps it, at the end, exactly when its quantity compares above 0, and otherwise keeps the same pairs |
| Mixture.Ratio | periodictable/formulas.py:78 | A ratio is computed only for a numeric quantity and a non-zero mass, and by volume a density |
| Mixture.Ratios | periodictable/formulas.py:156 | One ratio per kept pair |
| Mixture.Min | periodictable/formulas.py:78 | `min` is one of the values and at most each of them |
| Mixture.MixByVolume | periodictable/formulas.py:94-170 | `mix_by_volume` returns the formula or raises the error of the model `VolumeMix` |
| Mixture.MixByWeightAsWritten | periodictable/formulas.py:20-92 | `mix_by_weight` as written returns the formula or raises the error of `WeightMixAsWritten` |
| Mixture.MixByWeight | periodictable/formulas.py:20-92 | `mix_by_weight` with the filter as intended returns the formula or raises the error of `WeightMix` |
| Mixture.MixKept | periodictable/formulas.py:70-92 | After the filter: the scale, the scaled sum, the overrides and the computed density |
| Mixture.Accumulate | periodictable/formulas.py:79-80 | The loop builds `sum of k_i * f_i`, joined in order, with no density or name |
| Mixture.AddScaled | periodictable/formulas.py:80 | `result += k*f` joins `Times(k, f)` onto the result |
| Mixture.Finish | periodictable/formulas.py:84-90 | The density and name overrides, then the density from the volume, or the division by a zero volume |
| Mixture.ComputeRatios | periodictable/formulas.py:78 | The generator's ratios in order, or the first error |
| Mixture.RatiosStop | periodictable/formulas.py:78 | An error among the first ratios is the error of all of them |
| Mixture.NextRatios | periodictable/formulas.py:78 | One more ratio is computed, or its error raised |
| Mixture.ComputeRatio | periodictable/formulas.py:78 | `q/f.mass` by weight or `q*f.density/f.mass` by volume, with the errors on the way |
| MixtureProperties.OddArity | periodictable/formulas.py:63-64 | An odd number of arguments raises the ValueError, in both functions (lines 137-138 too) |
| MixtureProperties.DensityCheckedFirst | periodictable/formulas.py:141-145 | By volume, a pair without a density raises ValueError, even when its quantity would drop it |
| MixtureProperties.RatiosSucceed | periodictable/formulas.py:78 | Numeric quantities and non-zero masses (and densities by volume): every ratio is computed |
| MixtureProperties.RatioAt | periodictable/formulas.py:78 | Each ratio is the quantity over the mass (by volume, times the density) |
| MixtureProperties.RatiosPositive | periodictable/formulas.py:156 | Positive quantities, masses and densities give positive ratios |
| MixtureProperties.MultipliersAtLeastOne | periodictable/formulas.py:77-80 | With positive ratios, scale = min > 0, every multiplier is at least 1, and one is exactly 1 |
| MixtureProperties.Share | periodictable/formulas.py:72-80 | Each component's multiplier x mass is its quantity over the scale by weight; multiplier x mass / density is, by volume (lines 149-158) |
| MixtureProperties.VolumeOfMixture | periodictable/formulas.py:88-90 | The volume the density is computed from is the sum of the scaled components' mass / density (lines 166-168 by volume) |
| MixtureProperties.SumOfShares | periodictable/formulas.py:89 | Summing the shares one pair at a time |
| MixtureProperties.KeptNone | periodictable/formulas.py:145 | With no quantity above 0, nothing is kept |
| MixtureProperties.AllDropped | periodictable/formulas.py:144-168 | By volume, with every pair dropped: the empty formula with the given density, and with none given, ZeroDivisionError |
| MixtureProperties.ZeroQuantityAsWritten | periodictable/formulas.py:67-80 | As written, a zero quantity among positive masses gives scale 0 and raises ZeroDivisionError |
| MixtureProperties.ZeroQuantityIntended | periodictable/formulas.py:67-80 | With the filter as intended, the same inputs (one positive quantity) mix successfully |
| MixtureProperties.KeptMixes | periodictable/formulas.py:71-90 | By weight, a non-empty list of pairs with positive quantities and masses (and positive densities where given) mixes successfully |
| MixtureProperties.KeptPositive | periodictable/formulas.py:145 | The filter keeps the positive pair, and every kept pair is positive |
| MixtureProperties.SumVolumesPositive | periodictable/formulas.py:89 | Positive quantities and densities give a positive volume sum |

## Left out

- The periodic table itself (`periodictable.core`, element data) is not part of this model. It is the `Table` parameter: symbol lookup, isotope lookup, and mass and density per atom.
- D and T, whose isotopes print under their own symbol, are not modelled. Every isotope prints as `Sym[n]`.
- Neutron and X-ray scattering length density, `volume` and the packing factors, `natural_mass_ratio` and the `natural_density` property and keyword are not modelled. They are floating-point physics outside the formula algebra.
- pyparsing itself is not modelled. The grammar is a recursive-descent parser with the same alternatives, repetition, whitespace skipping and parse actions.
- Floating point is modelled as exact reals. Rounding in `q/f.mass`, sums and `"%g"` is not captured.
- Printing.FormatCount: a count that is not whole gets its integer part, a point and at most six decimals, truncated rather than rounded, with no exponent form; Python rounds to six significant digits and writes an exponent below 1e-4 and from 1e6 up. Its contract states the value of the text only for whole counts below 1e6; for whole counts from 1e6 up it states the form (Printing.Significant states the digits), and it states nothing about negative counts.
- RoundTrip.PickleRoundTrip: proved only for whole counts from 1 to 999999 and symbols the table resolves. A count from 1e6 up prints in exponent form, which the grammar does not read (RoundTrip.MillionCountDoesNotRoundTrip). It also excludes an empty group with a count other than 1, which `_check_atoms` accepts: `_str_atoms` writes it as `()2`, and an explicit group needs a formula inside its parentheses (RoundTrip.EmptyGroupDoesNotRoundTrip). A fractional count can print in a form the grammar reads differently, and a count of 0 does not round-trip (RoundTrip.ZeroCountDoesNotRoundTrip).
- RoundTrip.CountRT: proved only for whole counts from 1 to 999999, which `"%g"` prints as plain digits; from 1e6 up the text has an exponent and does not read back (RoundTrip.MillionCountDoesNotRoundTrip).
- RoundTrip.ElementRT: proved only for whole counts from 1 to 999999, which `"%g"` prints as plain digits; from 1e6 up the text has an exponent and does not read back (RoundTrip.MillionCountDoesNotRoundTrip).
- RoundTrip.ElementsRT: proved only for whole counts from 1 to 999999, which `"%g"` prints as plain digits; from 1e6 up the text has an exponent and does not read back (RoundTrip.MillionCountDoesNotRoundTrip).
- RoundTrip.GroupRT: proved only for whole counts from 1 to 999999, which `"%g"` prints as plain digits; from 1e6 up the text has an exponent and does not read back (RoundTrip.MillionCountDoesNotRoundTrip).
- RoundTrip.FormulaRT: proved only for whole counts from 1 to 999999, which `"%g"` prints as plain digits; from 1e6 up the text has an exponent and does not read back (RoundTrip.MillionCountDoesNotRoundTrip).
- RoundTrip.FormulaTailRT: proved only for whole counts from 1 to 999999, which `"%g"` prints as plain digits; from 1e6 up the text has an exponent and does not read back (RoundTrip.MillionCountDoesNotRoundTrip).
- RoundTrip.ParseRender: proved only for whole counts from 1 to 999999, which `"%g"` prints as plain digits; from 1e6 up the text has an exponent and does not read back (RoundTrip.MillionCountDoesNotRoundTrip).
- Python's list/tuple distinction is not modelled. `hill` and `Formula('')` give lists while the parser gives tuples, so `==` between such formulas can be False in Python when the model says equal.
- Formulas.Formula.Extend: `+=` with a non-formula operand raises `AttributeError` in Python. The model types the operand as a formula.
- Formulas.Formula.SetState: when parsing fails, Python leaves `__dict__` holding the raw string. The model keeps the old structure and returns the error.
- Formulas.Formula.Times: Python tests the operand with `other += 0`. The model takes the operand as an optional number (`None` for anything that is not one).
- Mixture: keyword arguments other than `density`, `natural_density` and `name` raise `TypeError`. Keywords are modelled as the `density` and `name` parameters only.
- Mixture: a quantity that is neither a number nor `None` is a `Material` argument. It is kept by the filter (any such object compares above 0 in Python 2) and raises `TypeError` at the first arithmetic (`NotNumeric`). `None` is `NoValue`, which compares below 0 and is dropped. In a formula position, `None` is `NoValue` and `""` is `Material(Nothing)`; `Formula` makes the empty formula of both.
- Mixture.Kept: its own contract states which pairs are kept, not their order or how often each appears; Mixture.KeptAppend and Mixture.KeptSnoc state both.
- Structure: a hand-built structure is modelled by what its iteration yields. A one-shot iterator (a generator) is read once by `_check_atoms` and again by `_immutable`, and so yields nothing the second time; that is not modelled.
- Mixture.MixStructure: no lemma states the mixture's tally in closed form. It is the sum of `k_i` times each component's tally, which follows from Algebra.JoinTally and Algebra.TimesTally.
- With no pair left after the filter and no density given, the code computes the volume as `0/1` and then divides the mass by it. The model follows the code: ZeroDivisionError, shown by MixtureProperties.AllDropped.

## Findings

| source | as written | input that shows it | evidently intended | confidence | as-written member | corrected member |
|---|---|---|---|---|---|---|
| periodictable/formulas.py:628-634 | when only `b` is C or H, `_hill_compare` compares the symbols alphabetically | `_hill_compare(Br, C) == -1` and `_hill_compare(C, Br) == -1`, so the order of `CH3Br`'s atoms depends on the sort's input order | C and H sort before every other symbol in both argument orders (Hill order) | not executed | Atoms.HillCompareAsWrittenNotAntisymmetric | Atoms.HillCompareIsTotalOrder |
| periodictable/formulas.py:68 | `[(q,f) for q,f in pairs if q > 0]` binds `q` to the formula, which in Python 2 always compares above 0, so no pair is dropped | `mix_by_weight('H2O', 1, 'NaCl', 0)`: the scale is `min(1/18.02, 0) = 0` and the loop divides by it (ZeroDivisionError) | drop the pairs whose quantity is not positive, as `mix_by_volume` does at line 145 | not executed | MixtureProperties.ZeroQuantityAsWritten | MixtureProperties.ZeroQuantityIntended |
