# PhysQuant quantity algebra in Dafny

This project models the core of `PhysQuant`, a Python class for physical quantities. A
quantity is a `unit_dict` with two terms, `num` and `denom`. Each term is a list
`[scalar, [unit atoms], power]`, where the power is 1 for the numerator and -1 for the
denominator. The model covers five parts of the class and the object itself:

- **Parser** (`parser.dfy`): `id_scaled_unit` splits an input such as `"100 ohm.cm"` or
  `"1 uF/cm2"` into its two terms. `parse_unit_string` splits a product of atoms on `.`
  and expands a trailing digit (`cm2` becomes `cm`, `cm`).
- **Normalizer** (`normalizer.dfy`): `clean_unit` rewrites aliases to their preferred
  names, for example `ohm` to `Ω`. `replace_prefix` and `remove_prefix` strip SI prefixes
  into the scalar and turn Celsius and Fahrenheit into Kelvin (`convert_to_kelvins`).
  `normalize_denom` divides the denominator's scalar into the numerator's.
- **Arithmetic** (`arithmetic.dfy`): `_multiply_unit_dicts`, `reduce` (which moves Ω/S
  across and cancels shared atoms), `inverted`, `__pow__`, `unitless` and `__add__`.
- **Presentation** (`presentation.dfy`): `find_prefix`, `add_prefix`,
  `combine_repeat_unit_as_power`, `prefixed_list_to_string`, `SI` and `prefixed`.
- **Construction** (`construction.dfy`): `_make_dict`, `conform_list` and `_interpret`.
- **The object** (`physquant.dfy`): the class `PhysQuant`. Its methods rewrite
  `unitDict` in place, together with two flags recording what `freeze` turned into
  tuples. Each method is proved against a function on `Quantity` values.

Shared definitions live in the remaining files:

- `outcomes.dfy`: Python exceptions as a `Result`.
- `text.dfy`: `str.split`, `str.join`, `str.replace`, `list.remove` and a decimal
  `float()` reader.
- `tables.dfy`: the `better_unit` and `prefix` tables, in their insertion order.
- `terms.dfy`: the data model.
- `examples.dfy`: the resistivity `100 ohm.cm` carried through to the conductivity
  `1.0 S/m`.

The model keeps the source's behaviour as written, including its surprises:

- The `clean_unit` guard is always true, and the last alias that matches wins.
- `replace_prefix` carries the last prefix factor on to later atoms. It also removes
  the prefix character everywhere in the atom (`mmol` becomes `ol`).
- `parse_unit_string` skips the atom that follows an expanded one.
- `reduce` walks a list that it shrinks as it goes, so it can leave shared atoms behind.
- `inverted` drops the denominator's scalar, and its Ω/S branch never fires.
- `melt` written without parentheses is never called.
- `unitless` does not reduce first.
- `change_unit` compares the unit lists without reducing them.

## Model

| member | source | states |
|---|---|---|
| Tables.CanonicalAreValues | PQ_math_reorg.py:62-66 | an atom is canonical exactly when it is one of the preferred names of `better_unit` |
| Tables.AliasesNonEmpty | PQ_math_reorg.py:62-66 | no alias is the empty string |
| Tables.FactorsPositive | PQ_math_reorg.py:68-70 | every prefix factor is positive |
| Parser.ParseUnitStringSpec | PQ_math_reorg.py:855-865 | the empty unit string parses to no atoms |
| Parser.ParseUnitString | PQ_math_reorg.py:848-865 | the loop that pops an atom with a trailing digit and appends its copies computes the recursive specification, including its errors |
| Parser.Expansion | PQ_math_reorg.py:860-864 | an atom ending in a digit from 2 to 9 expands into that many copies of its stem |
| Parser.ExpandGeneral | PQ_math_reorg.py:859-864 | over a list with no two expandable atoms in a row, the walk leaves the plain atoms in place and appends the expansions at the end, in order |
| Parser.ParseWellSpaced | PQ_math_reorg.py:855-865 | when no expandable atom follows another, parsing gives the plain atoms followed by all expansions |
| Parser.ParsePlain | PQ_math_reorg.py:855-865 | without expandable atoms, parsing is splitting on `.`, and joining the result with `.` gives the input back |
| Parser.ParseSkipsAfterExpansion | PQ_math_reorg.py:859-864 | `cm2.m3` parses to `m3, cm, cm`: the atom after an expanded one is skipped and never expanded |
| Parser.ParseSquare | PQ_math_reorg.py:859-864 | `cm2` parses to `cm, cm` |
| Parser.SlashSideShape | PQ_math_reorg.py:782-800 | a side of a `/` input gets the given power and a numeric scalar, and keeps extra tokens only when it had three or more |
| Parser.SlashRoles | PQ_math_reorg.py:767-800 | with `/`, the numerator has power 1 and the denominator power -1, both scalars are numbers, and extra tokens only come from sides of three or more tokens |
| Parser.SingleTokenSide | PQ_math_reorg.py:782-789 | a lone token is a bare number when it starts with a digit, and otherwise bare atoms with scalar 1.0 |
| Parser.NoSlashDenominator | PQ_math_reorg.py:802-811 | without `/`, the denominator is the mock `1.0`, no atoms, power -1, and the numerator has power 1 |
| Parser.OnlyTwoParts | PQ_math_reorg.py:769-773 | text after a second `/` is ignored |
| Parser.FirstTwoParts | PQ_math_reorg.py:767-773 | two inputs with `/` whose first two `/`-parts agree are split the same way |
| Parser.SlashSide | PQ_math_reorg.py:782-800 | a side of a `/` input that is read gets the given power and a numeric scalar |
| Parser.PlainSide | PQ_math_reorg.py:802-811 | the input without `/` gets power 1, and its scalar stays text only when there are two or more tokens, as the first token |
| Parser.IdScaledUnit | PQ_math_reorg.py:760-828 | the numerator gets power 1; with `/` the denominator gets power -1 and both scalars are numbers; without `/` the denominator is the mock `1.0` with no atoms and no numerator atom ends in `-1` |
| Normalizer.CleanGuardAlwaysTrue | PQ_math_reorg.py:90 | the guard before the alias loop holds for every non-empty atom |
| Normalizer.LastAliasWins | PQ_math_reorg.py:93-100 | the atom becomes the replacement of the last alias it contains, applied to the original atom |
| Normalizer.NoAliasUnchanged | PQ_math_reorg.py:93-101 | an atom containing no alias is kept as it is |
| Normalizer.UnmarkedClean | PQ_math_reorg.py:93-101 | an atom missing a distinguishing character of every alias is left unchanged |
| Normalizer.CanonicalCleanFixed | PQ_math_reorg.py:90-101 | every preferred name is left unchanged by cleaning |
| Normalizer.CleanAtom | PQ_math_reorg.py:87-101 | the loop over the aliases computes the last-match specification |
| Normalizer.CleanAtoms | PQ_math_reorg.py:87-101 | cleaning keeps the number of atoms |
| Normalizer.CleanUnits | PQ_math_reorg.py:87-101 | the loop over a unit list cleans each atom in place |
| Normalizer.CleanUnit | PQ_math_reorg.py:73-106 | both terms of a dictionary are cleaned and nothing else changes |
| Normalizer.CleanOhms | PQ_math_reorg.py:62 | `ohms` becomes Ω |
| Normalizer.CleanLiters | PQ_math_reorg.py:64-65 | `Liters` becomes `liters`, because `L` is the last alias it contains |
| Normalizer.CleanLitersLower | PQ_math_reorg.py:64-65 | `liters` becomes `l` |
| Normalizer.CleanNotIdempotent | PQ_math_reorg.py:93-100 | cleaning `Liters` twice differs from cleaning it once |
| Normalizer.KelvinsProperties | PQ_math_reorg.py:749-757 | a Celsius difference is kept, a Fahrenheit difference is scaled by 5/9, other units are unchanged, and the conversion is strictly increasing |
| Normalizer.ConvertToKelvins | PQ_math_reorg.py:749-757 | other units keep the value; 0 °C and 32 °F are 273.15 K, and 100 °C and 212 °F are 373.15 K |
| Normalizer.Temperatures | PQ_math_reorg.py:328-330 | 23 oC becomes 296.15 K and 32 oF becomes 273.15 K |
| Normalizer.PrefixIndexFrom | PQ_math_reorg.py:309-316 | the chosen entry is the first in table order whose character starts the atom, skipping milli for `mol` when asked |
| Normalizer.FindPrefixEntry | PQ_math_reorg.py:309-322 | the loop over the prefix table finds the first applicable entry |
| Normalizer.PrefixWalk | PQ_math_reorg.py:298-332 | the walk keeps the number of atoms and never rewrites an atom already passed |
| Normalizer.PrefixStep | PQ_math_reorg.py:299-332 | one step of the loop computes the atom's new name, scalar and carried factor |
| Normalizer.PrefixUnits | PQ_math_reorg.py:298-332 | the loop over a unit list computes the walk |
| Normalizer.PrefixTermOf | PQ_math_reorg.py:295-334 | one term is read with `float`, walked and rebuilt as a three-element list |
| Normalizer.ReplacePrefix | PQ_math_reorg.py:276-336 | both terms are processed, with the factor carried from the numerator to the denominator |
| Normalizer.CanonicalPrefixFixed | PQ_math_reorg.py:300-315 | preferred names and `mol` keep their name, scalar and factor |
| Normalizer.PrefixWalkUnits | PQ_math_reorg.py:299-332 | each atom's new name depends only on the atom itself |
| Normalizer.PrefixTermShape | PQ_math_reorg.py:333-334 | a processed term keeps its atom count, has a numeric scalar and takes the third slot as its power |
| Normalizer.PrefixTerm | PQ_math_reorg.py:295-334 | fails with `ValueError` exactly when the scalar cannot be read; a term without atoms is left as it is with the factor; otherwise the term keeps its atom count, gets a numeric scalar and takes its third slot as its power |
| Normalizer.ReplacePrefixSpec | PQ_math_reorg.py:276-336 | fails with `ValueError` exactly when a scalar cannot be read; otherwise both terms keep their atom counts and third slots, and a term with atoms gets a numeric scalar |
| Normalizer.PrefixStrip | PQ_math_reorg.py:313-323 | 10 mV becomes 0.01 V |
| Normalizer.PrefixRemovesEveryOccurrence | PQ_math_reorg.py:317 | `mmol` loses both `m`s and becomes `ol` |
| Normalizer.PrefixCarry | PQ_math_reorg.py:321-323 | an unprefixed atom after `mV` scales the scalar by milli a second time |
| Normalizer.RemovePrefixAgrees | PQ_math_reorg.py:868-905 | for atoms of two or more characters, `remove_prefix` agrees with one step of `replace_prefix` started on a fresh factor |
| Normalizer.RemovePrefixKeepsCelsius | PQ_math_reorg.py:881-882 | `remove_prefix` returns `C` unchanged, while `replace_prefix` turns it into Kelvin |
| Normalizer.RemovePrefix | PQ_math_reorg.py:868-905 | fails with `ValueError` exactly when the scalar cannot be read; a preferred name or an atom shorter than two characters is returned with the scalar's value |
| Normalizer.NormalizeDenom | PQ_math_reorg.py:831-845 | fails exactly on a zero denominator scalar; otherwise the denominator scalar is 1.0, the ratio of scalars is kept, and units and powers are untouched |
| Normalizer.NormalizeIdempotent | PQ_math_reorg.py:831-845 | normalising twice is normalising once |
| Normalizer.NormalizeRaw | PQ_math_reorg.py:831-845 | succeeds exactly when both scalars are numbers and the denominator's is non-zero, raising `TypeError` for text and `ZeroDivisionError` for zero; the result has denominator scalar 1.0, the same ratio, the same atoms, and the third slots as powers |
| Arithmetic.MultiplyUnitDicts | PQ_math_reorg.py:264-273 | succeeds exactly when the powers agree and the first operand's unit lists are not tuples; scalars multiply, unit lists concatenate and powers are kept |
| Arithmetic.MultiplyIdentity | PQ_math_reorg.py:264-273 | multiplying by the number 1 on either side changes nothing |
| Arithmetic.MultiplyByNumber | PQ_math_reorg.py:496-497 | multiplying by a number scales only the numerator scalar |
| Arithmetic.MultiplyAssociative | PQ_math_reorg.py:264-273 | the product is associative |
| Arithmetic.MultiplyCommutesUpToOrder | PQ_math_reorg.py:264-273 | swapping the operands gives the same scalars and the same atoms, possibly in another order |
| Arithmetic.TimesDict | PQ_math_reorg.py:486-504 | the reduced product exists exactly when the powers agree and the first operand's unit lists are not tuples, raises the product's error otherwise, and has the multiplied scalars and the first operand's powers |
| Arithmetic.ReciprocalSwap | PQ_math_reorg.py:378-384 | every Ω of the denominator yields one S for the numerator and every S one Ω, and no atom is lost |
| Arithmetic.NonReciprocalsKeep | PQ_math_reorg.py:378-380 | atoms other than Ω and S stay in the denominator as many times as before |
| Arithmetic.CancelWalkCancels | PQ_math_reorg.py:387-392 | the cancelling walk removes the same atoms from both sides |
| Arithmetic.CancelWalkNothingShared | PQ_math_reorg.py:388-392 | when no remaining denominator atom is in the numerator, nothing changes |
| Arithmetic.ReduceDict | PQ_math_reorg.py:373-398 | fails exactly on frozen terms, or on frozen unit lists with Ω/S in the denominator, naming the error; otherwise scalars and powers are unchanged |
| Arithmetic.ReduceCancels | PQ_math_reorg.py:373-398 | after moving Ω/S, the atoms removed from the numerator equal those removed from the denominator |
| Arithmetic.ReduceClearsReciprocals | PQ_math_reorg.py:378-386 | no Ω or S is left in the denominator |
| Arithmetic.ReduceNotIdempotent | PQ_math_reorg.py:386-392 | `m.m/m.m` reduces to `m/m`, and only a second reduce empties it |
| Arithmetic.ReduceSquareOnce | PQ_math_reorg.py:386-392 | `m.m/m.m` reduces to `m/m` |
| Arithmetic.ReduceSingleOnce | PQ_math_reorg.py:386-392 | `m/m` reduces to no atoms |
| Arithmetic.ReduceMovesOhm | PQ_math_reorg.py:378-384 | per Ω·m reduces to S per m |
| Arithmetic.ReduceQuantity | PQ_math_reorg.py:373-398 | `reduce` on a quantity succeeds exactly when the terms are not frozen and frozen unit lists hold no Ω or S in the denominator; the result is unfrozen with the same scalars |
| Arithmetic.InvertedDict | PQ_math_reorg.py:655-692 | fails exactly on a non-integer power or a zero numerator scalar; otherwise the unit lists swap sides, the new scalar is the reciprocal and the powers are negated |
| Arithmetic.InvertTwice | PQ_math_reorg.py:680-690 | inverting a normalised quantity twice gives it back |
| Arithmetic.InvertIgnoresDenominatorScalar | PQ_math_reorg.py:684-690 | the result does not depend on the denominator scalar |
| Arithmetic.PowDict | PQ_math_reorg.py:506-527 | a non-number exponent raises `ValueError`, a zero denominator raises, a float exponent never succeeds; an int exponent succeeds exactly on unfrozen terms, a non-zero denominator scalar and no zero ratio raised to a negative power, and the result's scalar is the ratio of scalars to that power over a denominator scalar of 1.0 |
| Arithmetic.RepeatSeq | PQ_math_reorg.py:518-521 | a list times a positive int has that many times the length and that many copies of each atom; times zero or less it is empty |
| Arithmetic.PowRepeatsUnits | PQ_math_reorg.py:513-525 | for a positive int exponent and a non-zero denominator scalar, the power's unit lists are the reduction of each unit list repeated that many times |
| Arithmetic.PowWithoutDenominator | PQ_math_reorg.py:513-525 | without denominator atoms, a positive power repeats the numerator atoms, each that many times as often, and leaves the denominator empty |
| Arithmetic.PowTwoIsSquare | PQ_math_reorg.py:513-525 | squaring a normalised quantity is multiplying it by itself |
| Arithmetic.PowOneIsReduce | PQ_math_reorg.py:513-525 | the first power of a normalised quantity is its reduction |
| Arithmetic.PowNonPositiveDropsUnits | PQ_math_reorg.py:513-521 | a power of zero or less leaves no units, and the scalar is the ratio to that power |
| Arithmetic.UnitlessOf | PQ_math_reorg.py:411-419 | returns the numerator scalar exactly when both unit lists are empty, and raises `ValueError` otherwise |
| Arithmetic.UnitlessNeedsReduce | PQ_math_reorg.py:411-419 | `2 m/m` has attached units until it is reduced |
| Arithmetic.SumIfSameUnits | PQ_math_reorg.py:479-481 | a sum exists exactly when both unit lists are equal in order, and it adds the numerator scalars |
| Arithmetic.AddSpec | PQ_math_reorg.py:461-484 | `a + b` raises exactly when either reduction raises, leaving both untouched when the receiver's does; otherwise the receiver holds its reduced unit lists, unfrozen, is the reduced receiver when there is no sum, and on success the operand is left reduced |
| Arithmetic.AddSelfSpec | PQ_math_reorg.py:461-484 | `a + a` succeeds exactly when `a` reduces, always gives a sum, whose scalar is twice the original, and stores it in the one object |
| Arithmetic.AddIff | PQ_math_reorg.py:461-484 | `a + b` returns a sum exactly when both operands reduce and their reduced unit lists agree; the sum adds the scalars and overwrites the receiver |
| Arithmetic.AddSelfDoubles | PQ_math_reorg.py:461-482 | adding a reducible quantity to itself doubles its scalar |
| Presentation.FindPrefixSpec | PQ_math_reorg.py:109-123 | the prefix has at most one character, and without a prefix the scalar is unchanged |
| Presentation.FindPrefixNone | PQ_math_reorg.py:115-123 | no prefix is chosen exactly when no tried entry scales the value into [0.9, 999) |
| Presentation.FindPrefixChosen | PQ_math_reorg.py:115-122 | a chosen prefix scales the value into [0.9, 999), and value times factor gives the input back |
| Presentation.FindPrefix | PQ_math_reorg.py:109-123 | the loop over the prefix table computes the first fitting entry |
| Presentation.NeverMicroOrSmallKilo | PQ_math_reorg.py:68-70 | `μ` and `k` are never chosen, because `u` and `K` come first with the same factors |
| Presentation.FifteenHundred | PQ_math_reorg.py:115-122 | 1500 is shown as 1.5 with prefix `K` |
| Presentation.OneWithAndWithoutCenti | PQ_math_reorg.py:116-117 | 1 becomes 100 centi when centi is allowed, and stays 1 otherwise |
| Presentation.AddPrefix | PQ_math_reorg.py:712-723 | the value and the prefix are what `find_prefix` gives with centi allowed for every non-empty unit, and the text is that prefix followed by the unit string |
| Presentation.AddPrefixCentiOnAnyUnit | PQ_math_reorg.py:720-722 | 1.5 sec becomes 150 csec |
| Presentation.AddPrefixIntended | PQ_math_reorg.py:719-723 | as `add_prefix`, the prefix of `find_prefix` followed by the unit string, with centi allowed only for metre units |
| Presentation.NoCentiUnlessAllowed | PQ_math_reorg.py:116-117 | centi is never chosen when it is not allowed |
| Presentation.IntendedCentiOnlyForLength | PQ_math_reorg.py:713-721 | the intended `add_prefix` gives a centi prefix only to metre units |
| Presentation.Combine | PQ_math_reorg.py:726-746 | combining never lengthens the list |
| Presentation.CombineMeaning | PQ_math_reorg.py:726-746 | when no atom ends in a digit, combining gives the atoms that occur once, in order, then each repeated atom followed by its count, in order of first occurrence |
| Presentation.RemoveCount | PQ_math_reorg.py:743-744 | removing an atom as many times as it occurs removes all its copies |
| Presentation.CombineRepeats | PQ_math_reorg.py:726-746 | the loop over the original list computes the specification |
| Presentation.CombineDistinct | PQ_math_reorg.py:735-745 | a list without repeats is kept as it is |
| Presentation.CombineSquare | PQ_math_reorg.py:741-745 | `m, m` becomes `m2` |
| Presentation.CombinePowerLast | PQ_math_reorg.py:745 | each power atom goes to the end: `F, m, m, sec` becomes `F, sec, m2` |
| Presentation.CombineCollides | PQ_math_reorg.py:741-745 | `m, m, m2` becomes `m22`, because the new `m2` is counted with the old one |
| Presentation.PrefixedListToString | PQ_math_reorg.py:908-914 | the result starts with the prefix; when no atom ends in a digit, it is the prefix followed by the atoms that occur once, in order, then each repeated atom with its count, in order of first occurrence, all joined by `.` |
| Presentation.DenominatorShown | PQ_math_reorg.py:908-914 | a non-empty list without empty atoms is written as non-empty text |
| Presentation.WriteThenParse | PQ_math_reorg.py:908-914 | for distinct plain atoms, parsing the written string gives the list back |
| Presentation.WriteThenParseSquare | PQ_math_reorg.py:908-914 | `m, m` is written as `m2`, which parses back to `m, m` |
| Presentation.SIOf | PQ_math_reorg.py:422-436 | the scalar is the numerator scalar, and the text starts with the numerator atoms joined by `.` |
| Presentation.SIThenParse | PQ_math_reorg.py:422-436 | the `SI` text of a quantity with text atoms on both sides parses back to its atoms and powers |
| Presentation.Display | PQ_math_reorg.py:356-370 | the value is `find_prefix` of the scalar, with centi allowed when `m` is an atom; without denominator atoms the text is the prefixed numerator, and with non-empty denominator atoms it is the prefixed numerator, `/`, and the written denominator |
| Presentation.PrefixedSpec | PQ_math_reorg.py:347-370 | succeeds exactly when `reduce` succeeds and the denominator scalar is non-zero; on success the result is the display of the object left behind, which holds the reduced unit lists, a denominator scalar of 1.0 and the scalar ratio; when `reduce` raises, the object is unchanged |
| Construction.MakeDictSpec | PQ_math_reorg.py:214-225 | a built dictionary is normalised, and a parse error is passed on |
| Construction.MakeDict | PQ_math_reorg.py:214-225 | the four stages in sequence compute the specification |
| Construction.ConformList | PQ_math_reorg.py:917-927 | anything but three items raises `ValueError` and a number in the units slot raises `TypeError`; it succeeds exactly on three items whose units slot is a list or a string, whose scalar is a number and whose power is an int or a string; the units are the list given or one atom per character of the string, the scalar is carried over as a real, and the power as the int or the string |
| Construction.ConformTermItems | PQ_math_reorg.py:922-924 | conforming a term's own three items gives the term back |
| Construction.ConformSplitsString | PQ_math_reorg.py:923-924 | the units slot `"cm"` becomes `c, m` |
| Construction.KwStep | PQ_math_reorg.py:188-208 | a `num` keyword changes only the numerator, and `denom` only the denominator |
| Construction.InterpretSpec | PQ_math_reorg.py:126-211 | an error from the positional argument is raised, without keywords the positional result is returned, keywords give an unfrozen quantity, and a frozen result can only be a `PhysQuant` passed in first |
| Construction.Interpret | PQ_math_reorg.py:126-211 | the positional part followed by the keyword loop computes the specification |
| Construction.FromArgsOf | PQ_math_reorg.py:138-180 | the dispatch on the first argument computes the specification |
| Construction.KwFoldOf | PQ_math_reorg.py:184-208 | the loop over the keywords computes the fold, stopping at the first error |
| Construction.KwStepOf | PQ_math_reorg.py:189-208 | one keyword step computes the specification |
| Construction.ExtraArgsIgnored | PQ_math_reorg.py:146 | only the first positional argument matters |
| Construction.KeywordsOverride | PQ_math_reorg.py:181-184 | when the positional part succeeds, keywords restart from the default and discard it |
| Construction.ExplicitParts | PQ_math_reorg.py:188-199 | `num=` and `denom=` given as term lists rebuild exactly that dictionary |
| Construction.UnitKeyword | PQ_math_reorg.py:203-208 | `pq(cm=3)` is `pq("3 cm")`, with `str(3)` as the text |
| Construction.LastUnitKeywordWins | PQ_math_reorg.py:203-208 | a unit keyword replaces everything that came before it |
| Construction.DenomKeywordKeepsOnlyUnits | PQ_math_reorg.py:195-197 | `denom="s"` keeps the default numerator and takes the units of `1/s` with a normalised scalar |
| Quantities.PhysQuant.FromState | PQ_math_reorg.py:338-344 | the new object holds the given state and, given terms frozen only together with unit lists, keeps the object invariant |
| Quantities.PhysQuant.Reduce | PQ_math_reorg.py:373-398 | the object becomes its reduction, or stays unchanged when `reduce` raises |
| Quantities.PhysQuant.Prefixed | PQ_math_reorg.py:347-370 | returns and leaves behind what the `prefixed` specification says |
| Quantities.PhysQuant.Freeze | PQ_math_reorg.py:636-653 | the dictionary is kept, with both terms and unit lists frozen |
| Quantities.PhysQuant.Melt | PQ_math_reorg.py:694-709 | the dictionary is kept, and nothing is frozen any more |
| Quantities.PhysQuant.Times | PQ_math_reorg.py:486-504 | a new object holds the reduced product, or the product's error is raised; the new object keeps the object invariant |
| Quantities.PhysQuant.TimesNumber | PQ_math_reorg.py:529-546 | multiplying by a number gives a new object holding the reduced product with that number; the new object keeps the object invariant |
| Quantities.PhysQuant.Inverted | PQ_math_reorg.py:655-692 | a new object holds the inverted dictionary and keeps tuple unit lists, and the receiver is untouched; the new object keeps the object invariant |
| Quantities.PhysQuant.Power | PQ_math_reorg.py:506-527 | a new object holds the power, or its error is raised; the new object keeps the object invariant |
| Quantities.PhysQuant.Add | PQ_math_reorg.py:461-484 | both objects are left reduced, the receiver holds the sum, and a copy of the sum is returned |
| Quantities.PhysQuant.AddSelf | PQ_math_reorg.py:461-484 | `a + a` reduces the object twice and leaves it doubled |
| Quantities.PhysQuant.ChangeUnit | PQ_math_reorg.py:602-634 | the value expressed in the target unit when the unreduced unit lists agree, and nothing otherwise |
| Quantities.MoveReciprocals | PQ_math_reorg.py:375-386 | the first loop of `reduce` appends the reciprocals to the numerator and keeps the other atoms, or fails on frozen unit lists |
| Quantities.MoveStep | PQ_math_reorg.py:378-384 | one step of the first loop of `reduce` |
| Quantities.CancelShared | PQ_math_reorg.py:387-392 | the second loop of `reduce`, which removes from the list it walks, computes the cancelling walk |
| Quantities.Pq | PQ_math_reorg.py:1018-1019 | `pq(...)` builds an object holding what `_interpret` gives and keeping the object invariant, or raises its error |
| Quantities.ConvertTo | PQ_math_reorg.py:623-631 | a value exists exactly when the unit lists are equal and the target scalar is non-zero, and that value times the target scalar is the stored scalar |
| Examples.IdResistivity | PQ_math_reorg.py:802-814 | `100 ohm.cm` keeps `100` as text and has the atoms `ohm` and `cm` |
| Examples.CleanResistivity | PQ_math_reorg.py:84-101 | `ohm` becomes Ω and `cm` is kept |
| Examples.PrefixResistivity | PQ_math_reorg.py:295-323 | the text scalar is read as 100, and `cm` becomes `m`, giving 1.0 Ω·m |
| Examples.PrefixResistivityNumerator | PQ_math_reorg.py:295-323 | the numerator `100 Ω.cm` becomes `1.0 Ω.m` with a carried factor of 0.01 |
| Examples.MakeResistivity | PQ_math_reorg.py:214-225 | `_make_dict("100 ohm.cm")` is 1.0 Ω·m |
| Examples.InvertResistivity | PQ_math_reorg.py:680-690 | inverting 1.0 Ω·m gives 1.0 per Ω·m |
| Examples.ReduceConductivity | PQ_math_reorg.py:378-384 | reducing it moves Ω to the numerator as S |
| Examples.ShowConductivity | PQ_math_reorg.py:356-370 | S per m is shown as `1.0 S/m` |
| Examples.DisplayOneOverOne | PQ_math_reorg.py:356-370 | one atom other than `m` over one atom, with scalar 1.0, is shown as `1.0` and `atom/atom` |
| Examples.WrittenAlone | PQ_math_reorg.py:908-914 | a single atom without a prefix is written as itself |
| Examples.ConductivityEndToEnd | PQ_math_reorg.py:347-370 | `pq("100 ohm.cm").inverted().prefixed` is `(1.0, "S/m")` |

## Left out

- Evaluating a `**`-prefixed string as Python source in `_interpret` (lines 152-167): the model returns `Unsupported`, because it would need a Python evaluator.
- Parser.IdScaledUnit: an atom ending in `-1` in an input without `/` gives `Unsupported`. The source's code for that case (lines 816-827) calls `list.remove` with an index, which depends on Python equality between numbers and list items.
- `_assign_prefix` and `change_unit(..., with_prefix=True)`: they use a floating-point logarithm.
- `__repr__`, `__str__` and their `"{0:.3f}"` formatting: this is output only.
- The `scalar` property and the `_SI_grams` flag in `SI`: the flag is fixed at `True` in the source, and the branch compares a list with a string, so it never fires.
- The subclasses `rnd_cell` and `segment`, and the module-level constants: they are applications of the core, not part of it.
- Debug printing, the message `clean_unit` prints for a term that is not three items long, and the `Conversion not Compatible` message `change_unit` always prints before returning `None` (line 633): they are I/O.
- `float()` beyond plain decimals (`inf`, `nan`, underscores, surrounding whitespace): the reader only accepts sign, digits, `.` and an exponent.
- Scalars are exact reals: IEEE rounding is not modelled, so `0.1 * 3` compares as in mathematics.
- Float overflow: `ratio ** exponent` in `__pow__` (lines 515-516) raises `OverflowError` in the source when the result exceeds the float range, as for `pq("1e200 m") ** 2`. The model's power of an exact real never overflows.
- Sharing between objects: `pq(q)` (line 174) stores the very dictionary of `q`, so a later `freeze`, `reduce` or `+` through one object changes the other. Every other construction, including the `pq(**...)` that `__add__` returns, copies the lists through `conform_list` (lines 199, 923-924). The model treats each dictionary as a value, so it does not capture the aliasing after `pq(q)`.
- `__mul__` and `__rmul__` with an operand that is neither a number nor a `PhysQuant`: they raise `AttributeError` in the source, and the model has only the two typed operations.
- `__add__` with an operand that is not a `PhysQuant`: the receiver is reduced in place, and then reading the operand's `unit_dict` raises `AttributeError` (lines 470-472). The model has only the typed operation, so it does not show the receiver left reduced in that case.
- Construction.ConformList: a scalar that is not a number, and a power that is neither an int nor a string, give `Unsupported`.
- Construction.KwStep: for a number given to a unit keyword, the text of `str(value)` is a parameter (`KwNumber`) rather than Python's float formatting. A list given to a unit keyword gives `Unsupported`.
- Quantities.PhysQuant.Reduce requires `Valid()` (terms frozen only together with unit lists), which every operation keeps.
- Quantities.PhysQuant.Add requires two distinct objects. `a + a` is the separate method `AddSelf`.
- Parser.Expandable: a trailing digit counts only when it is an ASCII `2` to `9`. Python's `isnumeric` also accepts other numeric characters, so in the source `cm²` fails with `ValueError` in `int`, and `m` followed by an Arabic-Indic three expands.
- Parser.Expansion: the count comes from an ASCII digit only, for the reason given for `Parser.Expandable`.
- Parser.SingleTokenSide: a lone token counts as a number only when it starts with an ASCII digit. In the source any character for which `isnumeric` holds counts, so a lone `½` raises `ValueError` from `float`.
- Parser.SlashSide: the first-character test and the `float` reading use ASCII digits only, as for `Parser.SingleTokenSide`.
- Parser.PlainSide: the first-character test uses ASCII digits only, as for `Parser.SingleTokenSide`.
- Text.Strip: removes ASCII whitespace only. Python's `strip` also removes Unicode spaces such as U+00A0, U+2000 to U+200A and U+3000.
- Presentation.CombineMeaning: the description holds when no atom ends in a digit. Otherwise a new power form can be counted with an atom already in the list, as `Presentation.CombineCollides` shows.
- Quantities.Pq requires a `PhysQuant` passed as first argument to keep the object invariant, as every object built by the model does.
- The test script `testPQ.py`: it is not part of this model.

## Findings

| source | as written | input that shows it | evidently intended | confidence | as-written member | corrected member |
|---|---|---|---|---|---|---|
| PQ_math_reorg.py:719-722 | `add_prefix` computes `use_centi` but passes `unit_str` to `find_prefix`, so centi is allowed for every non-empty unit | `add_prefix(1.5, "sec")` returns `(150.0, "csec")` | centi only for metre units (`unit_str == "m"` or containing `"m."`), as the docstring and the unused flag say | not executed | Presentation.AddPrefixCentiOnAnyUnit | Presentation.IntendedCentiOnlyForLength |
