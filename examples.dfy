/** The resistivity `100 ohm.cm` worked through the engine: parsed, cleaned, stripped of
    its prefix, inverted, reduced and shown as `1.0 S/m`. */
module Examples {
  import opened Outcomes
  import opened Text
  import opened Tables
  import opened Terms
  import opened Parser
  import opened Normalizer
  import opened Arithmetic
  import opened Presentation
  import opened Construction

  const Resistivity: string := "100" + " " + ("ohm" + "." + "cm")

  /** `100 ohm.cm` after `_make_dict`: 1.0 Ω·m. */
  const OhmMetre: UnitDict := UnitDict(Term(1.0, [OHM, "m"], P(1)), Term(1.0, [], P(-1)))

  /** `100 ohm.cm` inverted: 1.0 per Ω·m. */
  const PerOhmMetre: UnitDict := UnitDict(Term(1.0, [], P(1)), Term(1.0, [OHM, "m"], P(-1)))

  /** The reciprocal resistivity after `reduce`: S per m. */
  const SiemensPerMetre: UnitDict := UnitDict(Term(1.0, [SIEMENS], P(1)), Term(1.0, ["m"], P(-1)))

  lemma SplitTwo(a: string, b: string, sep: char)
    requires sep !in a && sep !in b
    ensures Split(a + [sep] + b, sep) == [a, b]
  {
    SplitAt(a, sep, b);
    SplitNoSep(b, sep);
  }

  /** Two plain atoms joined by "." parse as themselves. */
  lemma ParseTwoPlain(x: string, y: string)
    requires x != "" && y != "" && '.' !in x && '.' !in y
    requires !Expandable(x) && !Expandable(y)
    ensures ParseUnitStringSpec(x + ['.'] + y) == Ok([x, y])
  {
    SplitTwo(x, y, '.');
    ParsePlain(x + ['.'] + y);
  }

  /** Without "/", a number and an atom list separated by one space: the number stays
      text next to the parsed atoms. */
  lemma IdNumberAndUnits(a: string, b: string, u: seq<string>)
    requires ' ' !in a && ' ' !in b && '/' !in a && '/' !in b
    requires ParseUnitStringSpec(b) == Ok(u) && forall k :: 0 <= k < |u| ==> !EndsWithMinusOne(u[k])
    ensures IdScaledUnit(a + [' '] + b) == Ok(RawDict(RawTerm(Text(a), u, [], P(1)), MockDenominator))
  {
    SplitTwo(a, b, ' ');
    var s := a + [' '] + b;
    assert '/' !in s;
    var tokens := Split(s, ' ');
    assert tokens[0] == a && tokens[1] == b && tokens[2..] == [];
    assert PlainSide(tokens) == Ok(RawTerm(Text(a), u, [], P(1)));
  }

  /** `id_scaled_unit("100 ohm.cm")`: the number stays text, the atoms are `ohm` and `cm`. */
  lemma IdResistivity()
    ensures IdScaledUnit(Resistivity) == Ok(RawDict(RawTerm(Text("100"), ["ohm", "cm"], [], P(1)), MockDenominator))
  {
    var a, x, y := "100", "ohm", "cm";
    assert ' ' !in a && '/' !in a;
    assert x != "" && y != "" && !Expandable(x) && !Expandable(y);
    assert ' ' !in x + ['.'] + y && '/' !in x + ['.'] + y;
    ParseTwoPlain(x, y);
    var u := [x, y];
    assert !EndsWithMinusOne(u[0]) && !EndsWithMinusOne(u[1]);
    IdNumberAndUnits(a, x + ['.'] + y, u);
  }

  lemma OhmChunks()
    ensures NoAliasBetween("ohm", 1, 6) && NoAliasBetween("ohm", 6, 12) && NoAliasBetween("ohm", 12, 18)
  {
  }

  lemma CleanOhm()
    ensures CleanAtomSpec("ohm") == OHM
  {
    CleanGuardAlwaysTrue("ohm");
    OhmChunks();
    NoAliasBetweenJoin("ohm", 1, 6, 12);
    NoAliasBetweenJoin("ohm", 1, 12, 18);
    NoAliasBetweenSkips("ohm", 1, |BetterUnit|);
    assert Contains("ohm", "ohm");
    LastAliasWins("ohm", |BetterUnit|, 0);
    assert ReplaceAll("ohm", "ohm", OHM) == OHM + ReplaceAll("", "ohm", OHM);
  }

  lemma CleanCentimetre()
    ensures CleanAtomSpec("cm") == "cm"
  {
    UnmarkedClean("cm");
  }

  /** `ohm` becomes Ω; `cm` has no alias. */
  lemma CleanResistivity()
    ensures CleanUnitSpec(RawDict(RawTerm(Text("100"), ["ohm", "cm"], [], P(1)), MockDenominator))
      == RawDict(RawTerm(Text("100"), [OHM, "cm"], [], P(1)), MockDenominator)
  {
    CleanOhm();
    CleanCentimetre();
    var c := CleanAtoms(["ohm", "cm"]);
    assert c[0] == OHM && c[1] == "cm";
    assert c == [OHM, "cm"];
    assert CleanAtoms([]) == [];
  }

  lemma CentiPrefix()
    ensures PrefixAtom("cm", 100.0, 1.0) == Carry("m", 1.0, 0.01)
  {
    assert !IsCanonical("cm");
    assert PrefixIndex("cm", true) == 9;
    assert ReplaceAll("cm", "c", "") == "" + ReplaceAll("m", "c", "");
    NotContainsChar("m", "c", 'c');
    assert !IsTemperature("m");
  }

  /** The text scalar is read as 100, and `cm` gives `m` with the factor 0.01. */
  lemma PrefixResistivity()
    ensures ReplacePrefixSpec(RawDict(RawTerm(Text("100"), [OHM, "cm"], [], P(1)), MockDenominator))
      == Ok(RawDict(RawTerm(Num(1.0), [OHM, "m"], [], P(1)), MockDenominator))
  {
    PrefixResistivityNumerator();
  }

  lemma PrefixResistivityNumerator()
    ensures PrefixTerm(RawTerm(Text("100"), [OHM, "cm"], [], P(1)), 1.0)
      == Ok((RawTerm(Num(1.0), [OHM, "m"], [], P(1)), 0.01))
  {
    ReadFloatDigits("100");
    assert DigitsValue("100") == 100;
    CentiPrefix();
    assert PrefixAtom(OHM, 100.0, 1.0) == Carry(OHM, 100.0, 1.0);
    var u: seq<string> := [OHM, "cm"];
    assert u[0 := OHM] == u;
    assert u[1 := "m"] == [OHM, "m"];
    assert PrefixWalk(u, 0, 100.0, 1.0) == PrefixWalk(u, 1, 100.0, 1.0);
    assert PrefixWalk(u, 1, 100.0, 1.0) == PrefixWalk([OHM, "m"], 2, 1.0, 0.01);
  }

  /** `_make_dict("100 ohm.cm")` is 1.0 Ω·m. */
  lemma MakeResistivity()
    ensures MakeDictSpec(Resistivity) == Ok(OhmMetre)
  {
    IdResistivity();
    CleanResistivity();
    PrefixResistivity();
  }

  /** Inverting 1.0 Ω·m gives 1.0 per Ω·m. */
  lemma InvertResistivity()
    ensures InvertedDict(OhmMetre) == Ok(PerOhmMetre)
  {
  }

  /** Reducing moves Ω from the denominator to the numerator as S. */
  lemma ReduceConductivity()
    ensures ReduceDict(PerOhmMetre, false, false) == Ok(SiemensPerMetre)
  {
    ReduceMovesOhm();
  }

  /** The conductivity is shown as `1.0 S/m`. */
  lemma ShowConductivity()
    ensures Display(SiemensPerMetre) == (1.0, "S/m")
  {
    DisplayOneOverOne(SiemensPerMetre);
    assert SIEMENS + "/" + "m" == "S/m";
  }

  /** One atom over one atom with scalar 1: no prefix, and the two atoms around `/`. */
  lemma DisplayOneOverOne(d: UnitDict)
    requires |d.num.units| == 1 && |d.denom.units| == 1 && d.num.scalar == 1.0
    requires d.num.units[0] != "m" && d.denom.units[0] != ""
    ensures Display(d) == (1.0, d.num.units[0] + "/" + d.denom.units[0])
  {
    OneWithAndWithoutCenti();
    assert "m" !in d.num.units;
    assert "" !in d.denom.units;
    WrittenAlone(d.num.units);
    WrittenAlone(d.denom.units);
  }

  /** A single atom is written as it is. */
  lemma WrittenAlone(l: seq<string>)
    requires |l| == 1
    ensures PrefixedListToString("", l) == l[0]
  {
    CombineDistinct(l, 0);
  }

  /** `pq("100 ohm.cm").inverted().prefixed` is `(1.0, "S/m")`, and the inverted object is
      left holding S per m. */
  lemma ConductivityEndToEnd()
    ensures MakeDictSpec(Resistivity).Ok? && InvertedDict(MakeDictSpec(Resistivity).value).Ok?
    ensures var inv := InvertedDict(MakeDictSpec(Resistivity).value).value;
      PrefixedSpec(Quantity(inv, false, false)) == Shown(Quantity(SiemensPerMetre, false, false), Ok((1.0, "S/m")))
  {
    MakeResistivity();
    InvertResistivity();
    ReduceConductivity();
    ShowConductivity();
    assert NormalizeDenom(SiemensPerMetre) == Ok(SiemensPerMetre);
  }
}
