/** Normalisation of parsed terms: alias rewriting (`clean_unit`), prefix removal
    (`replace_prefix`, `remove_prefix`), temperature conversion (`convert_to_kelvins`) and
    folding the denominator scalar into the numerator (`normalize_denom`). */
module Normalizer {
  import opened Outcomes
  import opened Text
  import opened Tables
  import opened Terms
  import opened Parser

  // ---------------------------------------------------------------- clean_unit

  /** The atom after trying the first `n` aliases of `better_unit`: every alias found in `s`
      rewrites the original `s` afresh, so the last alias found wins. */
  function CleanWith(s: string, n: nat): string
    requires n <= |BetterUnit|
  {
    if n == 0 then s
    else
      AliasesNonEmpty();
      if Contains(s, BetterUnit[n - 1].0) then ReplaceAll(s, BetterUnit[n - 1].0, BetterUnit[n - 1].1)
      else CleanWith(s, n - 1)
  }

  /** The last alias found decides: if alias `k` occurs in `s` and no later one among the
      first `n` does, the atom is `s` with every occurrence of alias `k` rewritten. */
  lemma {:induction false} LastAliasWins(s: string, n: nat, k: nat)
    requires k < n <= |BetterUnit|
    requires Contains(s, BetterUnit[k].0)
    requires forall j :: k < j < n ==> !Contains(s, BetterUnit[j].0)
    ensures BetterUnit[k].0 != []
    ensures CleanWith(s, n) == ReplaceAll(s, BetterUnit[k].0, BetterUnit[k].1)
  {
    AliasesNonEmpty();
    if n - 1 > k {
      LastAliasWins(s, n - 1, k);
    }
  }

  /** An atom containing none of the first `n` aliases is left as it is. */
  lemma {:induction false} NoAliasUnchanged(s: string, n: nat)
    requires n <= |BetterUnit|
    requires forall j :: 0 <= j < n ==> !Contains(s, BetterUnit[j].0)
    ensures CleanWith(s, n) == s
  {
    if n > 0 {
      NoAliasUnchanged(s, n - 1);
    }
  }

  /** The guard `str_unit not in values or str_unit[1:] not in values`. */
  predicate CleanGuard(s: string)
    requires s != ""
  {
    !IsCanonical(s) || !IsCanonical(s[1..])
  }

  /** The guard never fails: no canonical atom's tail is canonical. */
  lemma CleanGuardAlwaysTrue(s: string)
    requires s != ""
    ensures CleanGuard(s)
  {
    if IsCanonical(s) {
      assert s[1..] == "" || s[1..] == "ol" || s[1..] == "ec" || s[1..] == "oul";
    }
  }

  /** `clean_unit` on one atom. */
  function CleanAtomSpec(s: string): string
  {
    if s != "" && CleanGuard(s) then CleanWith(s, |BetterUnit|) else s
  }

  /** `clean_unit`'s loop over the aliases for one atom. */
  method CleanAtom(s: string) returns (r: string)
    ensures r == CleanAtomSpec(s)
  {
    r := s;
    if s != "" && CleanGuard(s) {
      AliasesNonEmpty();
      var i := 0;
      while i < |BetterUnit|
        invariant i <= |BetterUnit|
        invariant r == CleanWith(s, i)
      {
        var (alias, better) := BetterUnit[i];
        if Contains(s, alias) {
          r := ReplaceAll(s, alias, better);
        }
        i := i + 1;
      }
    }
  }

  /** The atoms of a list after cleaning, position by position. */
  function CleanAtoms(units: seq<string>): (r: seq<string>)
    ensures |r| == |units|
  {
    seq(|units|, k requires 0 <= k < |units| => CleanAtomSpec(units[k]))
  }

  /** A term is cleaned only when its list has exactly three items. */
  function CleanTerm(t: RawTerm): RawTerm
  {
    if t.extra == [] then t.(units := CleanAtoms(t.units)) else t
  }

  /** `clean_unit(d)`. */
  function CleanUnitSpec(d: RawDict): RawDict
  {
    RawDict(CleanTerm(d.num), CleanTerm(d.denom))
  }

  /** `clean_unit`'s loop over the atoms of one list, rewriting each in place. */
  method CleanUnits(units: seq<string>) returns (r: seq<string>)
    ensures r == CleanAtoms(units)
  {
    r := units;
    var i := 0;
    while i < |r|
      invariant i <= |r| == |units|
      invariant forall k :: 0 <= k < i ==> r[k] == CleanAtomSpec(units[k])
      invariant forall k :: i <= k < |r| ==> r[k] == units[k]
    {
      var u := CleanAtom(r[i]);
      r := r[i := u];
      i := i + 1;
    }
  }

  /** `clean_unit`. */
  method CleanUnit(d: RawDict) returns (r: RawDict)
    ensures r == CleanUnitSpec(d)
  {
    var num := d.num;
    var denom := d.denom;
    if num.extra == [] {
      var u := CleanUnits(num.units);
      num := num.(units := u);
    }
    if denom.extra == [] {
      var u := CleanUnits(denom.units);
      denom := denom.(units := u);
    }
    r := RawDict(num, denom);
  }

  /** Some character of `key` is missing from `s` (so `s` cannot contain `key`). */
  predicate MissingChar(s: string, key: string)
  {
    key != [] && (key[0] !in s || MissingChar(s, key[1..]))
  }

  lemma {:induction false} MissingCharWitness(s: string, key: string) returns (c: char)
    requires MissingChar(s, key)
    ensures c in key && c !in s
  {
    if key[0] !in s {
      c := key[0];
    } else {
      c := MissingCharWitness(s, key[1..]);
      assert key == [key[0]] + key[1..];
    }
  }

  lemma MissingCharNotContained(s: string, key: string)
    requires MissingChar(s, key)
    ensures !Contains(s, key)
  {
    var c := MissingCharWitness(s, key);
    NotContainsChar(s, key, c);
  }

  /** None of the aliases `lo .. hi-1` can occur in `s`, by length or by a missing character. */
  predicate NoAliasBetween(s: string, lo: nat, hi: nat)
    requires hi <= |BetterUnit|
    decreases hi
  {
    lo >= hi
    || ((|BetterUnit[hi - 1].0| > |s| || MissingChar(s, BetterUnit[hi - 1].0)) && NoAliasBetween(s, lo, hi - 1))
  }

  lemma {:induction false} NoAliasBetweenSkips(s: string, lo: nat, hi: nat)
    requires lo <= hi <= |BetterUnit| && NoAliasBetween(s, lo, hi)
    ensures forall j :: lo <= j < hi ==> !Contains(s, BetterUnit[j].0)
    ensures CleanWith(s, hi) == CleanWith(s, lo)
    decreases hi
  {
    if lo < hi {
      var key := BetterUnit[hi - 1].0;
      if |key| <= |s| {
        MissingCharNotContained(s, key);
      }
      NoAliasBetweenSkips(s, lo, hi - 1);
    }
  }

  lemma {:induction false} NoAliasBetweenJoin(s: string, lo: nat, mid: nat, hi: nat)
    requires lo <= mid <= hi <= |BetterUnit|
    requires NoAliasBetween(s, lo, mid) && NoAliasBetween(s, mid, hi)
    ensures NoAliasBetween(s, lo, hi)
    decreases hi
  {
    if mid < hi {
      NoAliasBetweenJoin(s, lo, mid, hi - 1);
    }
  }

  /** None of the 18 aliases can occur in `s`, checked four at a time. */
  lemma NoAliasAtAll(s: string)
    requires NoAliasBetween(s, 0, 4) && NoAliasBetween(s, 4, 8) && NoAliasBetween(s, 8, 12)
    requires NoAliasBetween(s, 12, 16) && NoAliasBetween(s, 16, 18)
    ensures NoAliasBetween(s, 0, |BetterUnit|)
  {
    NoAliasBetweenJoin(s, 0, 4, 8);
    NoAliasBetweenJoin(s, 0, 8, 12);
    NoAliasBetweenJoin(s, 0, 12, 16);
    NoAliasBetweenJoin(s, 0, 16, 18);
  }

  /** An atom in which none of the aliases can occur is left as it is. */
  lemma CleanFixedByChunks(u: string)
    requires NoAliasBetween(u, 0, 4) && NoAliasBetween(u, 4, 8) && NoAliasBetween(u, 8, 12)
    requires NoAliasBetween(u, 12, 16) && NoAliasBetween(u, 16, 18)
    ensures CleanAtomSpec(u) == u
  {
    NoAliasAtAll(u);
    NoAliasBetweenSkips(u, 0, |BetterUnit|);
    NoAliasUnchanged(u, |BetterUnit|);
  }

  /** One character of each alias, in table order. */
  const AliasMarks: string := "hhhhppppeeeeeLerqQ"

  /** `s` lacks every character of `AliasMarks`. */
  predicate Unmarked(s: string)
  {
    'h' !in s && 'p' !in s && 'e' !in s && 'L' !in s && 'r' !in s && 'q' !in s && 'Q' !in s
  }

  lemma AliasesMarked()
    ensures |AliasMarks| == |BetterUnit|
    ensures forall j :: 0 <= j < |BetterUnit| ==> AliasMarks[j] in BetterUnit[j].0
    ensures forall j :: 0 <= j < |AliasMarks| ==> AliasMarks[j] in "hpeLrqQ"
  {
  }

  /** An atom lacking a character of every alias is left as it is. */
  lemma UnmarkedClean(s: string)
    requires Unmarked(s)
    ensures CleanAtomSpec(s) == s
  {
    AliasesMarked();
    forall j | 0 <= j < |BetterUnit|
      ensures !Contains(s, BetterUnit[j].0)
    {
      var c := AliasMarks[j];
      assert c in "hpeLrqQ";
      assert c !in s;
      NotContainsChar(s, BetterUnit[j].0, c);
    }
    NoAliasUnchanged(s, |BetterUnit|);
  }

  lemma CleanFixedSec()
    ensures CleanAtomSpec("sec") == "sec"
  {
    assert NoAliasBetween("sec", 0, 4);
    assert NoAliasBetween("sec", 4, 8);
    assert NoAliasBetween("sec", 8, 12);
    assert NoAliasBetween("sec", 12, 16);
    assert NoAliasBetween("sec", 16, 18);
    CleanFixedByChunks("sec");
  }

  /** A canonical atom is never rewritten. */
  lemma CanonicalCleanFixed(u: string)
    requires IsCanonical(u)
    ensures CleanAtomSpec(u) == u
  {
    if u == "sec" {
      CleanFixedSec();
    } else {
      UnmarkedClean(u);
    }
  }

  /** `"ohms"` contains both `"ohm"` and `"ohms"`; the later alias wins and gives Ω. */
  lemma CleanOhms()
    ensures CleanAtomSpec("ohms") == OHM
  {
    CleanGuardAlwaysTrue("ohms");
    OhmsChunks();
    NoAliasBetweenJoin("ohms", 3, 8, 13);
    NoAliasBetweenJoin("ohms", 3, 13, 18);
    NoAliasBetweenSkips("ohms", 3, |BetterUnit|);
    assert Contains("ohms", "ohms");
    assert ReplaceAll("ohms", "ohms", OHM) == OHM + ReplaceAll("", "ohms", OHM);
  }

  lemma OhmsChunks()
    ensures NoAliasBetween("ohms", 3, 8) && NoAliasBetween("ohms", 8, 13) && NoAliasBetween("ohms", 13, 18)
  {
    OhmsFirstChunk();
    OhmsLastChunk();
  }

  lemma OhmsFirstChunk()
    ensures NoAliasBetween("ohms", 3, 8)
  {
  }

  lemma OhmsLastChunk()
    ensures NoAliasBetween("ohms", 13, 18)
  {
  }

  lemma LitersChunks()
    ensures NoAliasBetween("Liters", 14, |BetterUnit|)
  {
    assert NoAliasBetween("Liters", 14, 16);
    assert NoAliasBetween("Liters", 16, 18);
    NoAliasBetweenJoin("Liters", 14, 16, 18);
  }

  lemma LitersReplace()
    ensures Contains("Liters", "L")
    ensures ReplaceAll("Liters", "L", "l") == "liters"
  {
    assert "Liters"[..1] == "L";
    assert "Liters"[1..] == "iters";
    NotContainsChar("iters", "L", 'L');
    assert ReplaceAll("Liters", "L", "l") == "l" + ReplaceAll("iters", "L", "l");
  }

  lemma CleanLiters()
    ensures CleanAtomSpec("Liters") == "liters"
  {
    CleanGuardAlwaysTrue("Liters");
    LitersChunks();
    NoAliasBetweenSkips("Liters", 14, |BetterUnit|);
    LitersReplace();
    assert BetterUnit[13] == ("L", "l");
    assert CleanWith("Liters", 14) == "liters";
  }

  lemma LitersLowerChunks()
    ensures NoAliasBetween("liters", 13, |BetterUnit|)
  {
    assert NoAliasBetween("liters", 13, 16);
    assert NoAliasBetween("liters", 16, 18);
    NoAliasBetweenJoin("liters", 13, 16, 18);
  }

  lemma LitersLowerReplace()
    ensures Contains("liters", "liters")
    ensures ReplaceAll("liters", "liters", "l") == "l"
  {
    assert ReplaceAll("liters", "liters", "l") == "l" + ReplaceAll("", "liters", "l");
  }

  lemma CleanLitersLower()
    ensures CleanAtomSpec("liters") == "l"
  {
    CleanGuardAlwaysTrue("liters");
    LitersLowerChunks();
    NoAliasBetweenSkips("liters", 13, |BetterUnit|);
    LitersLowerReplace();
    assert BetterUnit[12] == ("liters", "l");
  }

  /** Cleaning is not idempotent: `"Liters"` matches `"Liter"` and then `"L"`, the later
      one wins and leaves `"liters"`, which a second cleaning turns into `"l"`. */
  lemma CleanNotIdempotent()
    ensures CleanAtomSpec("Liters") == "liters"
    ensures CleanAtomSpec(CleanAtomSpec("Liters")) == "l"
  {
    CleanLiters();
    CleanLitersLower();
  }


  // ---------------------------------------------------------------- convert_to_kelvins

  /** `convert_to_kelvins(x, u)`. */
  function ConvertToKelvins(x: real, u: string): (r: real)
    ensures !IsTemperature(u) ==> r == x
    ensures (IsCelsius(u) && x == 0.0) || (IsFahrenheit(u) && x == 32.0) ==> r == 273.15
    ensures (IsCelsius(u) && x == 100.0) || (IsFahrenheit(u) && x == 212.0) ==> r == 373.15
  {
    if IsCelsius(u) then x + 273.15
    else if IsFahrenheit(u) then (5.0 / 9.0) * (x - 32.0) + 273.15
    else x
  }

  /** A Celsius degree is a kelvin and a Fahrenheit degree five ninths of one, so the
      conversion keeps the order of temperatures; any other atom is left as it is. */
  lemma KelvinsProperties(x: real, y: real, u: string)
    ensures IsCelsius(u) ==> ConvertToKelvins(x, u) - ConvertToKelvins(y, u) == x - y
    ensures IsFahrenheit(u) ==> ConvertToKelvins(x, u) - ConvertToKelvins(y, u) == (5.0 / 9.0) * (x - y)
    ensures !IsTemperature(u) ==> ConvertToKelvins(x, u) == x
    ensures x < y ==> ConvertToKelvins(x, u) < ConvertToKelvins(y, u)
  {
  }

  // ---------------------------------------------------------------- replace_prefix

  /** Prefix entry `j` applies to atom `u`: `u` starts with its character, except that
      `"mol"` is not read as `m` + `ol` when `skipMol` holds. */
  predicate PrefixApplies(u: string, j: nat, skipMol: bool)
    requires j < |Prefixes|
  {
    |u| > 0 && u[0] == Prefixes[j].0 && !(skipMol && Prefixes[j].0 == 'm' && u == "mol")
  }

  /** The first entry from `j` on that applies, or `|Prefixes|`. */
  function PrefixIndexFrom(u: string, skipMol: bool, j: nat): (k: nat)
    requires j <= |Prefixes|
    ensures j <= k <= |Prefixes|
    ensures k < |Prefixes| ==> PrefixApplies(u, k, skipMol)
    ensures forall i :: j <= i < k ==> !PrefixApplies(u, i, skipMol)
    decreases |Prefixes| - j
  {
    if j == |Prefixes| then j
    else if PrefixApplies(u, j, skipMol) then j
    else PrefixIndexFrom(u, skipMol, j + 1)
  }

  function PrefixIndex(u: string, skipMol: bool): (k: nat)
    ensures k <= |Prefixes|
  {
    PrefixIndexFrom(u, skipMol, 0)
  }

  /** The state `replace_prefix` carries from atom to atom. */
  datatype Carry = Carry(unit: string, value: real, factor: real)

  /** An atom of two or more characters after the prefix scan stopped at `k`: when an entry
      applies, every occurrence of its character goes and the value is multiplied by its
      factor; otherwise the value is multiplied by `factor`. */
  function Unprefixed(u: string, k: nat, value: real, factor: real): Carry
    requires k <= |Prefixes|
  {
    if k < |Prefixes| then Carry(ReplaceAll(u, [Prefixes[k].0], ""), value * Prefixes[k].1, Prefixes[k].1)
    else Carry(u, value * factor, factor)
  }

  /** A temperature atom becomes `K` with its value converted; any other is left alone. */
  function InKelvins(c: Carry): Carry
  {
    if IsTemperature(c.unit) then Carry("K", ConvertToKelvins(c.value, c.unit), c.factor) else c
  }

  /** One atom of `replace_prefix`: canonical atoms are skipped; an atom of two or more
      characters loses every occurrence of the first applicable prefix character and the
      term value is multiplied by the factor, which is the new prefix's or, when none
      applies, the one carried from an earlier atom; temperature atoms become `K`. */
  function PrefixAtom(u: string, value: real, factor: real): Carry
  {
    if IsCanonical(u) then Carry(u, value, factor)
    else InKelvins(if |u| > 1 then Unprefixed(u, PrefixIndex(u, true), value, factor) else Carry(u, value, factor))
  }

  /** The result of walking the atoms of a term. */
  datatype Walked = Walked(units: seq<string>, value: real, factor: real)

  /** `replace_prefix`'s loop over the atoms of one term from position `i`. */
  function PrefixWalk(units: seq<string>, i: nat, value: real, factor: real): (r: Walked)
    requires i <= |units|
    ensures |r.units| == |units|
    ensures forall k :: 0 <= k < i ==> r.units[k] == units[k]
    decreases |units| - i
  {
    if i == |units| then Walked(units, value, factor)
    else
      var c := PrefixAtom(units[i], value, factor);
      PrefixWalk(units[i := c.unit], i + 1, c.value, c.factor)
  }

  /** `replace_prefix` on one term, given the factor carried in: `float(value[0])` is
      always evaluated; a term without atoms is kept as it was. */
  function PrefixTerm(t: RawTerm, factor: real): (r: Result<(RawTerm, real)>)
    ensures r.Ok? <==> ScalarValue(t.scalar).Some?
    ensures r.Err? ==> r.error == ValueError
    ensures t.units == [] && r.Ok? ==> r.value == (t, factor)
    ensures t.units != [] && r.Ok? ==>
      && r.value.0.scalar.Num? && |r.value.0.units| == |t.units|
      && r.value.0.extra == [] && r.value.0.last == t.Slot2()
  {
    match ScalarValue(t.scalar)
    case None => Err(ValueError)
    case Some(v) =>
      if t.units == [] then Ok((t, factor))
      else
        var w := PrefixWalk(t.units, 0, v, factor);
        Ok((RawTerm(Num(w.value), w.units, [], t.Slot2()), w.factor))
  }

  /** `replace_prefix(d)`: the numerator, then the denominator with the factor carried on. */
  function ReplacePrefixSpec(d: RawDict): (r: Result<RawDict>)
    ensures r.Ok? <==> ScalarValue(d.num.scalar).Some? && ScalarValue(d.denom.scalar).Some?
    ensures r.Err? ==> r.error == ValueError
    ensures r.Ok? ==> |r.value.num.units| == |d.num.units| && |r.value.denom.units| == |d.denom.units|
    ensures r.Ok? ==> r.value.num.Slot2() == d.num.Slot2() && r.value.denom.Slot2() == d.denom.Slot2()
    ensures r.Ok? && d.num.units != [] ==> r.value.num.scalar.Num?
    ensures r.Ok? && d.denom.units != [] ==> r.value.denom.scalar.Num?
  {
    match PrefixTerm(d.num, 1.0)
    case Err(e) => Err(e)
    case Ok((num, f)) =>
      match PrefixTerm(d.denom, f)
      case Err(e) => Err(e)
      case Ok((denom, _)) => Ok(RawDict(num, denom))
  }

  /** The prefix loop of `replace_prefix`: the first entry that applies, scanning the table. */
  method FindPrefixEntry(u: string) returns (k: nat)
    ensures k == PrefixIndex(u, true)
  {
    k := 0;
    while k < |Prefixes|
      invariant k <= |Prefixes|
      invariant PrefixIndexFrom(u, true, k) == PrefixIndex(u, true)
    {
      if PrefixApplies(u, k, true) {
        return;
      }
      k := k + 1;
    }
  }

  /** The body of `replace_prefix`'s atom loop. */
  method PrefixStep(u: string, v: real, f: real) returns (c: Carry)
    ensures c == PrefixAtom(u, v, f)
  {
    c := Carry(u, v, f);
    if IsCanonical(u) {
      return;
    }
    if |u| > 1 {
      var k := FindPrefixEntry(u);
      var f1 := f;
      var u1 := u;
      if k < |Prefixes| {
        u1 := ReplaceAll(u, [Prefixes[k].0], "");
        f1 := Prefixes[k].1;
      }
      c := Carry(u1, v * f1, f1);
    }
    if IsTemperature(c.unit) {
      c := Carry("K", ConvertToKelvins(c.value, c.unit), c.factor);
    }
  }

  /** `replace_prefix`'s loop over the atoms of one term, rewriting each in place. */
  method PrefixUnits(units: seq<string>, value: real, factor: real) returns (r: Walked)
    ensures r == PrefixWalk(units, 0, value, factor)
  {
    var us := units;
    var v := value;
    var f := factor;
    var i := 0;
    while i < |us|
      invariant i <= |us|
      invariant PrefixWalk(us, i, v, f) == PrefixWalk(units, 0, value, factor)
    {
      var c := PrefixStep(us[i], v, f);
      us, v, f := us[i := c.unit], c.value, c.factor;
      i := i + 1;
    }
    r := Walked(us, v, f);
  }

  /** `replace_prefix` on one term. */
  method PrefixTermOf(t: RawTerm, factor: real) returns (r: Result<(RawTerm, real)>)
    ensures r == PrefixTerm(t, factor)
  {
    var sv := ScalarValue(t.scalar);
    if sv.None? {
      return Err(ValueError);
    }
    if t.units == [] {
      return Ok((t, factor));
    }
    var w := PrefixUnits(t.units, sv.value, factor);
    return Ok((RawTerm(Num(w.value), w.units, [], t.Slot2()), w.factor));
  }

  /** `replace_prefix`: the numerator first, then the denominator with the factor the
      numerator left behind. */
  method ReplacePrefix(d: RawDict) returns (r: Result<RawDict>)
    ensures r == ReplacePrefixSpec(d)
  {
    var n := PrefixTermOf(d.num, 1.0);
    if n.Err? {
      return Err(n.error);
    }
    var m := PrefixTermOf(d.denom, n.value.1);
    if m.Err? {
      return Err(m.error);
    }
    return Ok(RawDict(n.value.0, m.value.0));
  }

  /** Canonical atoms are untouched and carry nothing; `"mol"` keeps its `m`. */
  lemma CanonicalPrefixFixed(u: string, value: real, factor: real)
    ensures IsCanonical(u) ==> PrefixAtom(u, value, factor) == Carry(u, value, factor)
    ensures PrefixAtom("mol", value, factor) == Carry("mol", value, factor)
  {
  }

  /** The atom part of the walk is position by position: each atom is rewritten on its own,
      whatever value and factor are carried. */
  lemma {:induction false} PrefixWalkUnits(units: seq<string>, i: nat, value: real, factor: real)
    requires i <= |units|
    ensures forall k :: i <= k < |units| ==>
      PrefixWalk(units, i, value, factor).units[k] == PrefixAtom(units[k], 0.0, 1.0).unit
    decreases |units| - i
  {
    if i < |units| {
      var c := PrefixAtom(units[i], value, factor);
      assert c.unit == PrefixAtom(units[i], 0.0, 1.0).unit;
      PrefixWalkUnits(units[i := c.unit], i + 1, c.value, c.factor);
    }
  }

  /** A term with atoms keeps its number of atoms and reads its power from `value[2]`. */
  lemma PrefixTermShape(t: RawTerm, factor: real)
    requires PrefixTerm(t, factor).Ok? && t.units != []
    ensures var r := PrefixTerm(t, factor).value.0;
      |r.units| == |t.units| && r.last == t.Slot2() && r.extra == [] && r.scalar.Num?
  {
  }

  /** An atom that starts with a prefix character loses it and scales the value by its
      factor: `"mV"` at 10 gives `"V"` at 0.01 with factor 0.001. */
  lemma PrefixStrip()
    ensures PrefixAtom("mV", 10.0, 1.0) == Carry("V", 0.01, 0.001)
  {
    MilliVolt();
  }

  /** Every occurrence of the prefix character goes, not only the leading one: `"mmol"`
      becomes `"ol"` with a single factor 0.001. */
  lemma PrefixRemovesEveryOccurrence()
    ensures PrefixAtom("mmol", 1.0, 1.0) == Carry("ol", 0.001, 0.001)
  {
    assert PrefixApplies("mmol", 0, true);
    assert PrefixIndex("mmol", true) == 0;
    assert !IsCanonical("mmol");
    assert "mmol"[..1] == "m" && "mmol"[1..] == "mol";
    assert "mol"[..1] == "m" && "mol"[1..] == "ol";
    NotContainsChar("ol", "m", 'm');
    assert ReplaceAll("ol", "m", "") == "ol";
    assert ReplaceAll("mol", "m", "") == "" + ReplaceAll("ol", "m", "");
    assert ReplaceAll("mmol", "m", "") == "" + ReplaceAll("mol", "m", "");
    assert Prefixes[0] == ('m', 0.001);
    assert [Prefixes[0].0] == "m";
    assert !IsTemperature("ol");
    assert |"mmol"| > 1;
  }

  /** The carried factor: in `["mV", "xy"]` the second atom has no prefix but the value is
      multiplied by the milli factor again. */
  lemma PrefixCarry()
    ensures PrefixWalk(["mV", "xy"], 0, 1.0, 1.0) == Walked(["V", "xy"], 0.000001, 0.001)
  {
    PrefixStripAt1();
    NoPrefixXy();
    assert ["mV", "xy"][0 := "V"] == ["V", "xy"];
    assert ["V", "xy"][1 := "xy"] == ["V", "xy"];
  }

  lemma NoPrefixXy()
    ensures PrefixAtom("xy", 0.001, 0.001) == Carry("xy", 0.000001, 0.001)
  {
    assert PrefixIndex("xy", true) == |Prefixes|;
  }

  lemma MilliVolt()
    ensures !IsCanonical("mV") && PrefixIndex("mV", true) == 0 && Prefixes[0] == ('m', 0.001)
    ensures ReplaceAll("mV", ['m'], "") == "V" && !IsTemperature("V")
  {
    assert PrefixApplies("mV", 0, true);
    assert ReplaceAll("mV", "m", "") == "" + ReplaceAll("V", "m", "");
    NotContainsChar("V", "m", 'm');
  }

  lemma PrefixStripAt1()
    ensures PrefixAtom("mV", 1.0, 1.0) == Carry("V", 0.001, 0.001)
  {
    MilliVolt();
  }

  /** Temperatures: 23 oC is 296.15 K and 32 oF is 273.15 K. */
  lemma Temperatures()
    ensures PrefixAtom("oC", 23.0, 1.0) == Carry("K", 296.15, 1.0)
    ensures PrefixAtom("oF", 32.0, 1.0) == Carry("K", 273.15, 1.0)
  {
    assert PrefixIndex("oC", true) == |Prefixes|;
    assert PrefixIndex("oF", true) == |Prefixes|;
  }

  // ---------------------------------------------------------------- remove_prefix

  /** `remove_prefix(scalar, u)`: like one atom of `replace_prefix`, but canonical atoms and
      atoms shorter than two characters are returned at once, and nothing is carried. */
  function RemovePrefix(scalar: Scalar, u: string): (r: Result<(real, string)>)
    ensures r.Ok? <==> ScalarValue(scalar).Some?
    ensures r.Err? ==> r.error == ValueError
    ensures (IsCanonical(u) || |u| < 2) && r.Ok? ==> r.value == (ScalarValue(scalar).value, u)
  {
    match ScalarValue(scalar)
    case None => Err(ValueError)
    case Some(v) =>
      if IsCanonical(u) || |u| < 2 then Ok((v, u))
      else
        var c := InKelvins(Unprefixed(u, PrefixIndex(u, false), v, 1.0));
        Ok((c.value, c.unit))
  }

  /** The `"mol"` exception only matters for `"mol"`. */
  lemma {:induction false} SkipMolOnlyForMol(u: string, j: nat)
    requires u != "mol" && j <= |Prefixes|
    ensures PrefixIndexFrom(u, true, j) == PrefixIndexFrom(u, false, j)
    decreases |Prefixes| - j
  {
    if j < |Prefixes| {
      SkipMolOnlyForMol(u, j + 1);
    }
  }

  /** On an atom of two or more characters `remove_prefix` agrees with one step of
      `replace_prefix` started with factor 1. */
  lemma RemovePrefixAgrees(v: real, u: string)
    requires |u| >= 2
    ensures RemovePrefix(Num(v), u) == Ok((PrefixAtom(u, v, 1.0).value, PrefixAtom(u, v, 1.0).unit))
  {
    if u != "mol" {
      SkipMolOnlyForMol(u, 0);
    }
  }

  /** On the one-character `"C"` they differ: only `replace_prefix` converts it. */
  lemma RemovePrefixKeepsCelsius(v: real)
    ensures RemovePrefix(Num(v), "C") == Ok((v, "C"))
    ensures PrefixAtom("C", v, 1.0) == Carry("K", v + 273.15, 1.0)
  {
  }

  // ---------------------------------------------------------------- normalize_denom

  /** `normalize_denom(d)`: the denominator scalar is divided into the numerator scalar
      and set to 1.0. */
  function NormalizeDenom(d: UnitDict): (r: Result<UnitDict>)
    ensures r.Err? <==> d.denom.scalar == 0.0
    ensures r.Err? ==> r.error == ZeroDivisionError
    ensures r.Ok? ==>
      && r.value.denom.scalar == 1.0
      && r.value.num.scalar * d.denom.scalar == d.num.scalar
      && r.value.num.units == d.num.units && r.value.denom.units == d.denom.units
      && r.value.num.power == d.num.power && r.value.denom.power == d.denom.power
  {
    if d.denom.scalar == 0.0 then Err(ZeroDivisionError)
    else Ok(UnitDict(d.num.(scalar := d.num.scalar / d.denom.scalar), d.denom.(scalar := 1.0)))
  }

  /** Normalising twice is normalising once. */
  lemma NormalizeIdempotent(d: UnitDict)
    requires NormalizeDenom(d).Ok?
    ensures NormalizeDenom(NormalizeDenom(d).value) == NormalizeDenom(d)
  {
  }

  /** `normalize_denom` on a parsed dictionary: a scalar still held as text cannot be
      divided; only `value[0..2]` of each list survives. */
  function NormalizeRaw(d: RawDict): (r: Result<UnitDict>)
    ensures r.Ok? <==> d.num.scalar.Num? && d.denom.scalar.Num? && d.denom.scalar.x != 0.0
    ensures r.Err? ==> r.error == if d.num.scalar.Text? || d.denom.scalar.Text? then TypeError else ZeroDivisionError
    ensures r.Ok? ==>
      && r.value.denom.scalar == 1.0 && r.value.num.scalar * d.denom.scalar.x == d.num.scalar.x
      && r.value.num.units == d.num.units && r.value.denom.units == d.denom.units
      && r.value.num.power == d.num.Slot2() && r.value.denom.power == d.denom.Slot2()
  {
    match (d.num.scalar, d.denom.scalar)
    case (Text(_), _) => Err(TypeError)
    case (_, Text(_)) => Err(TypeError)
    case (Num(n), Num(m)) =>
      NormalizeDenom(UnitDict(Term(n, d.num.units, d.num.Slot2()), Term(m, d.denom.units, d.denom.Slot2())))
  }
}
