/** How a quantity is shown: the prefix its scalar gets (`find_prefix`, `add_prefix`),
    repeated atoms written as powers (`combine_repeat_unit_as_power`), unit lists joined
    back into text (`prefixed_list_to_string`, `SI`) and the prefixed view (`prefixed`). */
module Presentation {
  import opened Outcomes
  import opened Text
  import opened Tables
  import opened Terms
  import opened Parser
  import opened Normalizer
  import opened Arithmetic

  // ---------------------------------------------------------------- find_prefix

  /** Entry `j` of the prefix table is tried: `c` only when centi is allowed. */
  predicate Tried(j: nat, centi: bool)
    requires j < |Prefixes|
  {
    Prefixes[j].0 != 'c' || centi
  }

  /** Entry `j` brings `s` into the display range [0.9, 999). */
  predicate Fits(s: real, j: nat)
    requires j < |Prefixes|
  {
    FactorsPositive();
    0.9 <= s / Prefixes[j].1 < 999.0
  }

  /** The first entry from `j` on that is tried and fits, or `|Prefixes|`. */
  function FitIndexFrom(s: real, centi: bool, j: nat): (k: nat)
    requires j <= |Prefixes|
    ensures j <= k <= |Prefixes|
    ensures k < |Prefixes| ==> Tried(k, centi) && Fits(s, k)
    ensures forall i :: j <= i < k ==> !(Tried(i, centi) && Fits(s, i))
    decreases |Prefixes| - j
  {
    if j == |Prefixes| then j
    else if Tried(j, centi) && Fits(s, j) then j
    else FitIndexFrom(s, centi, j + 1)
  }

  /** `find_prefix(s, centi)`: the scalar divided by the first factor, in table order, that
      brings it into [0.9, 999), with that prefix; the scalar itself and no prefix when
      none does. */
  function FindPrefixSpec(s: real, centi: bool): (r: (real, string))
    ensures |r.1| <= 1
    ensures r.1 == "" ==> r.0 == s
  {
    FactorsPositive();
    var k := FitIndexFrom(s, centi, 0);
    if k == |Prefixes| then (s, "") else (s / Prefixes[k].1, [Prefixes[k].0])
  }

  lemma DivTimes(s: real, f: real)
    requires f != 0.0
    ensures (s / f) * f == s
  {
  }

  /** No prefix is chosen exactly when no tried entry brings the scalar into range. */
  lemma FindPrefixNone(s: real, centi: bool)
    ensures FindPrefixSpec(s, centi).1 == "" <==> forall j :: 0 <= j < |Prefixes| && Tried(j, centi) ==> !Fits(s, j)
  {
    var k := FitIndexFrom(s, centi, 0);
    if k < |Prefixes| {
      assert Tried(k, centi) && Fits(s, k);
    }
  }

  /** A chosen prefix puts the value in display range, and the value times the prefix's
      factor is the scalar. */
  lemma FindPrefixChosen(s: real, centi: bool)
    requires FindPrefixSpec(s, centi).1 != ""
    ensures 0.9 <= FindPrefixSpec(s, centi).0 < 999.0
    ensures exists j :: (0 <= j < |Prefixes| &&
      FindPrefixSpec(s, centi).1 == [Prefixes[j].0] && FindPrefixSpec(s, centi).0 * Prefixes[j].1 == s)
  {
    var r := FindPrefixSpec(s, centi);
    var k := ChosenEntry(s, centi);
    ChosenWitness(r, s, Prefixes[k].1, k);
  }

  lemma ChosenWitness(r: (real, string), s: real, f: real, k: nat)
    requires k < |Prefixes| && f == Prefixes[k].1 && f > 0.0 && r == (s / f, [Prefixes[k].0])
    requires 0.9 <= s / f < 999.0
    ensures 0.9 <= r.0 < 999.0
    ensures exists j :: 0 <= j < |Prefixes| && r.1 == [Prefixes[j].0] && r.0 * Prefixes[j].1 == s
  {
    DivTimes(s, f);
  }

  /** The table entry behind a chosen prefix. */
  lemma ChosenEntry(s: real, centi: bool) returns (k: nat)
    requires FindPrefixSpec(s, centi).1 != ""
    ensures k < |Prefixes| && Prefixes[k].1 > 0.0 && Fits(s, k)
    ensures FindPrefixSpec(s, centi) == (s / Prefixes[k].1, [Prefixes[k].0])
  {
    FactorsPositive();
    k := FitIndexFrom(s, centi, 0);
  }

  /** `find_prefix`'s loop over the table, leaving at the first fit. */
  method FindPrefix(s: real, centi: bool) returns (v: real, p: string)
    ensures (v, p) == FindPrefixSpec(s, centi)
  {
    FactorsPositive();
    v, p := s, "";
    var j := 0;
    while j < |Prefixes|
      invariant j <= |Prefixes|
      invariant FitIndexFrom(s, centi, j) == FitIndexFrom(s, centi, 0)
    {
      var (prefix, factor) := Prefixes[j];
      if prefix != 'c' || centi {
        var scaled := s / factor;
        if 0.9 <= scaled < 999.0 {
          return scaled, [prefix];
        }
      }
      j := j + 1;
    }
  }

  /** Ties go to the earlier entry: `u` shadows `μ` and `K` shadows `k`, so neither `μ` nor
      `k` is ever chosen. */
  lemma NeverMicroOrSmallKilo(s: real, centi: bool)
    ensures FindPrefixSpec(s, centi).1 != [MICRO]
    ensures FindPrefixSpec(s, centi).1 != "k"
  {
    var k := FitIndexFrom(s, centi, 0);
    if k == 8 {
      assert false;
    }
    if k == 10 {
      assert false;
    }
  }

  /** `1500` is shown as `1.5` kilo, with the upper-case `K` of the table. */
  lemma FifteenHundred()
    ensures FindPrefixSpec(1500.0, false) == (1.5, "K")
  {
    FactorsPositive();
    assert !Fits(1500.0, 0) && !Fits(1500.0, 1) && !Fits(1500.0, 2);
    assert !Fits(1500.0, 3) && !Fits(1500.0, 4) && Fits(1500.0, 5);
    assert FitIndexFrom(1500.0, false, 0) == 5;
  }

  /** `1` is shown as `100` centi when centi is allowed and with no prefix otherwise. */
  lemma OneWithAndWithoutCenti()
    ensures FindPrefixSpec(1.0, true) == (100.0, "c")
    ensures FindPrefixSpec(1.0, false) == (1.0, "")
  {
    FactorsPositive();
    assert !Fits(1.0, 0) && !Fits(1.0, 1) && !Fits(1.0, 2) && !Fits(1.0, 3);
    assert !Fits(1.0, 4) && !Fits(1.0, 5) && !Fits(1.0, 6) && !Fits(1.0, 7);
    assert !Fits(1.0, 8) && Fits(1.0, 9) && !Fits(1.0, 10) && !Fits(1.0, 11);
    assert FitIndexFrom(1.0, true, 0) == 9;
    assert FitIndexFrom(1.0, false, 9) == 12;
    assert FitIndexFrom(1.0, false, 0) == 12;
  }

  // ---------------------------------------------------------------- add_prefix

  /** `add_prefix(s, unit)`: the flag it computes is never used; the unit string itself is
      passed as `use_centi`, so any non-empty unit allows centi. */
  function AddPrefix(s: real, unitStr: string): (r: (real, string))
    ensures |r.1| >= |unitStr| && r.1[|r.1| - |unitStr|..] == unitStr
    ensures r.0 == FindPrefixSpec(s, unitStr != "").0
    ensures r.1 == FindPrefixSpec(s, unitStr != "").1 + unitStr
  {
    var (v, p) := FindPrefixSpec(s, unitStr != "");
    (v, p + unitStr)
  }

  /** Centi is offered to any unit: `1.5 sec` comes back as `150 csec`. */
  lemma AddPrefixCentiOnAnyUnit()
    ensures AddPrefix(1.5, "sec") == (150.0, "csec")
  {
    FactorsPositive();
    assert !Fits(1.5, 0) && !Fits(1.5, 1) && !Fits(1.5, 2) && !Fits(1.5, 3);
    assert !Fits(1.5, 4) && !Fits(1.5, 5) && !Fits(1.5, 6) && !Fits(1.5, 7);
    assert !Fits(1.5, 8) && Fits(1.5, 9);
    assert FitIndexFrom(1.5, true, 0) == 9;
    assert FindPrefixSpec(1.5, true) == (1.5 / 0.01, "c");
    assert 1.5 / 0.01 == 150.0;
    assert "c" + "sec" == "csec";
  }

  /** The units `add_prefix` means to allow centi for: the bare metre, or a unit with a
      metre atom followed by another. */
  predicate MetreUnit(unitStr: string)
  {
    unitStr == "m" || Contains(unitStr, "m.")
  }

  /** `add_prefix` as its documentation intends, with the flag it computes passed on. */
  function AddPrefixIntended(s: real, unitStr: string): (r: (real, string))
    ensures |r.1| >= |unitStr| && r.1[|r.1| - |unitStr|..] == unitStr
    ensures r.0 == FindPrefixSpec(s, MetreUnit(unitStr)).0
    ensures r.1 == FindPrefixSpec(s, MetreUnit(unitStr)).1 + unitStr
  {
    var (v, p) := FindPrefixSpec(s, MetreUnit(unitStr));
    (v, p + unitStr)
  }

  /** Without the flag `find_prefix` never picks centi. */
  lemma NoCentiUnlessAllowed(s: real)
    ensures FindPrefixSpec(s, false).1 != "c"
  {
    var k := FitIndexFrom(s, false, 0);
    if k < |Prefixes| {
      assert Tried(k, false);
      assert FindPrefixSpec(s, false).1 == [Prefixes[k].0];
    }
  }

  /** With the flag passed on, centi is used for length units only. */
  lemma IntendedCentiOnlyForLength(s: real, unitStr: string)
    ensures AddPrefixIntended(s, unitStr).1 == "c" + unitStr ==> MetreUnit(unitStr)
  {
    if !MetreUnit(unitStr) {
      NoCentiUnlessAllowed(s);
    }
  }

  // ---------------------------------------------------------------- combine_repeat_unit_as_power

  /** The loop of `combine_repeat_unit_as_power` from position `i` of the original list,
      with `temp` the working copy: an atom counted more than once in `temp` is removed
      everywhere and its power form `atom + str(count)` appended at the end. */
  function CombineFrom(orig: seq<string>, i: nat, temp: seq<string>): (r: seq<string>)
    requires i <= |orig|
    ensures |r| <= |temp|
    decreases |orig| - i
  {
    if i == |orig| then temp
    else
      var u := orig[i];
      var cnt := multiset(temp)[u];
      if cnt > 1 then
        RemoveAllLength(temp, u);
        CombineFrom(orig, i + 1, RemoveAll(temp, u) + [u + NatToString(cnt)])
      else CombineFrom(orig, i + 1, temp)
  }

  /** `combine_repeat_unit_as_power(l)`. */
  function Combine(l: seq<string>): (r: seq<string>)
    ensures |r| <= |l|
  {
    CombineFrom(l, 0, l)
  }

  /** The inner loop of `combine_repeat_unit_as_power`: `cnt` calls of `remove` take out
      every occurrence of `u`. */
  method RemoveCount(t: seq<string>, u: string, cnt: nat) returns (r: seq<string>)
    requires cnt == multiset(t)[u]
    ensures r == RemoveAll(t, u)
  {
    r := t;
    var j := 0;
    while j < cnt
      invariant j <= cnt
      invariant RemoveAll(r, u) == RemoveAll(t, u)
      invariant multiset(r)[u] == cnt - j
    {
      RemoveFirstMultiset(r, u);
      RemoveAllOfRemoveFirst(r, u);
      r := RemoveFirst(r, u);
      j := j + 1;
    }
    RemoveAllAbsent(r, u);
  }

  /** `combine_repeat_unit_as_power`: the loop over the original list, counting each atom
      in the working copy. */
  method CombineRepeats(l: seq<string>) returns (r: seq<string>)
    ensures r == Combine(l)
  {
    r := [];
    if l == [] {
      return;
    }
    r := l;
    var i := 0;
    while i < |l|
      invariant i <= |l|
      invariant CombineFrom(l, i, r) == Combine(l)
    {
      var u := l[i];
      var cnt := multiset(r)[u];
      if cnt > 1 {
        r := RemoveCount(r, u, cnt);
        r := r + [u + NatToString(cnt)];
      }
      i := i + 1;
    }
  }

  // The result of `combine_repeat_unit_as_power` described without its working copy.

  /** An atom whose last character is a decimal digit, as every power form is. */
  predicate EndsInDigit(u: string)
  {
    u != [] && IsDigit(u[|u| - 1])
  }

  predicate NoDigitEnds(l: seq<string>)
  {
    forall k :: 0 <= k < |l| ==> !EndsInDigit(l[k])
  }

  /** The atoms of `s` that occur exactly once in `l`, in order. */
  function OnceIn(s: seq<string>, l: seq<string>): (r: seq<string>)
    ensures |r| <= |s|
  {
    if s == [] then []
    else (if multiset(l)[s[0]] == 1 then [s[0]] else []) + OnceIn(s[1..], l)
  }

  /** The atoms of `l` that are not repeated, in their order. */
  function Singles(l: seq<string>): seq<string>
  {
    OnceIn(l, l)
  }

  /** For each atom of `l[..i]` repeated in `l`, at its first occurrence, the atom followed by
      its number of occurrences in `l`. */
  function PowerForms(l: seq<string>, i: nat): seq<string>
    requires i <= |l|
  {
    if i == 0 then []
    else
      var u := l[i - 1];
      PowerForms(l, i - 1)
        + (if multiset(l)[u] > 1 && u !in l[..i - 1] then [u + NatToString(multiset(l)[u])] else [])
  }

  lemma {:induction false} PowerFormsEndInDigit(l: seq<string>, i: nat)
    requires i <= |l|
    ensures forall k :: 0 <= k < |PowerForms(l, i)| ==> EndsInDigit(PowerForms(l, i)[k])
  {
    if i > 0 {
      PowerFormsEndInDigit(l, i - 1);
    }
  }

  /** The repeated atoms of `l` met in `l[..i]`: the ones the working copy no longer holds. */
  function Met(l: seq<string>, i: nat): set<string>
    requires i <= |l|
  {
    if i == 0 then {}
    else Met(l, i - 1) + (if multiset(l)[l[i - 1]] > 1 then {l[i - 1]} else {})
  }

  lemma {:induction false} MetMembers(l: seq<string>, i: nat, x: string)
    requires i <= |l|
    ensures x in Met(l, i) <==> multiset(l)[x] > 1 && x in l[..i]
  {
    if i > 0 {
      MetMembers(l, i - 1, x);
      assert l[..i] == l[..i - 1] + [l[i - 1]];
    }
  }

  /** The atoms of `s` not in `met`, in order. */
  function Kept(s: seq<string>, met: set<string>): (r: seq<string>)
  {
    if s == [] then []
    else (if s[0] in met then [] else [s[0]]) + Kept(s[1..], met)
  }

  lemma {:induction false} KeptCount(s: seq<string>, met: set<string>, x: string)
    ensures multiset(Kept(s, met))[x] == if x in met then 0 else multiset(s)[x]
  {
    if s != [] {
      KeptCount(s[1..], met, x);
      assert s == [s[0]] + s[1..];
    }
  }

  lemma {:induction false} KeptNothingMet(s: seq<string>)
    ensures Kept(s, {}) == s
  {
    if s != [] {
      KeptNothingMet(s[1..]);
      assert s == [s[0]] + s[1..];
    }
  }

  /** Meeting a repeated atom for the first time drops it everywhere. */
  lemma {:induction false} KeptDrop(s: seq<string>, met: set<string>, u: string)
    ensures Kept(s, met + {u}) == RemoveAll(Kept(s, met), u)
  {
    if s != [] {
      KeptDrop(s[1..], met, u);
      var h := if s[0] in met then [] else [s[0]];
      RemoveAllConcat(h, Kept(s[1..], met), u);
    }
  }

  /** Once every atom has been met, what is kept is the atoms that occur once. */
  lemma {:induction false} KeptAllMet(s: seq<string>, l: seq<string>)
    requires forall k :: 0 <= k < |s| ==> s[k] in l
    ensures Kept(s, Met(l, |l|)) == OnceIn(s, l)
  {
    assert l[..|l|] == l;
    if s != [] {
      assert s[0] in multiset(l);
      MetMembers(l, |l|, s[0]);
      KeptAllMet(s[1..], l);
    }
  }

  lemma {:induction false} RemoveAllConcat(a: seq<string>, b: seq<string>, x: string)
    ensures RemoveAll(a + b, x) == RemoveAll(a, x) + RemoveAll(b, x)
  {
    if a != [] {
      RemoveAllConcat(a[1..], b, x);
      assert (a + b)[1..] == a[1..] + b;
    } else {
      assert a + b == b;
    }
  }

  /** No power form equals an atom that does not end in a digit. */
  lemma NotAPowerForm(l: seq<string>, i: nat)
    requires i < |l| && NoDigitEnds(l)
    ensures multiset(PowerForms(l, i))[l[i]] == 0
  {
    var pf := PowerForms(l, i);
    PowerFormsEndInDigit(l, i);
    assert !EndsInDigit(l[i]);
    forall k | 0 <= k < |pf|
      ensures pf[k] != l[i]
    {
      assert EndsInDigit(pf[k]);
    }
    assert l[i] !in pf;
  }

  /** How often the working copy holds the atom met at step `i`. */
  lemma WorkingCount(l: seq<string>, i: nat, temp: seq<string>)
    requires i < |l| && NoDigitEnds(l)
    requires temp == Kept(l, Met(l, i)) + PowerForms(l, i)
    ensures multiset(l)[l[i]] > 1 && l[i] !in l[..i] ==> multiset(temp)[l[i]] == multiset(l)[l[i]]
    ensures !(multiset(l)[l[i]] > 1 && l[i] !in l[..i]) ==> multiset(temp)[l[i]] <= 1
  {
    NotAPowerForm(l, i);
    KeptCount(l, Met(l, i), l[i]);
    MetMembers(l, i, l[i]);
  }

  /** A repeated atom met for the first time leaves the working copy for its power form. */
  lemma CombineFirstMeeting(l: seq<string>, i: nat, temp: seq<string>)
    requires i < |l| && NoDigitEnds(l)
    requires temp == Kept(l, Met(l, i)) + PowerForms(l, i)
    requires multiset(l)[l[i]] > 1 && l[i] !in l[..i]
    ensures RemoveAll(temp, l[i]) + [l[i] + NatToString(multiset(l)[l[i]])]
      == Kept(l, Met(l, i + 1)) + PowerForms(l, i + 1)
  {
    var u := l[i];
    NotAPowerForm(l, i);
    KeptDrop(l, Met(l, i), u);
    MetGrows(l, i);
    PowerFormsGrow(l, i);
    DropThenAppend(Kept(l, Met(l, i)), Kept(l, Met(l, i + 1)), PowerForms(l, i), u, u + NatToString(multiset(l)[u]));
  }

  lemma MetGrows(l: seq<string>, i: nat)
    requires i < |l| && multiset(l)[l[i]] > 1
    ensures Met(l, i + 1) == Met(l, i) + {l[i]}
  {
  }

  lemma PowerFormsGrow(l: seq<string>, i: nat)
    requires i < |l| && multiset(l)[l[i]] > 1 && l[i] !in l[..i]
    ensures PowerForms(l, i + 1) == PowerForms(l, i) + [l[i] + NatToString(multiset(l)[l[i]])]
  {
  }

  lemma DropThenAppend(kept: seq<string>, kept': seq<string>, pf: seq<string>, u: string, power: string)
    requires RemoveAll(kept, u) == kept' && multiset(pf)[u] == 0
    ensures RemoveAll(kept + pf, u) + [power] == kept' + (pf + [power])
  {
    RemoveAllConcat(kept, pf, u);
    RemoveAllAbsent(pf, u);
  }

  /** Any other atom leaves the working copy as it is. */
  lemma CombineOtherMeeting(l: seq<string>, i: nat)
    requires i < |l|
    requires multiset(l)[l[i]] <= 1 || l[i] in l[..i]
    ensures Kept(l, Met(l, i + 1)) + PowerForms(l, i + 1) == Kept(l, Met(l, i)) + PowerForms(l, i)
  {
    MetSame(l, i);
    PowerFormsSame(l, i);
  }

  lemma MetSame(l: seq<string>, i: nat)
    requires i < |l|
    requires multiset(l)[l[i]] <= 1 || l[i] in l[..i]
    ensures Met(l, i + 1) == Met(l, i)
  {
    MetMembers(l, i, l[i]);
  }

  lemma PowerFormsSame(l: seq<string>, i: nat)
    requires i < |l|
    requires multiset(l)[l[i]] <= 1 || l[i] in l[..i]
    ensures PowerForms(l, i + 1) == PowerForms(l, i)
  {
  }

  lemma CombineFromCollapses(l: seq<string>, i: nat, temp: seq<string>)
    requires i < |l| && multiset(temp)[l[i]] > 1
    ensures CombineFrom(l, i, temp)
      == CombineFrom(l, i + 1, RemoveAll(temp, l[i]) + [l[i] + NatToString(multiset(temp)[l[i]])])
  {
  }

  lemma CombineFromPasses(l: seq<string>, i: nat, temp: seq<string>)
    requires i < |l| && multiset(temp)[l[i]] <= 1
    ensures CombineFrom(l, i, temp) == CombineFrom(l, i + 1, temp)
  {
  }

  /** The working copy after `i` steps, as described: the atoms not yet combined, then the
      power forms so far. */
  function Working(l: seq<string>, i: nat): seq<string>
    requires i <= |l|
  {
    Kept(l, Met(l, i)) + PowerForms(l, i)
  }

  /** One step of the loop, from one working copy of the described form to the next. */
  lemma CombineStep(l: seq<string>, i: nat)
    requires i < |l| && NoDigitEnds(l)
    ensures CombineFrom(l, i, Working(l, i)) == CombineFrom(l, i + 1, Working(l, i + 1))
  {
    var u := l[i];
    var temp := Working(l, i);
    WorkingCount(l, i, temp);
    if multiset(l)[u] > 1 && u !in l[..i] {
      CombineFirstMeeting(l, i, temp);
      CombineFromCollapses(l, i, temp);
    } else {
      CombineOtherMeeting(l, i);
      CombineFromPasses(l, i, temp);
    }
  }

  /** After the last step the working copy is the described result. */
  lemma CombineEnd(l: seq<string>)
    ensures CombineFrom(l, |l|, Working(l, |l|)) == Singles(l) + PowerForms(l, |l|)
  {
    KeptAllMet(l, l);
  }

  /** When no atom ends in a digit, `combine_repeat_unit_as_power` keeps the atoms that occur
      once, in order, and appends each repeated atom followed by its count, in the order the
      atoms first occur. */
  lemma CombineMeaning(l: seq<string>)
    ensures NoDigitEnds(l) ==> Combine(l) == Singles(l) + PowerForms(l, |l|)
  {
    if NoDigitEnds(l) {
      KeptNothingMet(l);
      assert Working(l, 0) == l;
      var i := 0;
      while i < |l|
        invariant i <= |l|
        invariant CombineFrom(l, 0, l) == CombineFrom(l, i, Working(l, i))
      {
        CombineStep(l, i);
        i := i + 1;
      }
      CombineEnd(l);
    }
  }

  predicate Distinct(l: seq<string>)
  {
    forall i, j :: 0 <= i < j < |l| ==> l[i] != l[j]
  }

  lemma {:induction false} DistinctCountOne(l: seq<string>, k: nat)
    requires k < |l| && Distinct(l)
    ensures multiset(l)[l[k]] == 1
  {
    if |l| > 0 {
      assert l == [l[0]] + l[1..];
      if k == 0 {
        assert l[0] !in l[1..];
      } else {
        DistinctCountOne(l[1..], k - 1);
        assert l[0] != l[k];
      }
    }
  }

  /** A list without repeated atoms is left as it is. */
  lemma {:induction false} CombineDistinct(l: seq<string>, i: nat)
    requires Distinct(l) && i <= |l|
    ensures CombineFrom(l, i, l) == l
    decreases |l| - i
  {
    if i < |l| {
      DistinctCountOne(l, i);
      assert CombineFrom(l, i, l) == CombineFrom(l, i + 1, l);
      CombineDistinct(l, i + 1);
    }
  }

  /** `["m", "m"]` is written `["m2"]`. */
  lemma CombineSquare()
    ensures Combine(["m", "m"]) == ["m2"]
  {
    var l: seq<string> := ["m", "m"];
    assert multiset(l)["m"] == 2;
    NatToStringOneDigit(2);
    assert RemoveAll(l, "m") == [];
    assert "m" + NatToString(2) == "m2";
    assert CombineFrom(l, 1, ["m2"]) == ["m2"];
  }

  /** The power form goes to the end, after the atoms that occur once. */
  lemma CombinePowerLast()
    ensures Combine(["F", "m", "m", "sec"]) == ["F", "sec", "m2"]
  {
    CombinePowerLastHead();
    CombinePowerLastTail();
  }

  lemma CombinePowerLastHead()
    ensures CombineFrom(["F", "m", "m", "sec"], 0, ["F", "m", "m", "sec"])
      == CombineFrom(["F", "m", "m", "sec"], 2, ["F", "sec", "m2"])
  {
    var l: seq<string> := ["F", "m", "m", "sec"];
    FaradMetresCounted();
    FaradMetresRemoved();
    NatToStringOneDigit(2);
    assert l[0] == "F" && l[1] == "m";
    assert "m" + NatToString(2) == "m2";
    assert ["F", "sec"] + ["m2"] == ["F", "sec", "m2"];
    PassThenCollapse(l, ["F", "sec", "m2"]);
  }

  /** One step that keeps its atom followed by one that collapses its atom. */
  lemma PassThenCollapse(l: seq<string>, t: seq<string>)
    requires |l| >= 2 && multiset(l)[l[0]] <= 1 && multiset(l)[l[1]] > 1
    requires t == RemoveAll(l, l[1]) + [l[1] + NatToString(multiset(l)[l[1]])]
    ensures CombineFrom(l, 0, l) == CombineFrom(l, 2, t)
  {
    CombineFromPasses(l, 0, l);
    CombineFromCollapses(l, 1, l);
  }

  lemma FaradMetresCounted()
    ensures multiset(["F", "m", "m", "sec"])["F"] == 1
    ensures multiset(["F", "m", "m", "sec"])["m"] == 2
  {
    var l: seq<string> := ["F", "m", "m", "sec"];
    assert l == ["F"] + ["m", "m"] + ["sec"];
  }

  lemma FaradMetresRemoved()
    ensures RemoveAll(["F", "m", "m", "sec"], "m") == ["F", "sec"]
  {
    var l: seq<string> := ["F", "m", "m", "sec"];
    assert l[1..][1..][1..] == ["sec"];
    assert RemoveAll(["sec"], "m") == ["sec"];
  }

  lemma CombinePowerLastTail()
    ensures CombineFrom(["F", "m", "m", "sec"], 2, ["F", "sec", "m2"]) == ["F", "sec", "m2"]
  {
    var l: seq<string> := ["F", "m", "m", "sec"];
    var t: seq<string> := ["F", "sec", "m2"];
    assert multiset(t)["m"] == 0 && multiset(t)["sec"] == 1;
    assert CombineFrom(l, 3, t) == t;
  }

  lemma CollideFirst()
    ensures CombineFrom(["m", "m", "m2"], 0, ["m", "m", "m2"]) == CombineFrom(["m", "m", "m2"], 1, ["m2", "m2"])
  {
    var l: seq<string> := ["m", "m", "m2"];
    assert l[0] == "m";
    assert l == ["m", "m"] + ["m2"];
    assert multiset(l)["m"] == 2;
    CombineFromCollapses(l, 0, l);
    NatToStringOneDigit(2);
    assert RemoveAll(l, "m") == ["m2"];
    assert "m" + NatToString(2) == "m2";
    assert ["m2"] + ["m2"] == ["m2", "m2"];
  }

  lemma CollideRest()
    ensures CombineFrom(["m", "m", "m2"], 1, ["m2", "m2"]) == ["m22"]
  {
    var l: seq<string> := ["m", "m", "m2"];
    var t: seq<string> := ["m2", "m2"];
    assert multiset(t)["m"] == 0;
    assert CombineFrom(l, 1, t) == CombineFrom(l, 2, t);
    assert multiset(t)["m2"] == 2;
    NatToStringOneDigit(2);
    assert RemoveAll(t, "m2") == [];
    assert "m2" + NatToString(2) == "m22";
    assert CombineFrom(l, 2, t) == CombineFrom(l, 3, ["m22"]);
  }

  /** A power form can collide with an atom already written with a digit: `m.m.m2` becomes
      the single atom `m22`. */
  lemma CombineCollides()
    ensures Combine(["m", "m", "m2"]) == ["m22"]
  {
    CollideFirst();
    CollideRest();
  }

  // ---------------------------------------------------------------- prefixed_list_to_string and SI

  /** `prefixed_list_to_string(p, l)`: the prefix, then the combined atoms joined by dots. */
  function PrefixedListToString(p: string, l: seq<string>): (r: string)
    ensures |r| >= |p| && r[..|p|] == p
    ensures NoDigitEnds(l) ==> r == p + Join(Singles(l) + PowerForms(l, |l|), '.')
  {
    CombineMeaning(l);
    p + Join(Combine(l), '.')
  }

  /** Atoms that `parse_unit_string` reads back as they are. */
  predicate PlainAtom(u: string)
  {
    u != [] && !Expandable(u) && '.' !in u
  }

  /** Writing a list of distinct plain atoms and parsing it back gives the list: the
      writer is the reverse of `parse_unit_string`. */
  lemma WriteThenParse(l: seq<string>)
    requires l != [] && Distinct(l) && forall k :: 0 <= k < |l| ==> PlainAtom(l[k])
    ensures ParseUnitStringSpec(PrefixedListToString("", l)) == Ok(l)
  {
    CombineDistinct(l, 0);
    var s := Join(l, '.');
    assert PrefixedListToString("", l) == s;
    JoinEnds(l, '.');
    SplitJoin(l, '.');
    ParsePlain(s);
  }

  /** Squares round-trip too: `m.m` is written `m2` and read back as `m.m`. */
  lemma WriteThenParseSquare()
    ensures ParseUnitStringSpec(PrefixedListToString("", ["m", "m"])) == Ok(["m", "m"])
  {
    CombineSquare();
    SplitNoSep("m2", '.');
    var l: seq<string> := ["m2"];
    assert Expandable(l[0]) && Copies(l[0]) == 2 && Stem(l[0]) == "m";
    assert Expansion("m2") == ["m", "m"];
    assert l[..0] + l[1..] + Expansion(l[0]) == ["m", "m"];
    ExpandStep(l, 0);
    PlainStep(["m", "m"], 1);
  }

  /** `SI`: the numerator scalar and the atoms joined by dots, with `"/ "` and the
      denominator's atoms when the denominator has atoms and power -1. */
  function SIOf(d: UnitDict): (r: (real, string))
    ensures r.0 == d.num.scalar
    ensures |r.1| >= |Join(d.num.units, '.')| && r.1[..|Join(d.num.units, '.')|] == Join(d.num.units, '.')
    ensures d.denom.units == [] ==> r.1 == Join(d.num.units, '.')
  {
    var out := Join(d.num.units, '.');
    if d.denom.power == P(-1) && d.denom.units != [] then (d.num.scalar, out + "/ " + Join(d.denom.units, '.'))
    else (d.num.scalar, out)
  }

  /** Atoms the `SI` text can be read back from. */
  predicate TextAtom(u: string)
  {
    && PlainAtom(u) && !IsDigit(u[0])
    && '/' !in u && forall k :: 0 <= k < |u| ==> !IsSpace(u[k])
  }

  lemma JoinedTextAtoms(l: seq<string>)
    requires l != [] && forall k :: 0 <= k < |l| ==> TextAtom(l[k])
    ensures var s := Join(l, '.');
      && s != [] && !IsDigit(s[0]) && !IsSpace(s[0]) && !IsSpace(s[|s| - 1])
      && '/' !in s && ' ' !in s
      && Split(s, '.') == l
  {
    JoinEnds(l, '.');
    JoinAvoids(l, '.', '/');
    JoinAvoids(l, '.', ' ');
    SplitJoin(l, '.');
  }

  /** A side written from text atoms parses back to those atoms. */
  lemma TextSide(l: seq<string>)
    requires l != [] && forall k :: 0 <= k < |l| ==> TextAtom(l[k])
    ensures var s := Join(l, '.');
      && s != [] && !IsDigit(s[0]) && !IsSpace(s[0]) && !IsSpace(s[|s| - 1])
      && '/' !in s && ' ' !in s
      && ParseUnitStringSpec(s) == Ok(l)
  {
    var s := Join(l, '.');
    JoinedTextAtoms(l);
    ParsePlain(s);
  }

  /** Two single-token sides around `"/ "` give a numerator and a denominator with scalar
      1.0 and the atoms of each side. */
  lemma SlashOfTwoSides(a: string, b: string, la: seq<string>, lb: seq<string>)
    requires a != [] && !IsDigit(a[0]) && !IsSpace(a[0]) && !IsSpace(a[|a| - 1])
    requires b != [] && !IsDigit(b[0]) && !IsSpace(b[0]) && !IsSpace(b[|b| - 1])
    requires '/' !in a && ' ' !in a && '/' !in b && ' ' !in b
    requires ParseUnitStringSpec(a) == Ok(la) && ParseUnitStringSpec(b) == Ok(lb)
    ensures IdScaledUnit(a + "/ " + b)
      == Ok(RawDict(RawTerm(Num(1.0), la, [], P(1)), RawTerm(Num(1.0), lb, [], P(-1))))
  {
    var s := a + "/ " + b;
    assert s == a + ['/'] + (" " + b);
    SplitAt(a, '/', " " + b);
    assert '/' !in " " + b;
    SplitNoSep(" " + b, '/');
    assert Split(s, '/') == [a, " " + b];
    StripLeadingSpace(b);
    StripUnpadded(a);
    SplitNoSep(a, ' ');
    SplitNoSep(b, ' ');
    SingleTokenSide(a, 1);
    SingleTokenSide(b, -1);
  }

  /** The `SI` text of a quantity with text atoms on both sides parses back to the same
      atoms with the usual powers. */
  lemma SIThenParse(d: UnitDict)
    requires d.denom.power == P(-1)
    requires d.num.units != [] && d.denom.units != []
    requires forall k :: 0 <= k < |d.num.units| ==> TextAtom(d.num.units[k])
    requires forall k :: 0 <= k < |d.denom.units| ==> TextAtom(d.denom.units[k])
    ensures IdScaledUnit(SIOf(d).1)
      == Ok(RawDict(RawTerm(Num(1.0), d.num.units, [], P(1)), RawTerm(Num(1.0), d.denom.units, [], P(-1))))
  {
    TextSide(d.num.units);
    TextSide(d.denom.units);
    SlashOfTwoSides(Join(d.num.units, '.'), Join(d.denom.units, '.'), d.num.units, d.denom.units);
  }

  // ---------------------------------------------------------------- prefixed

  /** The text `prefixed` shows for a normalised dictionary: centi only when a bare metre is
      among the numerator atoms; the prefix goes on the numerator, and the denominator is
      written after `/` when it has any atom. */
  function Display(d: UnitDict): (r: (real, string))
    ensures r.0 == FindPrefixSpec(d.num.scalar, "m" in d.num.units).0
    ensures d.denom.units == [] ==> r.1 == PrefixedListToString(FindPrefixSpec(d.num.scalar, "m" in d.num.units).1, d.num.units)
    ensures d.denom.units != [] && "" !in d.denom.units ==>
      r.1 == PrefixedListToString(FindPrefixSpec(d.num.scalar, "m" in d.num.units).1, d.num.units)
        + "/" + PrefixedListToString("", d.denom.units)
  {
    DenominatorShown(d.denom.units);
    var (v, p) := FindPrefixSpec(d.num.scalar, "m" in d.num.units);
    var numText := PrefixedListToString(p, d.num.units);
    var denomText := PrefixedListToString("", d.denom.units);
    (v, if denomText != "" then numText + "/" + denomText else numText)
  }

  /** A denominator with atoms, none of them empty, is written with at least one character,
      so `prefixed` shows it after a `/`. */
  lemma DenominatorShown(l: seq<string>)
    ensures l != [] && "" !in l ==> PrefixedListToString("", l) != ""
  {
    if l != [] && "" !in l {
      CombineKeepsText(l);
      JoinOfText(Combine(l), '.');
    }
  }

  /** Combining keeps a non-empty list of non-empty atoms so. */
  lemma CombineKeepsText(l: seq<string>)
    requires l != [] && "" !in l
    ensures Combine(l) != [] && "" !in Combine(l)
  {
    var t := l;
    var i := 0;
    while i < |l|
      invariant i <= |l|
      invariant CombineFrom(l, 0, l) == CombineFrom(l, i, t)
      invariant t != [] && "" !in t
    {
      t := KeepsTextStep(l, i, t);
      i := i + 1;
    }
  }

  /** One step of the loop keeps a non-empty working copy free of empty atoms. */
  lemma KeepsTextStep(l: seq<string>, i: nat, t: seq<string>) returns (t': seq<string>)
    requires i < |l| && t != [] && "" !in t
    ensures CombineFrom(l, i, t) == CombineFrom(l, i + 1, t')
    ensures t' != [] && "" !in t'
  {
    var u := l[i];
    if multiset(t)[u] > 1 {
      CombineFromCollapses(l, i, t);
      t' := CollapseKeepsText(t, u);
    } else {
      CombineFromPasses(l, i, t);
      t' := t;
    }
  }

  lemma CollapseKeepsText(t: seq<string>, u: string) returns (t': seq<string>)
    requires "" !in t
    ensures t' == RemoveAll(t, u) + [u + NatToString(multiset(t)[u])]
    ensures t' != [] && "" !in t'
  {
    assert multiset(RemoveAll(t, u))[""] == 0;
    t' := RemoveAll(t, u) + [u + NatToString(multiset(t)[u])];
  }

  /** Joining a non-empty list of non-empty pieces gives a non-empty string. */
  lemma JoinOfText(parts: seq<string>, sep: char)
    requires parts != [] && "" !in parts
    ensures Join(parts, sep) != ""
  {
    assert parts[0] in parts;
  }

  /** What `prefixed` leaves in the object and what it returns or raises. */
  datatype Shown = Shown(after: Quantity, result: Result<(real, string)>)

  /** `prefixed`: `reduce` (raising on a frozen quantity), then `normalize_denom` stored back
      into the object (raising on a zero denominator scalar, the object staying reduced),
      then the display. */
  function PrefixedSpec(q: Quantity): (r: Shown)
    ensures r.result.Ok? ==> r.after.dict.denom.scalar == 1.0 && !r.after.unitsFrozen && !r.after.termsFrozen
    ensures r.result.Ok? ==> q.dict.denom.scalar != 0.0 && r.after.dict.num.scalar == q.dict.num.scalar / q.dict.denom.scalar
    ensures r.result.Err? && (q.termsFrozen || (q.unitsFrozen && HasReciprocal(q.dict.denom.units))) ==> r.after == q
    ensures r.result.Ok? <==>
      !q.termsFrozen && !(q.unitsFrozen && HasReciprocal(q.dict.denom.units)) && q.dict.denom.scalar != 0.0
    ensures r.result.Ok? ==> r.result.value == Display(r.after.dict)
    ensures r.result.Ok? ==>
      && r.after.dict.num.units == ReduceDict(q.dict, false, false).value.num.units
      && r.after.dict.denom.units == ReduceDict(q.dict, false, false).value.denom.units
  {
    match ReduceDict(q.dict, q.unitsFrozen, q.termsFrozen)
    case Err(e) => Shown(q, Err(e))
    case Ok(reduced) =>
      match NormalizeDenom(reduced)
      case Err(e) => Shown(Quantity(reduced, false, false), Err(e))
      case Ok(d) => Shown(Quantity(d, false, false), Ok(Display(d)))
  }
}
