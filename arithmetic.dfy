/** The algebra of unit dictionaries: multiplication (`_multiply_unit_dicts`), cancellation
    (`reduce`), inversion (`inverted`), integer powers (`__pow__`), addition (`__add__`) and
    the unit-free scalar (`unitless`). Each operation is a function of the dictionary and of
    how much of it is frozen into tuples. */
module Arithmetic {
  import opened Outcomes
  import opened Text
  import opened Tables
  import opened Terms

  // ---------------------------------------------------------------- _multiply_unit_dicts

  /** One role of a product: the scalars multiply and the atoms of `b` follow those of `a`. */
  function MultiplyTerms(a: Term, b: Term): Term
  {
    Term(a.scalar * b.scalar, a.units + b.units, a.power)
  }

  /** `_multiply_unit_dicts(a, b)`. The numerator is combined first, then the denominator;
      a role whose powers differ raises `ValueError`, and extending the copy of `a`'s unit
      list fails when `a`'s units are frozen tuples. */
  function MultiplyUnitDicts(a: UnitDict, b: UnitDict, aUnitsFrozen: bool): (r: Result<UnitDict>)
    ensures r.Ok? <==> a.num.power == b.num.power && a.denom.power == b.denom.power && !aUnitsFrozen
    ensures a.num.power != b.num.power ==> r == Err(ValueError)
    ensures a.num.power == b.num.power && aUnitsFrozen ==> r == Err(AttributeError)
    ensures r.Ok? ==>
      && r.value.num.scalar == a.num.scalar * b.num.scalar
      && r.value.denom.scalar == a.denom.scalar * b.denom.scalar
      && r.value.num.units == a.num.units + b.num.units
      && r.value.denom.units == a.denom.units + b.denom.units
      && r.value.num.power == a.num.power && r.value.denom.power == a.denom.power
  {
    if a.num.power != b.num.power then Err(ValueError)
    else if aUnitsFrozen then Err(AttributeError)
    else if a.denom.power != b.denom.power then Err(ValueError)
    else Ok(UnitDict(MultiplyTerms(a.num, b.num), MultiplyTerms(a.denom, b.denom)))
  }

  /** The bare number 1 is a two-sided identity for quantities with the usual powers. */
  lemma MultiplyIdentity(a: UnitDict)
    requires a.num.power == P(1) && a.denom.power == P(-1)
    ensures MultiplyUnitDicts(a, NumberDict(1.0), false) == Ok(a)
    ensures MultiplyUnitDicts(NumberDict(1.0), a, false) == Ok(a)
  {
    assert a.num.units + [] == a.num.units && [] + a.num.units == a.num.units;
    assert a.denom.units + [] == a.denom.units && [] + a.denom.units == a.denom.units;
    var n := NumberDict(1.0);
    assert n.num == Term(1.0, [], P(1));
    assert MultiplyTerms(a.num, n.num) == a.num;
    assert MultiplyTerms(a.denom, n.denom) == a.denom;
    assert MultiplyTerms(n.num, a.num) == a.num;
    assert MultiplyTerms(n.denom, a.denom) == a.denom;
  }

  /** Multiplying by a bare number scales the numerator and keeps every atom. */
  lemma MultiplyByNumber(a: UnitDict, x: real)
    requires a.num.power == P(1) && a.denom.power == P(-1)
    ensures MultiplyUnitDicts(a, NumberDict(x), false)
      == Ok(a.(num := a.num.(scalar := a.num.scalar * x)))
  {
    assert a.num.units + [] == a.num.units;
    assert a.denom.units + [] == a.denom.units;
    var n := NumberDict(x);
    assert MultiplyTerms(a.num, n.num) == a.num.(scalar := a.num.scalar * x);
    assert MultiplyTerms(a.denom, n.denom) == a.denom;
  }

  /** Products associate: the scalars associate and the atom lists concatenate. */
  lemma MultiplyAssociative(a: UnitDict, b: UnitDict, c: UnitDict)
    requires MultiplyUnitDicts(a, b, false).Ok? && MultiplyUnitDicts(b, c, false).Ok?
    ensures MultiplyUnitDicts(MultiplyUnitDicts(a, b, false).value, c, false)
      == MultiplyUnitDicts(a, MultiplyUnitDicts(b, c, false).value, false)
  {
    MultiplyTermsAssociative(a.num, b.num, c.num);
    MultiplyTermsAssociative(a.denom, b.denom, c.denom);
  }

  lemma MultiplyTermsAssociative(x: Term, y: Term, z: Term)
    ensures MultiplyTerms(MultiplyTerms(x, y), z) == MultiplyTerms(x, MultiplyTerms(y, z))
  {
    assert x.units + y.units + z.units == x.units + (y.units + z.units);
    assert x.scalar * y.scalar * z.scalar == x.scalar * (y.scalar * z.scalar);
  }

  /** Swapping the operands gives the same scalars and the same atoms, in another order. */
  lemma MultiplyCommutesUpToOrder(a: UnitDict, b: UnitDict)
    requires MultiplyUnitDicts(a, b, false).Ok?
    ensures MultiplyUnitDicts(b, a, false).Ok?
    ensures var ab := MultiplyUnitDicts(a, b, false).value;
      var ba := MultiplyUnitDicts(b, a, false).value;
      && ab.num.scalar == ba.num.scalar && ab.denom.scalar == ba.denom.scalar
      && multiset(ab.num.units) == multiset(ba.num.units)
      && multiset(ab.denom.units) == multiset(ba.denom.units)
  {
  }

  // ---------------------------------------------------------------- reduce

  predicate IsReciprocal(u: string) { u == OHM || u == SIEMENS }

  /** Ω and S are each other's reciprocal. */
  function Reciprocal(u: string): string
  {
    if u == OHM then SIEMENS else OHM
  }

  predicate HasReciprocal(l: seq<string>) { OHM in l || SIEMENS in l }

  /** The reciprocals of the Ω and S atoms of `den`, in order. */
  function Reciprocals(den: seq<string>): seq<string>
  {
    if den == [] then []
    else
      var last := den[|den| - 1];
      Reciprocals(den[..|den| - 1]) + (if IsReciprocal(last) then [Reciprocal(last)] else [])
  }

  /** `den` without its Ω and S atoms, in order. */
  function NonReciprocals(den: seq<string>): (r: seq<string>)
    ensures forall k :: 0 <= k < |r| ==> !IsReciprocal(r[k])
  {
    if den == [] then []
    else
      var last := den[|den| - 1];
      NonReciprocals(den[..|den| - 1]) + (if IsReciprocal(last) then [] else [last])
  }

  /** The first loop of `reduce` moves every Ω into the numerator as S and every S as Ω,
      and keeps every other atom of the denominator. */
  lemma {:induction false} ReciprocalSwap(den: seq<string>)
    ensures |Reciprocals(den)| + |NonReciprocals(den)| == |den|
    ensures multiset(Reciprocals(den))[SIEMENS] == multiset(den)[OHM]
    ensures multiset(Reciprocals(den))[OHM] == multiset(den)[SIEMENS]
    decreases |den|
  {
    if den != [] {
      var init, last := den[..|den| - 1], den[|den| - 1];
      ReciprocalSwap(init);
      assert den == init + [last];
      assert multiset(den) == multiset(init) + multiset{last};
    }
  }

  /** Every atom other than Ω and S stays in the denominator as often as it was there. */
  lemma {:induction false} NonReciprocalsKeep(den: seq<string>, x: string)
    requires !IsReciprocal(x)
    ensures multiset(NonReciprocals(den))[x] == multiset(den)[x]
    decreases |den|
  {
    if den != [] {
      var init, last := den[..|den| - 1], den[|den| - 1];
      NonReciprocalsKeep(init, x);
      assert den == init + [last];
      assert multiset(den) == multiset(init) + multiset{last};
    }
  }

  /** Nothing moves to the numerator exactly when there is no Ω or S. */
  lemma {:induction false} ReciprocalsEmpty(den: seq<string>)
    ensures Reciprocals(den) == [] <==> !HasReciprocal(den)
    decreases |den|
  {
    if den != [] {
      var init, last := den[..|den| - 1], den[|den| - 1];
      ReciprocalsEmpty(init);
      assert den == init + [last];
    }
  }

  /** `reduce`'s second loop: the `for` walks the denominator list while the body removes
      from that same list, so after each cancellation the next atom is stepped over. An atom
      found in the numerator loses its first occurrence on both sides. */
  function CancelWalk(num: seq<string>, den: seq<string>, i: nat): (seq<string>, seq<string>)
    decreases |den| - i
  {
    if i >= |den| then (num, den)
    else if den[i] in num then CancelWalk(RemoveFirst(num, den[i]), RemoveFirst(den, den[i]), i + 1)
    else CancelWalk(num, den, i + 1)
  }

  /** The atoms `CancelWalk` cancels, one occurrence per cancellation. */
  ghost function Cancelled(num: seq<string>, den: seq<string>, i: nat): multiset<string>
    decreases |den| - i
  {
    if i >= |den| then multiset{}
    else if den[i] in num then Cancelled(RemoveFirst(num, den[i]), RemoveFirst(den, den[i]), i + 1) + multiset{den[i]}
    else Cancelled(num, den, i + 1)
  }

  /** Each cancellation removes one occurrence of the same atom from each side, so what
      leaves the numerator is exactly what leaves the denominator. */
  lemma {:induction false} CancelWalkCancels(num: seq<string>, den: seq<string>, i: nat)
    ensures multiset(num) == multiset(CancelWalk(num, den, i).0) + Cancelled(num, den, i)
    ensures multiset(den) == multiset(CancelWalk(num, den, i).1) + Cancelled(num, den, i)
  {
    CancelWalkNumerator(num, den, i);
    CancelWalkDenominator(num, den, i);
  }

  lemma {:induction false} CancelWalkNumerator(num: seq<string>, den: seq<string>, i: nat)
    ensures multiset(num) == multiset(CancelWalk(num, den, i).0) + Cancelled(num, den, i)
    decreases |den| - i
  {
    if i < |den| {
      var x := den[i];
      if x in num {
        var num' := RemoveFirst(num, x);
        RemoveFirstMultiset(num, x);
        CancelWalkNumerator(num', RemoveFirst(den, x), i + 1);
        assert CancelWalk(num, den, i) == CancelWalk(num', RemoveFirst(den, x), i + 1);
        assert Cancelled(num, den, i) == Cancelled(num', RemoveFirst(den, x), i + 1) + multiset{x};
        assert multiset(num) == multiset(num') + multiset{x};
      } else {
        CancelWalkNumerator(num, den, i + 1);
      }
    }
  }

  lemma {:induction false} CancelWalkDenominator(num: seq<string>, den: seq<string>, i: nat)
    ensures multiset(den) == multiset(CancelWalk(num, den, i).1) + Cancelled(num, den, i)
    decreases |den| - i
  {
    if i < |den| {
      var x := den[i];
      if x in num {
        var den' := RemoveFirst(den, x);
        RemoveFirstMultiset(den, x);
        CancelWalkDenominator(RemoveFirst(num, x), den', i + 1);
        assert CancelWalk(num, den, i) == CancelWalk(RemoveFirst(num, x), den', i + 1);
        assert Cancelled(num, den, i) == Cancelled(RemoveFirst(num, x), den', i + 1) + multiset{x};
        assert multiset(den) == multiset(den') + multiset{x};
      } else {
        CancelWalkDenominator(num, den, i + 1);
      }
    }
  }

  /** When no atom from position `i` on occurs in the numerator, nothing cancels. */
  lemma {:induction false} CancelWalkNothingShared(num: seq<string>, den: seq<string>, i: nat)
    requires forall k :: i <= k < |den| ==> den[k] !in num
    ensures CancelWalk(num, den, i) == (num, den)
    decreases |den| - i
  {
    if i < |den| {
      CancelWalkNothingShared(num, den, i + 1);
    }
  }

  /** `reduce` on a dictionary: Ω/S atoms of the denominator go to the numerator as their
      reciprocals, then atoms on both sides cancel. Appending to a frozen numerator tuple
      raises `AttributeError`, and writing into a frozen denominator tuple `TypeError`;
      either happens before anything changes. */
  function ReduceDict(d: UnitDict, unitsFrozen: bool, termsFrozen: bool): (r: Result<UnitDict>)
    ensures r.Ok? <==> !termsFrozen && !(unitsFrozen && HasReciprocal(d.denom.units))
    ensures r.Err? ==> r.error == (if unitsFrozen && HasReciprocal(d.denom.units) then AttributeError else TypeError)
    ensures r.Ok? ==>
      && r.value.num.scalar == d.num.scalar && r.value.denom.scalar == d.denom.scalar
      && r.value.num.power == d.num.power && r.value.denom.power == d.denom.power
  {
    if unitsFrozen && HasReciprocal(d.denom.units) then Err(AttributeError)
    else if termsFrozen then Err(TypeError)
    else
      var (n, m) := CancelWalk(d.num.units + Reciprocals(d.denom.units), NonReciprocals(d.denom.units), 0);
      Ok(UnitDict(d.num.(units := n), d.denom.(units := m)))
  }

  /** What the cancellation walk takes from the numerator it also takes from the
      denominator, one occurrence for one occurrence. */
  lemma ReduceCancels(d: UnitDict)
    ensures ReduceDict(d, false, false).Ok?
    ensures var r := ReduceDict(d, false, false).value;
      var num0 := d.num.units + Reciprocals(d.denom.units);
      var den0 := NonReciprocals(d.denom.units);
      && multiset(r.num.units) <= multiset(num0) && multiset(r.denom.units) <= multiset(den0)
      && multiset(num0) - multiset(r.num.units) == multiset(den0) - multiset(r.denom.units)
  {
    var num0 := d.num.units + Reciprocals(d.denom.units);
    var den0 := NonReciprocals(d.denom.units);
    CancelWalkCancels(num0, den0, 0);
  }

  /** After `reduce` no Ω or S is left in the denominator. */
  lemma ReduceClearsReciprocals(d: UnitDict)
    ensures ReduceDict(d, false, false).Ok?
    ensures !HasReciprocal(ReduceDict(d, false, false).value.denom.units)
  {
    var num0 := d.num.units + Reciprocals(d.denom.units);
    var den0 := NonReciprocals(d.denom.units);
    CancelWalkCancels(num0, den0, 0);
    var m := CancelWalk(num0, den0, 0).1;
    SubMultisetMembers(den0, m, Cancelled(num0, den0, 0));
  }

  lemma SubMultisetMembers(a: seq<string>, b: seq<string>, c: multiset<string>)
    requires multiset(a) == multiset(b) + c
    ensures forall x :: x in b ==> x in a
  {
    forall x | x in b
      ensures x in a
    {
      assert x in multiset(b);
      assert x in multiset(a);
    }
  }

  /** One `reduce` leaves shared atoms behind: `m.m/m.m` becomes `m/m`, and only a second
      `reduce` clears it. */
  lemma ReduceNotIdempotent()
    ensures var d := UnitDict(Term(1.0, ["m", "m"], P(1)), Term(1.0, ["m", "m"], P(-1)));
      var once := ReduceDict(d, false, false);
      && once == Ok(UnitDict(Term(1.0, ["m"], P(1)), Term(1.0, ["m"], P(-1))))
      && ReduceDict(once.value, false, false) == Ok(UnitDict(Term(1.0, [], P(1)), Term(1.0, [], P(-1))))
  {
    ReduceSquareOnce();
    ReduceSingleOnce();
  }

  lemma ReduceSquareOnce()
    ensures ReduceDict(UnitDict(Term(1.0, ["m", "m"], P(1)), Term(1.0, ["m", "m"], P(-1))), false, false)
      == Ok(UnitDict(Term(1.0, ["m"], P(1)), Term(1.0, ["m"], P(-1))))
  {
    var mm: seq<string> := ["m", "m"];
    assert Reciprocals(mm) == [] by { assert mm[..1] == ["m"]; assert ["m"][..0] == []; }
    assert NonReciprocals(mm) == mm by { assert mm[..1] == ["m"]; assert ["m"][..0] == []; }
    assert mm + [] == mm;
    assert RemoveFirst(mm, "m") == ["m"];
    assert CancelWalk(mm, mm, 0) == CancelWalk(["m"], ["m"], 1);
  }

  lemma ReduceSingleOnce()
    ensures ReduceDict(UnitDict(Term(1.0, ["m"], P(1)), Term(1.0, ["m"], P(-1))), false, false)
      == Ok(UnitDict(Term(1.0, [], P(1)), Term(1.0, [], P(-1))))
  {
    var one: seq<string> := ["m"];
    assert Reciprocals(one) == [] by { assert one[..0] == []; }
    assert NonReciprocals(one) == one by { assert one[..0] == []; }
    assert one + [] == one;
    assert RemoveFirst(one, "m") == [];
    assert CancelWalk(one, one, 0) == CancelWalk([], [], 1);
  }

  /** `100 ohm.cm` inverted has Ω.m in the denominator; `reduce` turns it into S per metre. */
  lemma ReduceMovesOhm()
    ensures ReduceDict(UnitDict(Term(1.0, [], P(1)), Term(1.0, [OHM, "m"], P(-1))), false, false)
      == Ok(UnitDict(Term(1.0, [SIEMENS], P(1)), Term(1.0, ["m"], P(-1))))
  {
    var den: seq<string> := [OHM, "m"];
    assert den[..1] == [OHM];
    assert [OHM][..0] == [];
    assert Reciprocals([OHM]) == [] + [SIEMENS];
    assert Reciprocals(den) == [SIEMENS];
    assert NonReciprocals([OHM]) == [];
    assert NonReciprocals(den) == ["m"];
    assert CancelWalk([SIEMENS], ["m"], 0) == ([SIEMENS], ["m"]);
    var d := UnitDict(Term(1.0, [], P(1)), Term(1.0, den, P(-1)));
    assert d.num.units + Reciprocals(d.denom.units) == [SIEMENS];
    var r := ReduceDict(d, false, false);
    assert r.value.num == Term(1.0, [SIEMENS], P(1));
    assert r.value.denom == Term(1.0, ["m"], P(-1));
  }

  // ---------------------------------------------------------------- inverted

  /** `inverted()`: the denominator atoms become the numerator under `1/old numerator
      scalar`, the numerator atoms become the denominator under 1.0, and both powers are
      negated (a power left as text cannot be). The old denominator scalar is dropped. */
  function InvertedDict(d: UnitDict): (r: Result<UnitDict>)
    ensures r.Err? <==> d.num.power.Tok? || d.denom.power.Tok? || d.num.scalar == 0.0
    ensures r.Err? ==> r.error == (if d.num.power.Tok? || d.denom.power.Tok? then TypeError else ZeroDivisionError)
    ensures r.Ok? ==>
      && r.value.num.units == d.denom.units && r.value.denom.units == d.num.units
      && r.value.num.scalar * d.num.scalar == 1.0 && r.value.denom.scalar == 1.0
      && r.value.num.power == P(-d.denom.power.n) && r.value.denom.power == P(-d.num.power.n)
  {
    if d.num.power.Tok? || d.denom.power.Tok? then Err(TypeError)
    else if d.num.scalar == 0.0 then Err(ZeroDivisionError)
    else Ok(UnitDict(Term(1.0 / d.num.scalar, d.denom.units, P(-d.denom.power.n)),
                     Term(1.0, d.num.units, P(-d.num.power.n))))
  }

  /** Inverting twice gives back a normalised quantity with a nonzero scalar. */
  lemma InvertTwice(d: UnitDict)
    requires d.num.power.P? && d.denom.power.P?
    requires d.denom.scalar == 1.0 && d.num.scalar != 0.0
    ensures InvertedDict(d).Ok? && InvertedDict(InvertedDict(d).value) == Ok(d)
  {
    var x := d.num.scalar;
    var y := 1.0 / x;
    assert y * x == 1.0;
    assert 1.0 / y == x;
    assert d.num == Term(x, d.num.units, P(-(-d.num.power.n)));
    assert d.denom == Term(1.0, d.denom.units, P(-(-d.denom.power.n)));
  }

  /** The denominator scalar plays no part in the inverse. */
  lemma InvertIgnoresDenominatorScalar(d: UnitDict, x: real)
    ensures InvertedDict(d.(denom := d.denom.(scalar := x))) == InvertedDict(d)
  {
  }

  // ---------------------------------------------------------------- __pow__

  /** The exponent of `q ** e`: an `int`, a `float`, or not a number at all. */
  datatype Exponent = IntExp(n: int) | FloatExp(x: real) | NotNumber

  function NatPow(x: real, n: nat): real
  {
    if n == 0 then 1.0 else x * NatPow(x, n - 1)
  }

  lemma {:induction false} NatPowNonZero(x: real, n: nat)
    requires x != 0.0
    ensures NatPow(x, n) != 0.0
  {
    if n > 0 {
      NatPowNonZero(x, n - 1);
    }
  }

  /** `x ** n` for a float `x` and an int `n`; zero has no negative powers. */
  function IntPow(x: real, n: int): real
    requires n >= 0 || x != 0.0
  {
    if n >= 0 then NatPow(x, n)
    else
      NatPowNonZero(x, -n);
      1.0 / NatPow(x, -n)
  }

  /** `l * n`: `n` copies of the list one after another, none when `n <= 0`. */
  function RepeatSeq(l: seq<string>, n: int): (r: seq<string>)
    ensures n <= 0 ==> r == []
    ensures n > 0 ==> |r| == n * |l|
    ensures n > 0 ==> forall x :: multiset(r)[x] == n * multiset(l)[x]
    decreases n
  {
    if n <= 0 then []
    else
      var rest := RepeatSeq(l, n - 1);
      RepeatOnce(l, rest, n);
      l + rest
  }

  /** One more copy in front adds one list's length and one list's count of each atom. */
  lemma RepeatOnce(l: seq<string>, rest: seq<string>, n: int)
    requires n > 0
    requires n - 1 <= 0 ==> rest == []
    requires n - 1 > 0 ==> |rest| == (n - 1) * |l| && forall x :: multiset(rest)[x] == (n - 1) * multiset(l)[x]
    ensures |l + rest| == n * |l|
    ensures forall x :: multiset(l + rest)[x] == n * multiset(l)[x]
  {
    assert n * |l| == |l| + (n - 1) * |l|;
    forall x
      ensures multiset(l + rest)[x] == n * multiset(l)[x]
    {
      assert multiset(l + rest) == multiset(l) + multiset(rest);
      assert n * multiset(l)[x] == multiset(l)[x] + (n - 1) * multiset(l)[x];
    }
  }

  /** `q ** e`. A non-number exponent raises `ValueError`; the ratio of the scalars is raised
      to the power; a float exponent always ends in `TypeError` (a frozen term or a list
      multiplied by a float); an int exponent repeats both unit lists, and the result is
      reduced. */
  function PowDict(d: UnitDict, e: Exponent, termsFrozen: bool): (r: Result<UnitDict>)
    ensures e.NotNumber? ==> r == Err(ValueError)
    ensures !e.NotNumber? && d.denom.scalar == 0.0 ==> r == Err(ZeroDivisionError)
    ensures e.FloatExp? ==> r.Err?
    ensures e.IntExp? && termsFrozen ==> r.Err?
    ensures e.IntExp? ==>
      (r.Ok? <==> !termsFrozen && d.denom.scalar != 0.0 && !(d.num.scalar / d.denom.scalar == 0.0 && e.n < 0))
    ensures r.Ok? ==> r.value.denom.scalar == 1.0
    ensures e.IntExp? && r.Ok? ==> r.value.num.scalar == IntPow(d.num.scalar / d.denom.scalar, e.n)
  {
    match e
    case NotNumber => Err(ValueError)
    case FloatExp(x) =>
      if d.denom.scalar == 0.0 then Err(ZeroDivisionError)
      else if d.num.scalar / d.denom.scalar == 0.0 && x < 0.0 then Err(ZeroDivisionError)
      else Err(TypeError)
    case IntExp(n) =>
      if d.denom.scalar == 0.0 then Err(ZeroDivisionError)
      else
        var ratio := d.num.scalar / d.denom.scalar;
        if ratio == 0.0 && n < 0 then Err(ZeroDivisionError)
        else if termsFrozen then Err(TypeError)
        else ReduceDict(UnitDict(Term(IntPow(ratio, n), RepeatSeq(d.num.units, n), d.num.power),
                                 Term(1.0, RepeatSeq(d.denom.units, n), d.denom.power)), false, false)
  }

  /** `q * q'` on dictionaries: the product, then `reduce` on the new (unfrozen) quantity. */
  function TimesDict(a: UnitDict, aUnitsFrozen: bool, b: UnitDict): (r: Result<UnitDict>)
    ensures r.Ok? <==> a.num.power == b.num.power && a.denom.power == b.denom.power && !aUnitsFrozen
    ensures r.Err? ==> r.error == MultiplyUnitDicts(a, b, aUnitsFrozen).error
    ensures r.Ok? ==>
      && r.value.num.scalar == a.num.scalar * b.num.scalar
      && r.value.denom.scalar == a.denom.scalar * b.denom.scalar
      && r.value.num.power == a.num.power && r.value.denom.power == a.denom.power
  {
    match MultiplyUnitDicts(a, b, aUnitsFrozen)
    case Err(e) => Err(e)
    case Ok(p) => ReduceDict(p, false, false)
  }

  /** Squaring a normalised quantity is multiplying it by itself. */
  lemma PowTwoIsSquare(d: UnitDict)
    requires d.denom.scalar == 1.0
    ensures PowDict(d, IntExp(2), false) == TimesDict(d, false, d)
  {
    assert RepeatSeq(d.num.units, 2) == d.num.units + d.num.units by {
      assert RepeatSeq(d.num.units, 0) == [];
      assert d.num.units + [] == d.num.units;
    }
    assert RepeatSeq(d.denom.units, 2) == d.denom.units + d.denom.units by {
      assert RepeatSeq(d.denom.units, 0) == [];
      assert d.denom.units + [] == d.denom.units;
    }
    var x := d.num.scalar;
    assert x / 1.0 == x;
    assert NatPow(x, 1) == x * NatPow(x, 0) == x;
    assert NatPow(x, 2) == x * NatPow(x, 1);
    assert IntPow(x / 1.0, 2) == x * x;
    assert MultiplyTerms(d.num, d.num) == Term(IntPow(x / 1.0, 2), RepeatSeq(d.num.units, 2), d.num.power);
    assert MultiplyTerms(d.denom, d.denom) == Term(1.0, RepeatSeq(d.denom.units, 2), d.denom.power);
  }

  /** The first power of a normalised quantity is the quantity reduced. */
  lemma PowOneIsReduce(d: UnitDict)
    requires d.denom.scalar == 1.0
    ensures PowDict(d, IntExp(1), false) == ReduceDict(d, false, false)
  {
    assert RepeatSeq(d.num.units, 1) == d.num.units + [] == d.num.units;
    assert RepeatSeq(d.denom.units, 1) == d.denom.units + [] == d.denom.units;
    assert d.num.scalar / 1.0 == d.num.scalar;
    assert NatPow(d.num.scalar, 1) == d.num.scalar * NatPow(d.num.scalar, 0);
    assert IntPow(d.num.scalar / 1.0, 1) == d.num.scalar;
    assert d.num == Term(IntPow(d.num.scalar / 1.0, 1), RepeatSeq(d.num.units, 1), d.num.power);
    assert d.denom == Term(1.0, RepeatSeq(d.denom.units, 1), d.denom.power);
  }

  /** For a positive power the atoms are those of the repeated lists after one `reduce`:
      they do not depend on the scalars. */
  lemma PowRepeatsUnits(d: UnitDict, n: int)
    requires n > 0 && d.denom.scalar != 0.0
    ensures PowDict(d, IntExp(n), false).Ok?
    ensures var r := PowDict(d, IntExp(n), false).value;
      var reduced := ReduceDict(UnitDict(Term(1.0, RepeatSeq(d.num.units, n), d.num.power),
                                         Term(1.0, RepeatSeq(d.denom.units, n), d.denom.power)), false, false).value;
      r.num.units == reduced.num.units && r.denom.units == reduced.denom.units
  {
  }

  /** Without denominator atoms nothing cancels: `q ** n` holds each numerator atom `n` times
      as often, in `n` copies of the list. */
  lemma PowWithoutDenominator(d: UnitDict, n: int)
    requires n > 0 && d.denom.scalar != 0.0 && d.denom.units == []
    ensures PowDict(d, IntExp(n), false).Ok?
    ensures var r := PowDict(d, IntExp(n), false).value;
      && r.num.units == RepeatSeq(d.num.units, n) && r.denom.units == []
      && (forall x :: multiset(r.num.units)[x] == n * multiset(d.num.units)[x])
  {
    var num := RepeatSeq(d.num.units, n);
    assert RepeatSeq(d.denom.units, n) == [];
    assert Reciprocals([]) == [] && NonReciprocals([]) == [];
    assert num + [] == num;
    assert CancelWalk(num, [], 0) == (num, []);
  }

  /** A power of zero or below keeps no atom at all: `q ** -1` is a bare number. */
  lemma PowNonPositiveDropsUnits(d: UnitDict, n: int)
    requires n <= 0 && d.denom.scalar != 0.0 && d.num.scalar != 0.0
    ensures PowDict(d, IntExp(n), false).Ok?
    ensures UnitlessOf(PowDict(d, IntExp(n), false).value)
      == Ok(IntPow(d.num.scalar / d.denom.scalar, n))
  {
    assert Reciprocals([]) == [] && NonReciprocals([]) == [];
  }

  // ---------------------------------------------------------------- __add__ and unitless

  /** `unitless`: the numerator scalar when neither list has an atom; no `reduce` first. */
  function UnitlessOf(d: UnitDict): (r: Result<real>)
    ensures r.Ok? <==> d.num.units == [] && d.denom.units == []
    ensures r.Ok? ==> r.value == d.num.scalar
    ensures r.Err? ==> r.error == ValueError
  {
    if d.num.units == [] && d.denom.units == [] then Ok(d.num.scalar) else Err(ValueError)
  }

  /** Units that only cancel are not unit-free until reduced: `m/m` has no scalar. */
  lemma UnitlessNeedsReduce()
    ensures var d := UnitDict(Term(2.0, ["m"], P(1)), Term(1.0, ["m"], P(-1)));
      UnitlessOf(d) == Err(ValueError) && UnitlessOf(ReduceDict(d, false, false).value) == Ok(2.0)
  {
    var one: seq<string> := ["m"];
    assert Reciprocals(one) == [] by { assert one[..0] == []; }
    assert NonReciprocals(one) == one by { assert one[..0] == []; }
    assert one + [] == one;
    assert RemoveFirst(one, "m") == [];
    assert CancelWalk(one, one, 0) == CancelWalk([], [], 1);
  }

  /** The comparison inside `__add__`, on reduced operands: when both unit lists match as
      ordered lists, the receiver's dictionary with its numerator scalar replaced by the
      sum. */
  function SumIfSameUnits(a: UnitDict, b: UnitDict): (r: Option<UnitDict>)
    ensures r.Some? <==> a.num.units == b.num.units && a.denom.units == b.denom.units
    ensures r.Some? ==>
      && r.value.num.scalar == a.num.scalar + b.num.scalar
      && r.value.num.units == a.num.units && r.value.denom == a.denom
      && r.value.num.power == a.num.power
  {
    if a.denom.units == b.denom.units && a.num.units == b.num.units then
      Some(a.(num := a.num.(scalar := a.num.scalar + b.num.scalar)))
    else None
  }

  /** What `a + b` leaves behind: the receiver and the argument after it, and what it
      returns (`None` for incompatible units) or raises. */
  datatype AddOutcome = AddOutcome(self: Quantity, other: Quantity, result: Result<Option<UnitDict>>)

  /** `reduce` on a quantity: on success its lists are fresh, so nothing is frozen. */
  function ReduceQuantity(q: Quantity): (r: Result<Quantity>)
    ensures r.Ok? <==> !q.termsFrozen && !(q.unitsFrozen && HasReciprocal(q.dict.denom.units))
    ensures r.Ok? ==> !r.value.unitsFrozen && !r.value.termsFrozen
    ensures r.Ok? ==> r.value.dict.num.scalar == q.dict.num.scalar && r.value.dict.denom.scalar == q.dict.denom.scalar
  {
    match ReduceDict(q.dict, q.unitsFrozen, q.termsFrozen)
    case Err(e) => Err(e)
    case Ok(d) => Ok(Quantity(d, false, false))
  }

  /** `a + b` for two distinct objects: `melt` is only named, never called; the receiver is
      reduced, then the argument (either may raise, the receiver staying reduced); with equal
      unit lists the receiver's numerator scalar becomes the sum and a copy is returned. */
  function AddSpec(a: Quantity, b: Quantity): (o: AddOutcome)
    ensures o.result.Err? <==> ReduceQuantity(a).Err? || ReduceQuantity(b).Err?
    ensures ReduceQuantity(a).Err? ==> o.self == a && o.other == b
    ensures ReduceQuantity(a).Ok? ==>
      && o.self.dict.num.units == ReduceQuantity(a).value.dict.num.units
      && o.self.dict.denom == ReduceQuantity(a).value.dict.denom
      && !o.self.unitsFrozen && !o.self.termsFrozen
    ensures o.result.Ok? && o.result.value.None? ==> o.self == ReduceQuantity(a).value
    ensures o.result.Ok? ==> o.other == ReduceQuantity(b).value
  {
    match ReduceQuantity(a)
    case Err(e) => AddOutcome(a, b, Err(e))
    case Ok(a1) =>
      match ReduceQuantity(b)
      case Err(e) => AddOutcome(a1, b, Err(e))
      case Ok(b1) =>
        match SumIfSameUnits(a1.dict, b1.dict)
        case None => AddOutcome(a1, b1, Ok(None))
        case Some(s) => AddOutcome(a1.(dict := s), b1, Ok(Some(s)))
  }

  /** `a + a`: the one object is reduced twice and its scalar doubled. */
  function AddSelfSpec(a: Quantity): (o: AddOutcome)
    ensures o.result.Ok? <==> ReduceQuantity(a).Ok?
    ensures o.result.Err? ==> o.self == a
    ensures o.self == o.other
    ensures o.result.Ok? ==>
      && o.result.value.Some? && o.self.dict == o.result.value.value
      && o.result.value.value.num.scalar == 2.0 * a.dict.num.scalar
  {
    match ReduceQuantity(a)
    case Err(e) => AddOutcome(a, a, Err(e))
    case Ok(a1) =>
      match ReduceQuantity(a1)
      case Err(e) => AddOutcome(a1, a1, Err(e))
      case Ok(a2) =>
        var s := SumIfSameUnits(a2.dict, a2.dict).value;
        AddOutcome(a2.(dict := s), a2.(dict := s), Ok(Some(s)))
  }

  /** `a + b` returns a sum exactly when both reduce and their reduced unit lists agree in
      order; the sum is the two scalars added, and the receiver now holds it. */
  lemma AddIff(a: Quantity, b: Quantity)
    ensures var o := AddSpec(a, b);
      o.result.Ok? && o.result.value.Some? <==>
        && ReduceQuantity(a).Ok? && ReduceQuantity(b).Ok?
        && ReduceQuantity(a).value.dict.num.units == ReduceQuantity(b).value.dict.num.units
        && ReduceQuantity(a).value.dict.denom.units == ReduceQuantity(b).value.dict.denom.units
    ensures var o := AddSpec(a, b);
      o.result.Ok? && o.result.value.Some? ==>
        && o.result.value.value.num.scalar == a.dict.num.scalar + b.dict.num.scalar
        && o.self.dict == o.result.value.value && !o.self.unitsFrozen
  {
  }

  /** Adding a quantity to itself doubles it. */
  lemma AddSelfDoubles(a: Quantity)
    requires !a.termsFrozen && !(a.unitsFrozen && HasReciprocal(a.dict.denom.units))
    ensures AddSelfSpec(a).result.Ok? && AddSelfSpec(a).result.value.Some?
    ensures AddSelfSpec(a).result.value.value.num.scalar == 2.0 * a.dict.num.scalar
  {
  }
}
