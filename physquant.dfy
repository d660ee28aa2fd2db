/** The `PhysQuant` object: a `unit_dict` that its methods rewrite in place, together with
    how much of it `freeze` has turned into tuples. Every method is proved against the
    function on `Quantity` values that says what it does. */
module Quantities {
  import opened Outcomes
  import opened Text
  import opened Terms
  import opened Arithmetic
  import opened Presentation
  import opened Construction
  import opened Normalizer

  class PhysQuant {
    var unitDict: UnitDict
    /** The two unit lists are tuples. */
    var unitsFrozen: bool
    /** The two term lists are tuples. */
    var termsFrozen: bool

    /** `freeze` turns the terms into tuples only together with their unit lists. */
    predicate Valid()
      reads this
    {
      termsFrozen ==> unitsFrozen
    }

    function State(): Quantity
      reads this
    {
      Quantity(unitDict, unitsFrozen, termsFrozen)
    }

    constructor FromState(q: Quantity)
      requires q.termsFrozen ==> q.unitsFrozen
      ensures State() == q && Valid()
    {
      unitDict, unitsFrozen, termsFrozen := q.dict, q.unitsFrozen, q.termsFrozen;
    }

    /** `reduce`: the first loop moves each Ω/S of the denominator to the numerator as its
        reciprocal, the second cancels atoms present on both sides while walking the very
        list it removes from. Nothing changes when it raises. */
    method Reduce() returns (e: Option<PyError>)
      requires Valid()
      modifies this
      ensures Valid()
      ensures e.None? <==> ReduceQuantity(old(State())).Ok?
      ensures e.Some? ==> e.value == ReduceQuantity(old(State())).error && State() == old(State())
      ensures e.None? ==> State() == ReduceQuantity(old(State())).value
    {
      var moved, num, temp := MoveReciprocals(unitDict.num.units, unitDict.denom.units, unitsFrozen);
      if !moved {
        return Some(AttributeError);
      }
      if termsFrozen {
        return Some(TypeError);
      }
      var n, m := CancelShared(num, temp);
      unitDict := UnitDict(unitDict.num.(units := n), unitDict.denom.(units := m));
      unitsFrozen, termsFrozen := false, false;
      e := None;
    }

    /** `prefixed`: reduces, normalises the denominator into the object, then shows the
        numerator scalar with its prefix and the atoms written with powers. */
    method Prefixed() returns (r: Result<(real, string)>)
      requires Valid()
      modifies this
      ensures Valid()
      ensures Shown(State(), r) == PrefixedSpec(old(State()))
    {
      var e := Reduce();
      if e.Some? {
        return Err(e.value);
      }
      var normal := NormalizeDenom(unitDict);
      if normal.Err? {
        return Err(normal.error);
      }
      unitDict := normal.value;
      var centi := "m" in unitDict.num.units;
      var v, p := FindPrefix(unitDict.num.scalar, centi);
      var numAtoms := CombineRepeats(unitDict.num.units);
      var denomAtoms := CombineRepeats(unitDict.denom.units);
      var numText := p + Join(numAtoms, '.');
      var denomText := Join(denomAtoms, '.');
      r := Ok((v, if denomText != "" then numText + "/" + denomText else numText));
    }

    /** `freeze`: both terms and both unit lists become tuples. */
    method Freeze()
      modifies this
      ensures State() == Quantity(old(unitDict), true, true)
    {
      unitsFrozen, termsFrozen := true, true;
    }

    /** `melt`: both terms and both unit lists become lists again. */
    method Melt()
      modifies this
      ensures State() == Quantity(old(unitDict), false, false)
    {
      unitsFrozen, termsFrozen := false, false;
    }

    /** `self * m` (and `m * self`, which is the same code): the product of the two
        dictionaries, rebuilt with `pq(**...)` and reduced. */
    method Times(m: PhysQuant) returns (r: Result<PhysQuant>)
      ensures r.Ok? <==> TimesDict(unitDict, unitsFrozen, m.unitDict).Ok?
      ensures r.Err? ==> r.error == TimesDict(unitDict, unitsFrozen, m.unitDict).error
      ensures r.Ok? ==> fresh(r.value) && r.value.State() == Quantity(TimesDict(unitDict, unitsFrozen, m.unitDict).value, false, false)
      ensures r.Ok? ==> r.value.Valid()
    {
      var product := MultiplyUnitDicts(unitDict, m.unitDict, unitsFrozen);
      if product.Err? {
        return Err(product.error);
      }
      var p := FromDict(product.value);
      var e := p.Reduce();
      assert e.None?;
      r := Ok(p);
    }

    /** `self * x` for a number `x`: `x` is first made into `pq(x)`. */
    method TimesNumber(x: real) returns (r: Result<PhysQuant>)
      ensures r.Ok? <==> TimesDict(unitDict, unitsFrozen, NumberDict(x)).Ok?
      ensures r.Err? ==> r.error == TimesDict(unitDict, unitsFrozen, NumberDict(x)).error
      ensures r.Ok? ==> fresh(r.value) && r.value.State() == Quantity(TimesDict(unitDict, unitsFrozen, NumberDict(x)).value, false, false)
      ensures r.Ok? ==> r.value.Valid()
    {
      var m := FromDict(NumberDict(x));
      r := Times(m);
    }

    /** `inverted()`: a new object; this one is left alone. The new object's unit lists are
        the old ones, so they stay tuples if they were. */
    method Inverted() returns (r: Result<PhysQuant>)
      ensures r.Ok? <==> InvertedDict(unitDict).Ok?
      ensures r.Err? ==> r.error == InvertedDict(unitDict).error
      ensures r.Ok? ==> fresh(r.value) && r.value.State() == Quantity(InvertedDict(unitDict).value, unitsFrozen, false)
      ensures r.Ok? ==> r.value.Valid()
    {
      var num, denom := unitDict.num, unitDict.denom;
      if num.power.Tok? || denom.power.Tok? {
        return Err(TypeError);
      }
      var swapped := UnitDict(Term(1.0, denom.units, P(-denom.power.n)), Term(num.scalar, num.units, P(-num.power.n)));
      var normal := NormalizeDenom(swapped);
      if normal.Err? {
        return Err(normal.error);
      }
      var q := new PhysQuant.FromState(Quantity(normal.value, unitsFrozen, false));
      r := Ok(q);
    }

    /** `self ** e`: the scalar ratio raised to `e`, each unit list repeated `e` times, then
        rebuilt with `pq(**...)` and reduced. */
    method Power(e: Exponent) returns (r: Result<PhysQuant>)
      ensures r.Ok? <==> PowDict(unitDict, e, termsFrozen).Ok?
      ensures r.Err? ==> r.error == PowDict(unitDict, e, termsFrozen).error
      ensures r.Ok? ==> fresh(r.value) && r.value.State() == Quantity(PowDict(unitDict, e, termsFrozen).value, false, false)
      ensures r.Ok? ==> r.value.Valid()
    {
      if e.NotNumber? {
        return Err(ValueError);
      }
      if unitDict.denom.scalar == 0.0 {
        return Err(ZeroDivisionError);
      }
      var ratio := unitDict.num.scalar / unitDict.denom.scalar;
      match e
      case FloatExp(x) =>
        if ratio == 0.0 && x < 0.0 {
          return Err(ZeroDivisionError);
        }
        return Err(TypeError);
      case IntExp(n) =>
        if ratio == 0.0 && n < 0 {
          return Err(ZeroDivisionError);
        }
        if termsFrozen {
          return Err(TypeError);
        }
        var raised := UnitDict(Term(IntPow(ratio, n), RepeatSeq(unitDict.num.units, n), unitDict.num.power),
                               Term(1.0, RepeatSeq(unitDict.denom.units, n), unitDict.denom.power));
        var p := FromDict(raised);
        var err := p.Reduce();
        assert err.None?;
        r := Ok(p);
    }

    /** `self + other` for another object: both are reduced in place, and with equal unit
        lists this object's scalar becomes the sum and a copy is returned (`None`
        otherwise). */
    method Add(other: PhysQuant) returns (r: Result<Option<PhysQuant>>)
      requires Valid() && other.Valid() && other != this
      modifies this, other
      ensures Valid() && other.Valid()
      ensures var o := AddSpec(old(State()), old(other.State()));
        && State() == o.self && other.State() == o.other
        && (r.Ok? <==> o.result.Ok?)
        && (r.Err? ==> r.error == o.result.error)
        && (r.Ok? ==> (r.value.Some? <==> o.result.value.Some?))
        && (r.Ok? && r.value.Some? ==> fresh(r.value.value) && r.value.value.State() == Quantity(o.result.value.value, false, false))
    {
      var e := Reduce();
      if e.Some? {
        return Err(e.value);
      }
      e := other.Reduce();
      if e.Some? {
        return Err(e.value);
      }
      var sum := SumIfSameUnits(unitDict, other.unitDict);
      if sum.None? {
        return Ok(None);
      }
      unitDict := sum.value;
      var copy := FromDict(unitDict);
      r := Ok(Some(copy));
    }

    /** `self + self`: the one object is reduced twice and its scalar doubled. */
    method AddSelf() returns (r: Result<Option<PhysQuant>>)
      requires Valid()
      modifies this
      ensures Valid()
      ensures var o := AddSelfSpec(old(State()));
        && State() == o.self
        && (r.Ok? <==> o.result.Ok?)
        && (r.Err? ==> r.error == o.result.error)
        && (r.Ok? ==> r.value.Some? && fresh(r.value.value) && r.value.value.State() == Quantity(o.result.value.value, false, false))
    {
      var e := Reduce();
      if e.Some? {
        return Err(e.value);
      }
      e := Reduce();
      assert e.None?;
      var sum := SumIfSameUnits(unitDict, unitDict);
      unitDict := sum.value;
      var copy := FromDict(unitDict);
      r := Ok(Some(copy));
    }

    /** `change_unit(target)` without a prefix: the target is interpreted, and with the same
        unit lists the scalar is expressed in it. */
    method ChangeUnit(target: string) returns (r: Result<Option<(real, string)>>)
      ensures r == ChangeUnitSpec(State(), target)
    {
      var c := Interpret([AStr(target)], []);
      if c.Err? {
        return Err(c.error);
      }
      var q := c.value;
      if !unitsFrozen && unitDict.num.units == q.dict.num.units && unitDict.denom.units == q.dict.denom.units {
        if q.dict.num.scalar == 0.0 {
          return Err(ZeroDivisionError);
        }
        return Ok(Some((unitDict.num.scalar / q.dict.num.scalar, target)));
      }
      r := Ok(None);
    }
  }

  /** The first loop of `reduce`, over the denominator atoms: each Ω/S is removed from a
      copy of the denominator and its reciprocal appended to the numerator, which fails
      (`moved` false) when the numerator is a frozen tuple. */
  method MoveReciprocals(num0: seq<string>, den: seq<string>, unitsFrozen: bool)
    returns (moved: bool, num: seq<string>, temp: seq<string>)
    ensures moved <==> !(unitsFrozen && HasReciprocal(den))
    ensures moved ==> num == num0 + Reciprocals(den) && temp == NonReciprocals(den)
  {
    temp := den;
    num := num0;
    var i := 0;
    while i < |den|
      invariant i <= |den|
      invariant temp == NonReciprocals(den[..i]) + den[i..]
      invariant num == num0 + Reciprocals(den[..i])
      invariant unitsFrozen ==> !HasReciprocal(den[..i])
    {
      var u := den[i];
      MoveStep(den, i);
      if IsReciprocal(u) {
        if unitsFrozen {
          assert u in den;
          return false, num, temp;
        }
        temp := RemoveFirst(temp, u);
        num := num + [Reciprocal(u)];
      }
      i := i + 1;
    }
    assert den[..i] == den && den[i..] == [];
    moved := true;
  }

  /** One step of the first loop of `reduce`, on the specification side. */
  lemma MoveStep(den: seq<string>, i: nat)
    requires i < |den|
    ensures var u := den[i];
      && Reciprocals(den[..i + 1]) == Reciprocals(den[..i]) + (if IsReciprocal(u) then [Reciprocal(u)] else [])
      && (HasReciprocal(den[..i + 1]) <==> HasReciprocal(den[..i]) || IsReciprocal(u))
      && (IsReciprocal(u) ==> RemoveFirst(NonReciprocals(den[..i]) + den[i..], u) == NonReciprocals(den[..i + 1]) + den[i + 1..])
      && (!IsReciprocal(u) ==> NonReciprocals(den[..i]) + den[i..] == NonReciprocals(den[..i + 1]) + den[i + 1..])
  {
    var u := den[i];
    var pre := den[..i + 1];
    assert pre == den[..i] + [u] && pre[..i] == den[..i] && pre[i] == u;
    assert den[i..] == [u] + den[i + 1..];
    if IsReciprocal(u) {
      RemoveFirstSkip(NonReciprocals(den[..i]), u, den[i + 1..]);
      assert NonReciprocals(den[..i]) + den[i..] == NonReciprocals(den[..i]) + [u] + den[i + 1..];
    } else {
      assert NonReciprocals(pre) == NonReciprocals(den[..i]) + [u];
    }
  }

  /** The second loop of `reduce`: the `for` walks the denominator list that its body
      removes from, cancelling each atom also found in the numerator. */
  method CancelShared(num: seq<string>, den: seq<string>) returns (n: seq<string>, m: seq<string>)
    ensures (n, m) == CancelWalk(num, den, 0)
  {
    n, m := num, den;
    var j := 0;
    while j < |m|
      invariant CancelWalk(n, m, j) == CancelWalk(num, den, 0)
      decreases |m| - j
    {
      var u := m[j];
      if u in n {
        n := RemoveFirst(n, u);
        m := RemoveFirst(m, u);
      }
      j := j + 1;
    }
  }

  /** `PhysQuant(*args, **kwargs)` / `pq(...)`. */
  method Pq(args: seq<Arg>, kwargs: seq<(string, KwValue)>) returns (r: Result<PhysQuant>)
    requires args != [] && args[0].AQuant? ==> (args[0].q.termsFrozen ==> args[0].q.unitsFrozen)
    ensures r.Ok? <==> InterpretSpec(args, kwargs).Ok?
    ensures r.Err? ==> r.error == InterpretSpec(args, kwargs).error
    ensures r.Ok? ==> fresh(r.value) && r.value.State() == InterpretSpec(args, kwargs).value
    ensures r.Ok? ==> r.value.Valid()
  {
    var q := Interpret(args, kwargs);
    if q.Err? {
      return Err(q.error);
    }
    var p := new PhysQuant.FromState(q.value);
    r := Ok(p);
  }

  /** `pq(**d)` for a dictionary built by the engine itself. */
  method FromDict(d: UnitDict) returns (p: PhysQuant)
    ensures fresh(p) && p.State() == Quantity(d, false, false) && p.Valid()
  {
    ExplicitParts(d);
    var r := Pq([], [("num", KwSeq(TermItems(d.num))), ("denom", KwSeq(TermItems(d.denom)))]);
    p := r.value;
  }

  /** The comparison inside `change_unit`, against the target's interpreted quantity `c`:
      `None` when the unit lists differ as written (or this quantity's are frozen tuples,
      which never equal a list), otherwise the scalar divided by the target's scalar. */
  function ConvertTo(q: Quantity, c: Quantity, target: string): (r: Result<Option<(real, string)>>)
    ensures r.Ok? && r.value.Some? <==>
      !q.unitsFrozen && q.dict.num.units == c.dict.num.units && q.dict.denom.units == c.dict.denom.units
        && c.dict.num.scalar != 0.0
    ensures r.Ok? && r.value.Some? ==>
      r.value.value.1 == target && r.value.value.0 * c.dict.num.scalar == q.dict.num.scalar
    ensures r.Err? ==> r.error == ZeroDivisionError
  {
    if !q.unitsFrozen && q.dict.num.units == c.dict.num.units && q.dict.denom.units == c.dict.denom.units then
      if c.dict.num.scalar == 0.0 then Err(ZeroDivisionError)
      else
        DivTimes(q.dict.num.scalar, c.dict.num.scalar);
        Ok(Some((q.dict.num.scalar / c.dict.num.scalar, target)))
    else Ok(None)
  }

  /** `change_unit(target)` without a prefix: the target string is interpreted like
      `pq(target)`, then compared. */
  function ChangeUnitSpec(q: Quantity, target: string): Result<Option<(real, string)>>
  {
    match InterpretSpec([AStr(target)], [])
    case Err(e) => Err(e)
    case Ok(c) => ConvertTo(q, c, target)
  }
}
