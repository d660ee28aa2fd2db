/** Building a quantity's dictionary from what `PhysQuant(...)` / `pq(...)` is given:
    `_make_dict` for a unit string, `conform_list` for an explicit `[scalar, units, power]`
    list, and `_interpret` for positional and keyword arguments. */
module Construction {
  import opened Outcomes
  import opened Text
  import opened Terms
  import opened Parser
  import opened Normalizer

  // ---------------------------------------------------------------- _make_dict

  /** `_make_dict(s)`: parse, clean the atoms, strip the prefixes, normalise the denominator. */
  function MakeDictSpec(s: string): (r: Result<UnitDict>)
    ensures r.Ok? ==> r.value.denom.scalar == 1.0
    ensures IdScaledUnit(s).Err? ==> r == Err(IdScaledUnit(s).error)
  {
    match IdScaledUnit(s)
    case Err(e) => Err(e)
    case Ok(raw) =>
      match ReplacePrefixSpec(CleanUnitSpec(raw))
      case Err(e) => Err(e)
      case Ok(p) => NormalizeRaw(p)
  }

  /** The unit-string pipeline run step by step. */
  method MakeDict(s: string) returns (r: Result<UnitDict>)
    ensures r == MakeDictSpec(s)
  {
    var raw := IdScaledUnit(s);
    if raw.Err? {
      return Err(raw.error);
    }
    var cleaned := CleanUnit(raw.value);
    var stripped := ReplacePrefix(cleaned);
    if stripped.Err? {
      return Err(stripped.error);
    }
    r := NormalizeRaw(stripped.value);
  }

  // ---------------------------------------------------------------- conform_list

  /** One element of a list given for `num` or `denom`: a float, an int, a string, a list of
      strings, or anything else. */
  datatype Item = INum(x: real) | IInt(n: int) | IStr(s: string) | IStrs(l: seq<string>) | IOther

  /** `list(s)` for a string: its characters, each a one-character string. */
  function Chars(s: string): (r: seq<string>)
    ensures |r| == |s| && forall k :: 0 <= k < |r| ==> r[k] == [s[k]]
  {
    if s == "" then [] else Chars(s[..|s| - 1]) + [[s[|s| - 1]]]
  }

  /** `conform_list(items)`: exactly three elements or `ValueError`; the units slot is copied
      with `list(...)`, which raises `TypeError` on a number and splits a string into its
      characters. A scalar that is not a number, and a power that is neither an int nor a
      string, are outside the model. */
  function ConformList(items: seq<Item>): (r: Result<Term>)
    ensures |items| != 3 ==> r == Err(ValueError)
    ensures |items| == 3 && (items[1].INum? || items[1].IInt?) ==> r == Err(TypeError)
    ensures r.Ok? ==> |items| == 3
    ensures r.Ok? && items[1].IStrs? ==> r.value.units == items[1].l
    ensures r.Ok? && items[1].IStr? ==>
      |r.value.units| == |items[1].s| && forall k :: 0 <= k < |items[1].s| ==> r.value.units[k] == [items[1].s[k]]
    ensures r.Ok? <==>
      && |items| == 3
      && (items[1].IStrs? || items[1].IStr?)
      && (items[0].INum? || items[0].IInt?)
      && (items[2].IInt? || items[2].IStr?)
    ensures r.Ok? && items[0].INum? ==> r.value.scalar == items[0].x
    ensures r.Ok? && items[0].IInt? ==> r.value.scalar == items[0].n as real
    ensures r.Ok? && items[2].IInt? ==> r.value.power == P(items[2].n)
    ensures r.Ok? && items[2].IStr? ==> r.value.power == Tok(items[2].s)
  {
    if |items| != 3 then Err(ValueError)
    else
      var units :=
        match items[1]
        case IStrs(l) => Ok(l)
        case IStr(s) => Ok(Chars(s))
        case INum(_) => Err(TypeError)
        case IInt(_) => Err(TypeError)
        case IOther => Err(Unsupported);
      var scalar :=
        match items[0]
        case INum(x) => Some(x)
        case IInt(n) => Some(n as real)
        case _ => None;
      var power :=
        match items[2]
        case IInt(n) => Some(P(n))
        case IStr(w) => Some(Tok(w))
        case _ => None;
      if units.Err? then Err(units.error)
      else if scalar.None? || power.None? then Err(Unsupported)
      else Ok(Term(scalar.value, units.value, power.value))
  }

  /** The list a term is written as: `[scalar, [atoms], power]`. */
  function TermItems(t: Term): seq<Item>
  {
    [INum(t.scalar), IStrs(t.units), match t.power case P(n) => IInt(n) case Tok(w) => IStr(w)]
  }

  /** `conform_list` gives back the term a list was written from. */
  lemma ConformTermItems(t: Term)
    ensures ConformList(TermItems(t)) == Ok(t)
  {
    var items := TermItems(t);
    assert items[1] == IStrs(t.units);
    match t.power
    case P(n) => assert items[2] == IInt(n);
    case Tok(w) => assert items[2] == IStr(w);
  }

  /** A string in the units slot becomes one atom per character: `"cm"` gives `c` and `m`. */
  lemma ConformSplitsString()
    ensures ConformList([INum(1.0), IStr("cm"), IInt(1)]) == Ok(Term(1.0, ["c", "m"], P(1)))
  {
    var c := Chars("cm");
    assert |c| == 2 && c[0] == "c" && c[1] == "m";
    assert c == ["c", "m"];
  }

  // ---------------------------------------------------------------- _interpret

  /** The first positional argument: a string, a `PhysQuant`, a number, or anything else. */
  datatype Arg = AStr(s: string) | AQuant(q: Quantity) | ANumber(x: real) | AOther

  /** A keyword argument's value: a string, a number (with the text `str` gives for it), a
      list or tuple, or anything else. */
  datatype KwValue = KwStr(s: string) | KwNumber(text: string) | KwSeq(items: seq<Item>) | KwOther

  function Fresh(r: Result<UnitDict>): (q: Result<Quantity>)
    ensures q.Ok? <==> r.Ok?
    ensures q.Ok? ==> q.value == Quantity(r.value, false, false)
    ensures q.Err? ==> q.error == r.error
  {
    match r
    case Err(e) => Err(e)
    case Ok(d) => Ok(Quantity(d, false, false))
  }

  /** The positional part of `_interpret`: only `args[0]` is looked at. A string starting
      with `**` is evaluated as Python source, which is outside the model. A `PhysQuant`
      hands over its dictionary, frozen parts included. */
  function FromArgs(args: seq<Arg>): (r: Result<Quantity>)
    ensures r.Ok? && (r.value.unitsFrozen || r.value.termsFrozen) ==> args != [] && args[0] == AQuant(r.value)
  {
    if args == [] then Ok(Quantity(Default, false, false))
    else
      match args[0]
      case AStr(s) => if StartsWith(s, "**") then Err(Unsupported) else Fresh(MakeDictSpec(s))
      case AQuant(q) => Ok(q)
      case ANumber(x) => Ok(Quantity(NumberDict(x), false, false))
      case AOther => Err(ValueError)
  }

  /** One keyword of `_interpret`. `num="..."` takes the numerator of the string's
      dictionary; `denom="..."` the denominator of `"1/" + ...`; a list or tuple goes
      through `conform_list`; any other value for these two raises `ValueError`. Any other
      keyword names a unit: the whole dictionary becomes `_make_dict(str(value) + " " +
      key)`. */
  function KwStep(d: UnitDict, key: string, v: KwValue): (r: Result<UnitDict>)
    ensures key == "num" && r.Ok? ==> r.value.denom == d.denom
    ensures key == "denom" && r.Ok? ==> r.value.num == d.num
  {
    if key == "num" || key == "denom" then
      match v
      case KwStr(s) =>
        if key == "num" then
          (match MakeDictSpec(s)
           case Err(e) => Err(e)
           case Ok(m) => Ok(d.(num := m.num)))
        else
          (match MakeDictSpec("1/" + s)
           case Err(e) => Err(e)
           case Ok(m) => Ok(d.(denom := m.denom)))
      case KwSeq(items) =>
        (match ConformList(items)
         case Err(e) => Err(e)
         case Ok(t) => Ok(if key == "num" then d.(num := t) else d.(denom := t)))
      case _ => Err(ValueError)
    else
      match v
      case KwStr(s) => MakeDictSpec(s + " " + key)
      case KwNumber(t) => MakeDictSpec(t + " " + key)
      case _ => Err(Unsupported)
  }

  /** The keywords folded in order over the default dictionary. */
  function KwFold(kwargs: seq<(string, KwValue)>): Result<UnitDict>
  {
    if kwargs == [] then Ok(Default)
    else
      match KwFold(kwargs[..|kwargs| - 1])
      case Err(e) => Err(e)
      case Ok(d) => KwStep(d, kwargs[|kwargs| - 1].0, kwargs[|kwargs| - 1].1)
  }

  /** `_interpret(*args, **kwargs)`: the positional argument first (its errors come first),
      then, when there are keywords, a fresh start from the default dictionary. */
  function InterpretSpec(args: seq<Arg>, kwargs: seq<(string, KwValue)>): (r: Result<Quantity>)
    ensures FromArgs(args).Err? ==> r == FromArgs(args)
    ensures kwargs == [] ==> r == FromArgs(args)
    ensures kwargs != [] && r.Ok? ==> !r.value.unitsFrozen && !r.value.termsFrozen
    ensures r.Ok? && (r.value.unitsFrozen || r.value.termsFrozen) ==> args != [] && args[0] == AQuant(r.value)
  {
    match FromArgs(args)
    case Err(e) => Err(e)
    case Ok(q) => if kwargs == [] then Ok(q) else Fresh(KwFold(kwargs))
  }

  /** `_interpret`: the positional argument first, then the loop over the keywords. */
  method Interpret(args: seq<Arg>, kwargs: seq<(string, KwValue)>) returns (r: Result<Quantity>)
    ensures r == InterpretSpec(args, kwargs)
  {
    r := FromArgsOf(args);
    if r.Err? || kwargs == [] {
      return;
    }
    var d := KwFoldOf(kwargs);
    r := Fresh(d);
  }

  /** The positional argument, with the unit-string pipeline run as a method. */
  method FromArgsOf(args: seq<Arg>) returns (r: Result<Quantity>)
    ensures r == FromArgs(args)
  {
    if args == [] {
      return Ok(Quantity(Default, false, false));
    }
    match args[0]
    case AStr(s) =>
      if StartsWith(s, "**") {
        return Err(Unsupported);
      }
      var m := MakeDict(s);
      r := Fresh(m);
    case AQuant(q) =>
      r := Ok(q);
    case ANumber(x) =>
      r := Ok(Quantity(NumberDict(x), false, false));
    case AOther =>
      r := Err(ValueError);
  }

  /** The loop over the keywords, in the order given; the first failing keyword stops it. */
  method KwFoldOf(kwargs: seq<(string, KwValue)>) returns (r: Result<UnitDict>)
    ensures r == KwFold(kwargs)
  {
    var d := Default;
    var i := 0;
    while i < |kwargs|
      invariant i <= |kwargs|
      invariant KwFold(kwargs[..i]) == Ok(d)
    {
      assert kwargs[..i + 1][..i] == kwargs[..i];
      var (key, v) := kwargs[i];
      var step := KwStepOf(d, key, v);
      if step.Err? {
        assert KwFold(kwargs[..i + 1]).Err?;
        KwFoldErrSticks(kwargs, i + 1);
        assert kwargs[..|kwargs|] == kwargs;
        return Err(step.error);
      }
      d := step.value;
      i := i + 1;
    }
    assert kwargs[..i] == kwargs;
    r := Ok(d);
  }

  /** One keyword, with the unit-string pipeline run as a method. */
  method KwStepOf(d: UnitDict, key: string, v: KwValue) returns (r: Result<UnitDict>)
    ensures r == KwStep(d, key, v)
  {
    if key == "num" || key == "denom" {
      match v
      case KwStr(s) =>
        var m := MakeDict(if key == "num" then s else "1/" + s);
        if m.Err? {
          return Err(m.error);
        }
        r := Ok(if key == "num" then d.(num := m.value.num) else d.(denom := m.value.denom));
      case KwSeq(items) =>
        var t := ConformList(items);
        if t.Err? {
          return Err(t.error);
        }
        r := Ok(if key == "num" then d.(num := t.value) else d.(denom := t.value));
      case _ =>
        r := Err(ValueError);
    } else {
      match v
      case KwStr(s) =>
        r := MakeDict(s + " " + key);
      case KwNumber(t) =>
        r := MakeDict(t + " " + key);
      case _ =>
        r := Err(Unsupported);
    }
  }

  /** Once a keyword fails, so does every longer run of keywords. */
  lemma {:induction false} KwFoldErrSticks(kwargs: seq<(string, KwValue)>, i: nat)
    requires i <= |kwargs| && KwFold(kwargs[..i]).Err?
    ensures KwFold(kwargs[..|kwargs|]) == Err(KwFold(kwargs[..i]).error)
    decreases |kwargs| - i
  {
    if i < |kwargs| {
      assert kwargs[..i + 1][..i] == kwargs[..i];
      KwFoldErrSticks(kwargs, i + 1);
    }
  }

  /** Positional arguments after the first are never looked at. */
  lemma ExtraArgsIgnored(args: seq<Arg>, kwargs: seq<(string, KwValue)>)
    requires |args| >= 1
    ensures InterpretSpec(args, kwargs) == InterpretSpec(args[..1], kwargs)
  {
  }

  /** When the positional argument is accepted, keywords replace it entirely. */
  lemma KeywordsOverride(args: seq<Arg>, kwargs: seq<(string, KwValue)>)
    requires FromArgs(args).Ok? && kwargs != []
    ensures InterpretSpec(args, kwargs) == InterpretSpec([], kwargs)
  {
  }

  /** `pq(**d)` on an explicit dictionary gives back that dictionary, unfrozen. */
  lemma ExplicitParts(d: UnitDict)
    ensures InterpretSpec([], [("num", KwSeq(TermItems(d.num))), ("denom", KwSeq(TermItems(d.denom)))])
      == Ok(Quantity(d, false, false))
  {
    var kw := [("num", KwSeq(TermItems(d.num))), ("denom", KwSeq(TermItems(d.denom)))];
    ConformTermItems(d.num);
    ConformTermItems(d.denom);
    assert kw[..1][..0] == [];
    assert KwFold(kw[..1]) == Ok(Default.(num := d.num));
    assert kw[..2][..1] == kw[..1] && kw[..2] == kw;
    assert KwFold(kw) == Ok(d);
  }

  /** A unit keyword is the same as writing the value before the unit: `pq(mV=10)` is
      `pq("10 mV")`. */
  lemma UnitKeyword(key: string, text: string)
    requires key != "num" && key != "denom" && !StartsWith(text + " " + key, "**")
    ensures InterpretSpec([], [(key, KwNumber(text))]) == InterpretSpec([AStr(text + " " + key)], [])
  {
    var kw := [(key, KwNumber(text))];
    var m := MakeDictSpec(text + " " + key);
    assert kw[..0] == [];
    assert KwStep(Default, key, KwNumber(text)) == m;
    assert KwFold(kw) == m;
    assert FromArgs([AStr(text + " " + key)]) == Fresh(m);
  }

  /** A later unit keyword discards everything the keywords before it built. */
  lemma LastUnitKeywordWins(kwargs: seq<(string, KwValue)>, key: string, v: KwValue)
    requires key != "num" && key != "denom" && KwFold(kwargs).Ok?
    ensures InterpretSpec([], kwargs + [(key, v)]) == InterpretSpec([], [(key, v)])
  {
    var all := kwargs + [(key, v)];
    assert all[..|all| - 1] == kwargs;
    assert [(key, v)][..0] == [];
  }

  /** `denom="..."` keeps only the atoms of the denominator: its scalar and any prefix
      factor end up in the numerator of the parsed `"1/..."`, which is thrown away. */
  lemma DenomKeywordKeepsOnlyUnits(s: string)
    requires InterpretSpec([], [("denom", KwStr(s))]).Ok?
    ensures var q := InterpretSpec([], [("denom", KwStr(s))]).value;
      && q.dict.num == Default.num && q.dict.denom.scalar == 1.0
      && q.dict.denom.units == MakeDictSpec("1/" + s).value.denom.units
  {
    var kw := [("denom", KwStr(s))];
    var m := MakeDictSpec("1/" + s);
    assert kw[..0] == [];
    assert KwFold(kw) == KwStep(Default, "denom", KwStr(s));
    assert m.Ok? && KwStep(Default, "denom", KwStr(s)) == Ok(Default.(denom := m.value.denom));
  }
}
