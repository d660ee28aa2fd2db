/** Reading a quantity string into its two raw terms: `parse_unit_string` splits a
    product of atoms on ".", and `id_scaled_unit` splits the input into numerator and
    denominator sides. */
module Parser {
  import opened Outcomes
  import opened Text
  import opened Terms

  // ---------------------------------------------------------------- parse_unit_string

  /** An atom whose last character is a digit greater than 1: `"cm2"` stands for two `"cm"`. */
  predicate Expandable(u: string)
  {
    |u| > 0 && '2' <= u[|u| - 1] <= '9'
  }

  function Stem(u: string): string
    requires |u| > 0
  {
    u[..|u| - 1]
  }

  function Copies(u: string): (n: nat)
    requires Expandable(u)
    ensures 2 <= n <= 9
  {
    DigitValue(u[|u| - 1])
  }

  /** The atoms an expandable atom is replaced by. */
  function Expansion(u: string): (r: seq<string>)
    requires Expandable(u)
    ensures |r| == Copies(u) >= 2
    ensures forall k :: 0 <= k < |r| ==> r[k] == Stem(u)
  {
    Repeat(Stem(u), Copies(u))
  }

  /** A termination measure for the expansion walk: an atom of length n weighs 10^n, so
      replacing it by at most nine atoms of length n-1 makes the list lighter. */
  function Weight(l: seq<string>): nat
  {
    if l == [] then 0 else Pow10(|l[0]|) + Weight(l[1..])
  }

  lemma {:induction false} WeightAppend(a: seq<string>, b: seq<string>)
    ensures Weight(a + b) == Weight(a) + Weight(b)
  {
    if a == [] {
      assert a + b == b;
    } else {
      WeightAppend(a[1..], b);
      assert (a + b)[1..] == a[1..] + b;
    }
  }

  lemma {:induction false} WeightRepeat(x: string, n: nat)
    ensures Weight(Repeat(x, n)) == n * Pow10(|x|)
  {
    if n > 0 {
      WeightRepeat(x, n - 1);
      WeightAppend(Repeat(x, n - 1), [x]);
      assert Weight([x]) == Pow10(|x|);
    }
  }

  lemma WeightTail(l: seq<string>, i: nat)
    requires i < |l|
    ensures Weight(l[i + 1..]) < Weight(l[i..])
  {
    assert l[i..][1..] == l[i + 1..];
  }

  /** The copies weigh less than the atom they replace. */
  lemma ExpansionLighter(u: string)
    requires Expandable(u)
    ensures Weight(Expansion(u)) < Pow10(|u|)
  {
    var n := |u| - 1;
    var p := Pow10(n);
    WeightRepeat(Stem(u), Copies(u));
    assert |Stem(u)| == n;
    assert Pow10(n + 1) == 10 * p;
    MulAtMostNine(Copies(u), p);
  }

  lemma MulAtMostNine(c: nat, p: nat)
    requires c <= 9
    ensures c * p <= 9 * p
  {
  }

  /** Expanding the atom at `i` and moving past the next position makes the list lighter. */
  lemma ExpandStepDecreases(l: seq<string>, i: nat)
    requires i < |l| && Expandable(l[i])
    ensures var l' := l[..i] + l[i + 1..] + Expansion(l[i]);
      i + 1 <= |l'| && Weight(l'[i + 1..]) < Weight(l[i..])
  {
    var x := Expansion(l[i]);
    var l' := l[..i] + l[i + 1..] + x;
    assert l'[i..] == l[i + 1..] + x;
    WeightAppend(l[i + 1..], x);
    ExpansionLighter(l[i]);
    WeightTail(l, i);
    WeightTail(l', i);
  }

  /** The walk of `parse_unit_string` from position `i` over the list it edits: an empty
      atom fails (`unit[-1]`), an expandable atom is popped and its copies appended, and the
      index always moves on by one, so the atom that slides into position `i` is skipped. */
  function ExpandFrom(l: seq<string>, i: nat): Result<seq<string>>
    requires i <= |l|
    decreases Weight(l[i..])
  {
    if i == |l| then Ok(l)
    else if l[i] == "" then Err(IndexError)
    else if Expandable(l[i]) then
      ExpandStepDecreases(l, i);
      ExpandFrom(l[..i] + l[i + 1..] + Expansion(l[i]), i + 1)
    else
      WeightTail(l, i);
      ExpandFrom(l, i + 1)
  }

  /** `parse_unit_string(s)`. */
  function ParseUnitStringSpec(s: string): (r: Result<seq<string>>)
    ensures s == "" ==> r == Ok([])
  {
    if s == "" then Ok([]) else ExpandFrom(Split(s, '.'), 0)
  }

  /** `parse_unit_string`, editing the list while it walks it. */
  method ParseUnitString(s: string) returns (r: Result<seq<string>>)
    ensures r == ParseUnitStringSpec(s)
  {
    if s == "" {
      return Ok([]);
    }
    var l := Split(s, '.');
    var i := 0;
    while i < |l|
      invariant i <= |l|
      invariant ExpandFrom(l, i) == ParseUnitStringSpec(s)
      decreases Weight(l[i..])
    {
      var u := l[i];
      if u == "" {
        return Err(IndexError);
      }
      if Expandable(u) {
        ExpandStepDecreases(l, i);
        var n := Copies(u);
        var stem := Stem(u);
        var l0 := l[..i] + l[i + 1..];
        l := l0;
        var k := 0;
        while k < n
          invariant k <= n
          invariant l == l0 + Repeat(stem, k)
        {
          l := l + [stem];
          k := k + 1;
        }
      } else {
        WeightTail(l, i);
      }
      i := i + 1;
    }
    return Ok(l);
  }

  /** The atoms of `l` that are kept as they are, in order. */
  function Plain(l: seq<string>): seq<string>
  {
    if l == [] then [] else (if Expandable(l[0]) then [] else [l[0]]) + Plain(l[1..])
  }

  /** The copies the expandable atoms of `l` become, in order. */
  function Expansions(l: seq<string>): seq<string>
  {
    if l == [] then [] else (if Expandable(l[0]) then Expansion(l[0]) else []) + Expansions(l[1..])
  }

  /** Inputs on which the walk's skipping does no harm: no empty atom, no two expandable
      atoms side by side, and every stem a non-empty atom that is not expandable itself. */
  predicate WellSpaced(l: seq<string>)
  {
    forall k :: 0 <= k < |l| ==>
      && l[k] != ""
      && (Expandable(l[k]) ==> Stem(l[k]) != "" && !Expandable(Stem(l[k])))
      && (Expandable(l[k]) && k + 1 < |l| ==> !Expandable(l[k + 1]))
  }

  /** Walking over atoms that need nothing leaves the list as it is. */
  lemma {:induction false} WalkPlain(l: seq<string>, i: nat)
    requires i <= |l|
    requires forall k :: i <= k < |l| ==> l[k] != "" && !Expandable(l[k])
    ensures ExpandFrom(l, i) == Ok(l)
    decreases |l| - i
  {
    if i < |l| {
      WalkPlain(l, i + 1);
    }
  }

  lemma PlainStep(l: seq<string>, i: nat)
    requires i < |l| && l[i] != "" && !Expandable(l[i])
    ensures ExpandFrom(l, i) == ExpandFrom(l, i + 1)
  {
  }

  lemma ExpandStep(l: seq<string>, i: nat)
    requires i < |l| && Expandable(l[i])
    ensures i + 1 <= |l[..i] + l[i + 1..] + Expansion(l[i])|
    ensures ExpandFrom(l, i) == ExpandFrom(l[..i] + l[i + 1..] + Expansion(l[i]), i + 1)
  {
    ExpandStepDecreases(l, i);
  }

  lemma WellSpacedTail(l: seq<string>, n: nat)
    requires WellSpaced(l) && n <= |l|
    ensures WellSpaced(l[n..])
  {
    forall k | 0 <= k < |l[n..]|
      ensures l[n..][k] == l[n + k]
    {
    }
  }

  lemma {:induction false} ExpandGeneral(done: seq<string>, rest: seq<string>, pending: seq<string>)
    requires WellSpaced(rest)
    requires forall k :: 0 <= k < |pending| ==> pending[k] != "" && !Expandable(pending[k])
    ensures ExpandFrom(done + rest + pending, |done|)
      == Ok(done + Plain(rest) + pending + Expansions(rest))
    decreases |rest|
  {
    var l := done + rest + pending;
    if rest == [] {
      assert l == done + pending;
      WalkPlain(l, |done|);
      assert Plain(rest) == [] && Expansions(rest) == [];
      assert done + Plain(rest) + pending + Expansions(rest) == l;
    } else if !Expandable(rest[0]) {
      ExpandGeneralPlainHead(done, rest, pending);
    } else {
      ExpandGeneralExpandableHead(done, rest, pending);
    }
  }

  lemma {:induction false} ExpandGeneralPlainHead(done: seq<string>, rest: seq<string>, pending: seq<string>)
    requires WellSpaced(rest) && rest != [] && !Expandable(rest[0])
    requires forall k :: 0 <= k < |pending| ==> pending[k] != "" && !Expandable(pending[k])
    ensures ExpandFrom(done + rest + pending, |done|)
      == Ok(done + Plain(rest) + pending + Expansions(rest))
    decreases |rest|, 0
  {
    var l := done + rest + pending;
    assert l[|done|] == rest[0];
    PlainStep(l, |done|);
    assert l == (done + [rest[0]]) + rest[1..] + pending;
    WellSpacedTail(rest, 1);
    ExpandGeneral(done + [rest[0]], rest[1..], pending);
    assert Plain(rest) == [rest[0]] + Plain(rest[1..]);
    assert Expansions(rest) == Expansions(rest[1..]);
    assert done + [rest[0]] + Plain(rest[1..]) == done + Plain(rest);
  }

  lemma {:induction false} ExpandGeneralExpandableHead(done: seq<string>, rest: seq<string>, pending: seq<string>)
    requires WellSpaced(rest) && rest != [] && Expandable(rest[0])
    requires forall k :: 0 <= k < |pending| ==> pending[k] != "" && !Expandable(pending[k])
    ensures ExpandFrom(done + rest + pending, |done|)
      == Ok(done + Plain(rest) + pending + Expansions(rest))
    decreases |rest|, 0
  {
    var u, tail := rest[0], rest[1..];
    assert rest == [u] + tail;
    assert Stem(u) != "" && !Expandable(Stem(u));
    assert Plain(rest) == Plain(tail);
    assert Expansions(rest) == Expansion(u) + Expansions(tail);
    if tail == [] {
      ExpandLast(done, u, pending);
      assert done + rest + pending == done + [u] + pending;
      assert done + Plain(rest) + pending + Expansions(rest) == done + pending + Expansion(u);
    } else {
      WellSpacedTail(rest, 1);
      ExpandThenSkip(done, u, tail, pending);
      assert done + rest + pending == done + [u] + tail + pending;
      assert done + Plain(tail) + pending + Expansion(u) + Expansions(tail)
        == done + Plain(rest) + pending + Expansions(rest);
    }
  }

  /** Expanding the atom at position `|done|` and moving on past it. */
  lemma ExpandStepAt(done: seq<string>, u: string, tail: seq<string>)
    requires Expandable(u)
    ensures ExpandFrom(done + [u] + tail, |done|) == ExpandFrom(done + tail + Expansion(u), |done| + 1)
  {
    var l := done + [u] + tail;
    assert l[|done|] == u;
    ExpandStep(l, |done|);
    assert l[..|done|] == done;
    assert l[|done| + 1..] == tail;
  }

  /** An expandable last atom: its copies go to the end and the walk stops there. */
  lemma ExpandLast(done: seq<string>, u: string, pending: seq<string>)
    requires Expandable(u) && Stem(u) != "" && !Expandable(Stem(u))
    requires forall k :: 0 <= k < |pending| ==> pending[k] != "" && !Expandable(pending[k])
    ensures ExpandFrom(done + [u] + pending, |done|) == Ok(done + pending + Expansion(u))
  {
    ExpandStepAt(done, u, pending);
    WalkPlain(done + pending + Expansion(u), |done| + 1);
  }

  /** After an expansion the walk steps over the next atom, which stays where it is. */
  lemma {:induction false} ExpandThenSkip(done: seq<string>, u: string, tail: seq<string>, pending: seq<string>)
    requires Expandable(u) && Stem(u) != "" && !Expandable(Stem(u))
    requires WellSpaced(tail) && tail != [] && !Expandable(tail[0])
    requires forall k :: 0 <= k < |pending| ==> pending[k] != "" && !Expandable(pending[k])
    ensures ExpandFrom(done + [u] + tail + pending, |done|)
      == Ok(done + Plain(tail) + pending + Expansion(u) + Expansions(tail))
    decreases |tail|, 1
  {
    var x := Expansion(u);
    assert done + [u] + tail + pending == done + [u] + (tail + pending);
    ExpandStepAt(done, u, tail + pending);
    WellSpacedTail(tail, 1);
    assert done + (tail + pending) + x == (done + [tail[0]]) + tail[1..] + (pending + x);
    ExpandGeneral(done + [tail[0]], tail[1..], pending + x);
    assert Plain(tail) == [tail[0]] + Plain(tail[1..]);
    assert Expansions(tail) == Expansions(tail[1..]);
    assert done + [tail[0]] + Plain(tail[1..]) + (pending + x) + Expansions(tail[1..])
      == done + Plain(tail) + pending + x + Expansions(tail);
  }

  /** What `parse_unit_string` promises on well-spaced input: the plain atoms in order,
      followed by every expansion in order. */
  lemma ParseWellSpaced(s: string)
    requires s != "" && WellSpaced(Split(s, '.'))
    ensures ParseUnitStringSpec(s) == Ok(Plain(Split(s, '.')) + Expansions(Split(s, '.')))
  {
    var l := Split(s, '.');
    ExpandGeneral([], l, []);
    assert [] + l + [] == l;
    assert [] + Plain(l) + [] + Expansions(l) == Plain(l) + Expansions(l);
  }

  /** Input without expandable or empty atoms is split on "." and nothing more, so joining
      the atoms with "." gives the input back. */
  lemma ParsePlain(s: string)
    requires s != ""
    requires forall k :: 0 <= k < |Split(s, '.')| ==>
      Split(s, '.')[k] != "" && !Expandable(Split(s, '.')[k])
    ensures ParseUnitStringSpec(s) == Ok(Split(s, '.'))
    ensures Join(Split(s, '.'), '.') == s
  {
    WalkPlain(Split(s, '.'), 0);
    JoinSplit(s, '.');
  }

  /** The skip: in `"cm2.m3"` the walk moves past `"m3"` after expanding `"cm2"`. */
  lemma ParseSkipsAfterExpansion()
    ensures ParseUnitStringSpec("cm2.m3") == Ok(["m3", "cm", "cm"])
  {
    assert "cm2.m3" == "cm2" + ['.'] + "m3";
    SplitAt("cm2", '.', "m3");
    SplitNoSep("m3", '.');
    var l := ["cm2", "m3"];
    assert Split("cm2.m3", '.') == l;
    assert Expandable(l[0]) && Copies(l[0]) == 2 && Stem(l[0]) == "cm";
    assert Expansion(l[0]) == ["cm", "cm"];
    var l' := l[..0] + l[1..] + ["cm", "cm"];
    assert l' == ["m3", "cm", "cm"];
    WalkPlain(l', 1);
  }

  /** `"cm2"` becomes two `"cm"` atoms. */
  lemma ParseSquare()
    ensures ParseUnitStringSpec("cm2") == Ok(["cm", "cm"])
  {
    SplitNoSep("cm2", '.');
    var l := ["cm2"];
    assert Expandable(l[0]) && Copies(l[0]) == 2 && Stem(l[0]) == "cm";
    assert Expansion(l[0]) == ["cm", "cm"];
    assert l[..0] + l[1..] + ["cm", "cm"] == ["cm", "cm"];
    WalkPlain(["cm", "cm"], 1);
  }

  // ---------------------------------------------------------------- id_scaled_unit

  /** `float(value[0])` for a scalar slot: a number is itself, a token is read. */
  function ScalarValue(s: Scalar): Option<real>
  {
    match s
    case Num(x) => Some(x)
    case Text(t) => ReadFloat(t)
  }

  /** One side of an input that contains "/", given its space-separated tokens. A single
      token is a number if its first character is a digit and atoms otherwise; with more
      tokens the first is the number, the second the atoms, and the rest stay in the list. */
  function SlashSide(tokens: seq<string>, power: int): (r: Result<RawTerm>)
    requires |tokens| >= 1
    ensures r.Ok? ==> r.value.last == P(power) && r.value.scalar.Num?
  {
    if |tokens| == 1 then
      if tokens[0] == "" then Err(IndexError)
      else if IsDigit(tokens[0][0]) then
        match ReadFloat(tokens[0])
        case None => Err(ValueError)
        case Some(x) => Ok(RawTerm(Num(x), [], [], P(power)))
      else
        match ParseUnitStringSpec(tokens[0])
        case Err(e) => Err(e)
        case Ok(u) => Ok(RawTerm(Num(1.0), u, [], P(power)))
    else
      match ReadFloat(tokens[0])
      case None => Err(ValueError)
      case Some(x) =>
        match ParseUnitStringSpec(tokens[1])
        case Err(e) => Err(e)
        case Ok(u) => Ok(RawTerm(Num(x), u, tokens[2..], P(power)))
  }

  /** The numerator of an input without "/": as `SlashSide`, except that with two or more
      tokens the first one is kept as text. */
  function PlainSide(tokens: seq<string>): (r: Result<RawTerm>)
    requires |tokens| >= 1
    ensures r.Ok? ==> r.value.last == P(1)
    ensures r.Ok? && r.value.scalar.Text? ==> |tokens| >= 2 && r.value.scalar.t == tokens[0]
  {
    if |tokens| == 1 then
      if tokens[0] == "" then Err(IndexError)
      else if IsDigit(tokens[0][0]) then
        match ReadFloat(tokens[0])
        case None => Err(ValueError)
        case Some(x) => Ok(RawTerm(Num(x), [], [], P(1)))
      else
        match ParseUnitStringSpec(tokens[0])
        case Err(e) => Err(e)
        case Ok(u) => Ok(RawTerm(Num(1.0), u, [], P(1)))
    else
      match ParseUnitStringSpec(tokens[1])
      case Err(e) => Err(e)
      case Ok(u) => Ok(RawTerm(Text(tokens[0]), u, tokens[2..], P(1)))
  }

  predicate EndsWithMinusOne(u: string)
  {
    |u| >= 2 && u[|u| - 2..] == "-1"
  }

  /** The denominator an input without "/" gets. */
  const MockDenominator: RawTerm := RawTerm(Num(1.0), [], [], P(-1))

  /** `id_scaled_unit(s)`. With "/", the first two parts (stripped) are read, the
      denominator before the numerator. Without "/", the denominator is `1.0` with no atoms;
      an atom ending in "-1" there is outside the model. */
  function IdScaledUnit(s: string): (r: Result<RawDict>)
    ensures r.Ok? ==> r.value.num.last == P(1)
    ensures '/' in s && r.Ok? ==> r.value.denom.last == P(-1) && r.value.num.scalar.Num? && r.value.denom.scalar.Num?
    ensures '/' !in s && r.Ok? ==>
      && r.value.denom == MockDenominator
      && forall k :: 0 <= k < |r.value.num.units| ==> !EndsWithMinusOne(r.value.num.units[k])
  {
    if '/' in s then
      var parts := Split(s, '/');
      match SlashSide(Split(Strip(parts[1]), ' '), -1)
      case Err(e) => Err(e)
      case Ok(den) =>
        match SlashSide(Split(Strip(parts[0]), ' '), 1)
        case Err(e) => Err(e)
        case Ok(num) => Ok(RawDict(num, den))
    else
      match PlainSide(Split(s, ' '))
      case Err(e) => Err(e)
      case Ok(num) =>
        if exists k :: 0 <= k < |num.units| && EndsWithMinusOne(num.units[k]) then Err(Unsupported)
        else Ok(RawDict(num, MockDenominator))
  }

  /** With "/", the numerator carries power 1 and the denominator power -1, both scalars are
      numbers, and a side that is a single token is a bare number or bare atoms. */
  lemma SlashSideShape(tokens: seq<string>, power: int)
    requires |tokens| >= 1 && SlashSide(tokens, power).Ok?
    ensures var t := SlashSide(tokens, power).value;
      t.last == P(power) && t.scalar.Num? && (t.extra != [] ==> |tokens| >= 3)
  {
  }

  lemma SlashRoles(s: string)
    requires '/' in s && IdScaledUnit(s).Ok?
    ensures var d := IdScaledUnit(s).value;
      && d.num.last == P(1) && d.denom.last == P(-1)
      && d.num.scalar.Num? && d.denom.scalar.Num?
      && (d.num.extra != [] ==> |Split(Strip(Split(s, '/')[0]), ' ')| >= 3)
      && (d.denom.extra != [] ==> |Split(Strip(Split(s, '/')[1]), ' ')| >= 3)
  {
    var parts := Split(s, '/');
    SlashSideShape(Split(Strip(parts[1]), ' '), -1);
    SlashSideShape(Split(Strip(parts[0]), ' '), 1);
  }

  /** A side that is one token starting with a digit is a bare number; one that starts
      otherwise is `1.0` times its atoms. */
  lemma SingleTokenSide(tok: string, power: int)
    requires tok != ""
    ensures IsDigit(tok[0]) && ReadFloat(tok).Some? ==>
      SlashSide([tok], power) == Ok(RawTerm(Num(ReadFloat(tok).value), [], [], P(power)))
    ensures !IsDigit(tok[0]) && ParseUnitStringSpec(tok).Ok? ==>
      SlashSide([tok], power) == Ok(RawTerm(Num(1.0), ParseUnitStringSpec(tok).value, [], P(power)))
  {
  }

  /** Without "/", the denominator is `(1.0, [], -1)` and the numerator has power 1. */
  lemma NoSlashDenominator(s: string)
    requires '/' !in s && IdScaledUnit(s).Ok?
    ensures IdScaledUnit(s).value.denom == RawTerm(Num(1.0), [], [], P(-1))
    ensures IdScaledUnit(s).value.num.last == P(1)
  {
  }

  /** Only the first two "/"-separated parts are read: anything after a second "/" is
      ignored. */
  lemma {:induction false} OnlyTwoParts(a: string, b: string, c: string)
    requires '/' !in a && '/' !in b
    ensures IdScaledUnit(a + "/" + b + "/" + c) == IdScaledUnit(a + "/" + b)
  {
    var s := a + "/" + b + "/" + c;
    var t := a + "/" + b;
    assert s == a + ['/'] + (b + ['/'] + c);
    assert t == a + ['/'] + b;
    SplitAt(a, '/', b + ['/'] + c);
    SplitAt(b, '/', c);
    SplitAt(a, '/', b);
    SplitNoSep(b, '/');
    assert s[|a|] == '/' && t[|a|] == '/';
    assert Split(s, '/')[0] == a == Split(t, '/')[0];
    assert Split(s, '/')[1] == b == Split(t, '/')[1];
    FirstTwoParts(s, t);
  }

  /** With "/", only the first two parts decide the result. */
  lemma FirstTwoParts(s: string, t: string)
    requires '/' in s && '/' in t
    requires Split(s, '/')[0] == Split(t, '/')[0] && Split(s, '/')[1] == Split(t, '/')[1]
    ensures IdScaledUnit(s) == IdScaledUnit(t)
  {
  }
}
