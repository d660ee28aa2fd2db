/** The Python `str` and `list` built-ins the engine relies on, over `string` (= `seq<char>`)
    and `seq<string>`: `split`, `join`, `strip`, `in`, `replace`, `list.remove`, `str(int)`
    and `float(token)`. */
module Text {
  import opened Outcomes

  predicate IsDigit(c: char) { '0' <= c <= '9' }

  predicate AllDigits(s: string) { forall i :: 0 <= i < |s| ==> IsDigit(s[i]) }

  function DigitValue(c: char): (d: nat)
    requires IsDigit(c)
    ensures d <= 9
  {
    c as int - '0' as int
  }

  function DigitChar(d: nat): (c: char)
    requires d <= 9
    ensures IsDigit(c) && DigitValue(c) == d
  {
    ('0' as int + d) as char
  }

  /** The characters `str.strip()` removes (the ASCII members of Python's whitespace set). */
  predicate IsSpace(c: char) {
    || c == ' ' || c == '\t' || c == '\n' || c == '\r'
    || c == '\U{000B}' || c == '\U{000C}'
    || ('\U{001C}' <= c <= '\U{001F}')
  }

  // ---------------------------------------------------------------- strip

  function StripLeft(s: string): (r: string)
    ensures |r| <= |s| && r == s[|s| - |r|..]
    ensures forall k :: 0 <= k < |s| - |r| ==> IsSpace(s[k])
    ensures r != [] ==> !IsSpace(r[0])
  {
    if |s| > 0 && IsSpace(s[0]) then StripLeft(s[1..]) else s
  }

  function StripRight(s: string): (r: string)
    ensures |r| <= |s| && r == s[..|r|]
    ensures forall k :: |r| <= k < |s| ==> IsSpace(s[k])
    ensures r != [] ==> !IsSpace(r[|r| - 1])
  {
    if |s| > 0 && IsSpace(s[|s| - 1]) then StripRight(s[..|s| - 1]) else s
  }

  /** `s.strip()`. */
  function Strip(s: string): string
  {
    StripRight(StripLeft(s))
  }

  /** A string that neither starts nor ends with whitespace is its own strip. */
  lemma StripUnpadded(s: string)
    requires s != [] && !IsSpace(s[0]) && !IsSpace(s[|s| - 1])
    ensures Strip(s) == s
  {
  }

  /** A leading space is stripped. */
  lemma StripLeadingSpace(s: string)
    requires s != [] && !IsSpace(s[0]) && !IsSpace(s[|s| - 1])
    ensures Strip(" " + s) == s
  {
    assert (" " + s)[1..] == s;
  }

  // ---------------------------------------------------------------- split and join

  /** `s.split(sep)` for a one-character separator: every piece, empty ones included. */
  function Split(s: string, sep: char): (r: seq<string>)
    ensures |r| >= 1
    ensures forall i :: 0 <= i < |r| ==> sep !in r[i]
    ensures sep in s <==> |r| >= 2
  {
    if |s| == 0 then [""]
    else
      var rest := Split(s[1..], sep);
      if s[0] == sep then [""] + rest else [[s[0]] + rest[0]] + rest[1..]
  }

  /** `sep.join(parts)`. */
  function Join(parts: seq<string>, sep: char): string
  {
    if |parts| == 0 then ""
    else if |parts| == 1 then parts[0]
    else parts[0] + [sep] + Join(parts[1..], sep)
  }

  /** A character that is neither the separator nor in any piece is not in the join. */
  lemma {:induction false} JoinAvoids(parts: seq<string>, sep: char, c: char)
    requires c != sep && forall i :: 0 <= i < |parts| ==> c !in parts[i]
    ensures c !in Join(parts, sep)
  {
    if |parts| > 1 {
      JoinAvoids(parts[1..], sep, c);
    }
  }

  /** A join starts with the first piece and ends with the last one. */
  lemma {:induction false} JoinEnds(parts: seq<string>, sep: char)
    requires |parts| >= 1 && forall i :: 0 <= i < |parts| ==> parts[i] != []
    ensures Join(parts, sep) != []
    ensures Join(parts, sep)[0] == parts[0][0]
    ensures Join(parts, sep)[|Join(parts, sep)| - 1] == parts[|parts| - 1][|parts[|parts| - 1]| - 1]
  {
    if |parts| > 1 {
      JoinEnds(parts[1..], sep);
    }
  }

  /** Joining the pieces of a split gives the string back. */
  lemma {:induction false} JoinSplit(s: string, sep: char)
    ensures Join(Split(s, sep), sep) == s
  {
    if |s| > 0 {
      var rest := Split(s[1..], sep);
      JoinSplit(s[1..], sep);
      if s[0] == sep {
        assert Join([""] + rest, sep) == "" + [sep] + Join(rest, sep);
        assert [s[0]] + s[1..] == s;
      } else {
        var r := [[s[0]] + rest[0]] + rest[1..];
        if |rest| == 1 {
          assert Join(r, sep) == [s[0]] + rest[0];
        } else {
          assert r[1..] == rest[1..];
          assert Join(rest, sep) == rest[0] + [sep] + Join(rest[1..], sep);
          assert Join(r, sep) == [s[0]] + rest[0] + [sep] + Join(rest[1..], sep);
        }
        assert [s[0]] + s[1..] == s;
      }
    }
  }

  lemma {:induction false} SplitNoSep(a: string, sep: char)
    requires sep !in a
    ensures Split(a, sep) == [a]
  {
    if |a| > 0 {
      SplitNoSep(a[1..], sep);
      assert [a[0]] + a[1..] == a;
    }
  }

  lemma {:induction false} SplitAt(a: string, sep: char, b: string)
    requires sep !in a
    ensures Split(a + [sep] + b, sep) == [a] + Split(b, sep)
  {
    if |a| == 0 {
      assert a + [sep] + b == [sep] + b;
      assert ([sep] + b)[1..] == b;
    } else {
      SplitAt(a[1..], sep, b);
      assert (a + [sep] + b)[1..] == a[1..] + [sep] + b;
      assert [a[0]] + a[1..] == a;
    }
  }

  /** Splitting a join of separator-free pieces gives the pieces back. */
  lemma {:induction false} SplitJoin(parts: seq<string>, sep: char)
    requires |parts| >= 1
    requires forall i :: 0 <= i < |parts| ==> sep !in parts[i]
    ensures Split(Join(parts, sep), sep) == parts
  {
    if |parts| == 1 {
      SplitNoSep(parts[0], sep);
    } else {
      SplitJoin(parts[1..], sep);
      SplitAt(parts[0], sep, Join(parts[1..], sep));
      assert [parts[0]] + parts[1..] == parts;
    }
  }

  // ---------------------------------------------------------------- searching and replacing

  predicate StartsWith(s: string, p: string) { |p| <= |s| && s[..|p|] == p }

  /** `sub in s`, equivalently `s.find(sub) >= 0`. */
  predicate Contains(s: string, sub: string)
    decreases |s|
  {
    |sub| <= |s| && (s[..|sub|] == sub || (|s| > 0 && Contains(s[1..], sub)))
  }

  lemma {:induction false} ContainsAt(s: string, sub: string, i: nat)
    requires i + |sub| <= |s| && s[i..i + |sub|] == sub
    ensures Contains(s, sub)
    decreases i
  {
    if i > 0 {
      assert s[1..][i - 1..i - 1 + |sub|] == s[i..i + |sub|];
      ContainsAt(s[1..], sub, i - 1);
    }
  }

  /** A string cannot contain a pattern that has a character the string lacks. */
  lemma {:induction false} NotContainsChar(s: string, sub: string, c: char)
    requires c in sub && c !in s
    ensures !Contains(s, sub)
    decreases |s|
  {
    if |sub| <= |s| && |s| > 0 {
      NotContainsChar(s[1..], sub, c);
    }
  }

  /** `s.replace(pat, rep)`: every non-overlapping occurrence, scanning left to right. */
  function ReplaceAll(s: string, pat: string, rep: string): (r: string)
    requires pat != []
    ensures !Contains(s, pat) ==> r == s
    decreases |s|
  {
    if |s| < |pat| then s
    else if s[..|pat|] == pat then rep + ReplaceAll(s[|pat|..], pat, rep)
    else [s[0]] + ReplaceAll(s[1..], pat, rep)
  }

  /** Replacing a one-character pattern by "" removes every occurrence of it and keeps
      every other character. */
  lemma {:induction false} ReplaceCharRemovesAll(s: string, c: char)
    ensures c !in ReplaceAll(s, [c], "")
    ensures forall x :: x != c ==> multiset(ReplaceAll(s, [c], ""))[x] == multiset(s)[x]
    decreases |s|
  {
    if |s| >= 1 {
      ReplaceCharRemovesAll(s[1..], c);
      assert s == [s[0]] + s[1..];
      assert s[..1] == [s[0]];
    }
  }

  // ---------------------------------------------------------------- list helpers

  /** `l.remove(x)`: drops the first element equal to `x` (the engine only calls it when one exists). */
  function RemoveFirst(l: seq<string>, x: string): (r: seq<string>)
    ensures |r| == if x in l then |l| - 1 else |l|
    ensures x !in l ==> r == l
  {
    if l == [] then []
    else if l[0] == x then l[1..]
    else
      assert l == [l[0]] + l[1..];
      [l[0]] + RemoveFirst(l[1..], x)
  }

  /** `remove` takes away exactly one `x` when there is one. */
  lemma {:induction false} RemoveFirstMultiset(l: seq<string>, x: string)
    requires x in l
    ensures multiset(RemoveFirst(l, x)) == multiset(l) - multiset{x}
  {
    assert l == [l[0]] + l[1..];
    if l[0] != x {
      RemoveFirstMultiset(l[1..], x);
    }
  }

  /** Every element except those equal to `x`, in order. */
  function RemoveAll(l: seq<string>, x: string): (r: seq<string>)
    ensures x !in r
    ensures forall y :: y != x ==> multiset(r)[y] == multiset(l)[y]
  {
    if l == [] then []
    else
      assert l == [l[0]] + l[1..];
      if l[0] == x then RemoveAll(l[1..], x)
      else [l[0]] + RemoveAll(l[1..], x)
  }

  lemma {:induction false} RemoveAllOfRemoveFirst(l: seq<string>, x: string)
    ensures RemoveAll(RemoveFirst(l, x), x) == RemoveAll(l, x)
  {
    if l != [] && l[0] != x {
      RemoveAllOfRemoveFirst(l[1..], x);
    }
  }

  /** Removing every `x` shortens the list by the number of `x`s in it. */
  lemma {:induction false} RemoveAllLength(l: seq<string>, x: string)
    ensures |RemoveAll(l, x)| == |l| - multiset(l)[x]
  {
    if l != [] {
      RemoveAllLength(l[1..], x);
      assert l == [l[0]] + l[1..];
    }
  }

  /** `remove` takes the first occurrence: one after a stretch without `x` is the one removed. */
  lemma {:induction false} RemoveFirstSkip(a: seq<string>, x: string, b: seq<string>)
    requires x !in a
    ensures RemoveFirst(a + [x] + b, x) == a + b
  {
    if a == [] {
      var l := a + [x] + b;
      assert l[0] == x && l[1..] == b;
    } else {
      RemoveFirstPast(a, x, b);
      RemoveFirstSkip(a[1..], x, b);
    }
  }

  /** One step of `remove` past a head that is not `x`. */
  lemma RemoveFirstPast(a: seq<string>, x: string, b: seq<string>)
    requires a != [] && a[0] != x
    ensures RemoveFirst(a + [x] + b, x) == [a[0]] + RemoveFirst(a[1..] + [x] + b, x)
    ensures a + b == [a[0]] + (a[1..] + b)
  {
    var l := a + [x] + b;
    assert l[0] == a[0];
    assert l[1..] == a[1..] + [x] + b;
  }

  lemma {:induction false} RemoveAllAbsent(l: seq<string>, x: string)
    requires x !in l
    ensures RemoveAll(l, x) == l
  {
    if l != [] {
      RemoveAllAbsent(l[1..], x);
    }
  }

  /** `n` copies of `x` in a row (`[x] * n`). */
  function Repeat(x: string, n: nat): (r: seq<string>)
    ensures |r| == n && forall i :: 0 <= i < n ==> r[i] == x
  {
    if n == 0 then [] else Repeat(x, n - 1) + [x]
  }

  // ---------------------------------------------------------------- numbers

  function Pow10(n: nat): (p: nat)
    ensures p >= 1
  {
    if n == 0 then 1 else 10 * Pow10(n - 1)
  }

  /** The value of a run of decimal digits. */
  function DigitsValue(s: string): nat
    requires AllDigits(s)
  {
    if s == [] then 0 else DigitsValue(s[..|s| - 1]) * 10 + DigitValue(s[|s| - 1])
  }

  /** `str(n)` for a natural number. */
  function NatToString(n: nat): (s: string)
    ensures |s| >= 1 && AllDigits(s)
  {
    if n < 10 then [DigitChar(n)] else NatToString(n / 10) + [DigitChar(n % 10)]
  }

  /** `str` and the digit reading undo each other. */
  lemma {:induction false} NatToStringValue(n: nat)
    ensures DigitsValue(NatToString(n)) == n
  {
    var s := NatToString(n);
    if n < 10 {
      assert s[..0] == [];
    } else {
      NatToStringValue(n / 10);
      assert s[..|s| - 1] == NatToString(n / 10);
    }
  }

  /** `str(n)` has one character exactly when `n` is below ten. */
  lemma NatToStringOneDigit(n: nat)
    requires 2 <= n <= 9
    ensures NatToString(n) == [DigitChar(n)]
  {
  }

  function IndexOfChar(s: string, c: char): (k: nat)
    ensures k <= |s|
    ensures k < |s| ==> s[k] == c
    ensures forall i :: 0 <= i < k ==> s[i] != c
  {
    if s == [] then 0 else if s[0] == c then 0 else 1 + IndexOfChar(s[1..], c)
  }

  predicate IsExpMark(c: char) { c == 'e' || c == 'E' }

  function IndexOfExp(s: string): (k: nat)
    ensures k <= |s|
    ensures k < |s| ==> IsExpMark(s[k])
    ensures forall i :: 0 <= i < k ==> !IsExpMark(s[i])
  {
    if s == [] then 0 else if IsExpMark(s[0]) then 0 else 1 + IndexOfExp(s[1..])
  }

  /** Digits with at most one '.', and at least one digit. */
  function ReadMantissa(m: string): Option<real>
  {
    var d := IndexOfChar(m, '.');
    var whole := m[..d];
    var frac := if d < |m| then m[d + 1..] else "";
    if AllDigits(whole) && AllDigits(frac) && |whole| + |frac| >= 1 then
      Some(DigitsValue(whole) as real + DigitsValue(frac) as real / Pow10(|frac|) as real)
    else None
  }

  /** An optional sign followed by at least one digit. */
  function ReadExponent(e: string): Option<int>
  {
    var neg := |e| > 0 && e[0] == '-';
    var digits := if |e| > 0 && (e[0] == '-' || e[0] == '+') then e[1..] else e;
    if digits != [] && AllDigits(digits) then
      Some(if neg then -(DigitsValue(digits) as int) else DigitsValue(digits))
    else None
  }

  function Scale10(x: real, e: int): real
  {
    if e >= 0 then x * Pow10(e) as real else x / Pow10(-e) as real
  }

  function ReadUnsigned(s: string): Option<real>
  {
    var k := IndexOfExp(s);
    if k == |s| then ReadMantissa(s)
    else
      match (ReadMantissa(s[..k]), ReadExponent(s[k + 1..]))
      case (Some(x), Some(e)) => Some(Scale10(x, e))
      case _ => None
  }

  /** Python's `float(token)` on decimal notation: an optional sign, digits with at most
      one '.', and an optional exponent. */
  function ReadFloat(s: string): Option<real>
  {
    if |s| > 0 && (s[0] == '+' || s[0] == '-') then
      match ReadUnsigned(s[1..])
      case Some(x) => Some(if s[0] == '-' then -x else x)
      case None => None
    else ReadUnsigned(s)
  }

  /** A run of digits reads as its value. */
  lemma ReadFloatDigits(s: string)
    requires s != [] && AllDigits(s)
    ensures ReadFloat(s) == Some(DigitsValue(s) as real)
  {
    ReadMantissaDigits(s);
    assert IndexOfExp(s) == |s|;
    assert IsDigit(s[0]);
  }

  lemma ReadMantissaDigits(m: string)
    requires m != [] && AllDigits(m)
    ensures ReadMantissa(m) == Some(DigitsValue(m) as real)
  {
    var d := IndexOfChar(m, '.');
    assert d == |m|;
    assert m[..d] == m;
    assert AllDigits("") && DigitsValue("") == 0 && Pow10(0) == 1;
  }
}
