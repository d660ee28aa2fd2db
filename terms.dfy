/** The data model of a physical quantity: a `unit_dict` with a numerator and a denominator
    term, each `[scalar, [atoms], power]`. */
module Terms {

  /** The third slot of a term. It holds an integer power (1 or -1 as built), but a side of
      the input with more than two space-separated tokens leaves the third token there. */
  datatype Power = P(n: int) | Tok(word: string)

  /** One role of a quantity: its scalar, its unit atoms in order, and its power. */
  datatype Term = Term(scalar: real, units: seq<string>, power: Power)

  /** A quantity's `unit_dict`. */
  datatype UnitDict = UnitDict(num: Term, denom: Term)

  /** The dictionary every construction starts from: `1.0` with no units. */
  const Default: UnitDict := UnitDict(Term(1.0, [], P(1)), Term(1.0, [], P(-1)))

  /** A quantity built from a bare number `x` (`pq(x)`). */
  function NumberDict(x: real): UnitDict
  {
    UnitDict(Term(x, [], P(1)), Term(1.0, [], P(-1)))
  }

  /** A quantity's dictionary with how much of it `freeze` has turned into tuples: the two
      term lists (`termsFrozen`) and the two unit lists (`unitsFrozen`). */
  datatype Quantity = Quantity(dict: UnitDict, unitsFrozen: bool, termsFrozen: bool)

  /** The scalar slot as the parser leaves it: a number, or a token not yet converted. */
  datatype Scalar = Num(x: real) | Text(t: string)

  /** A term list as the parser builds it, `[scalar, units] + extra + [last]`: `extra` holds
      the tokens after the second one on a side of the input. */
  datatype RawTerm = RawTerm(scalar: Scalar, units: seq<string>, extra: seq<string>, last: Power)
  {
    /** `value[2]`, the slot the rest of the engine reads as the power. */
    function Slot2(): Power
    {
      if extra == [] then last else Tok(extra[0])
    }
  }

  datatype RawDict = RawDict(num: RawTerm, denom: RawTerm)
}
