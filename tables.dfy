/** The engine's two fixed lookup tables and its special atoms. Python dictionaries keep
    insertion order, and the engine relies on it, so each table is an ordered sequence. */
module Tables {
  import opened Text

  /** The ohm atom is U+2126 OHM SIGN. */
  const OHM: string := "\U{2126}"
  const SIEMENS: string := "S"
  /** The micro prefix is U+03BC GREEK SMALL LETTER MU. */
  const MICRO: char := '\U{03BC}'

  /** `better_unit`: alias -> preferred spelling, in insertion order. */
  const BetterUnit: seq<(string, string)> := [
    ("ohm", OHM), ("Ohm", OHM), ("ohms", OHM), ("Ohms", OHM),
    ("Amp", "A"), ("amp", "A"), ("Amps", "A"), ("amps", "A"),
    ("mole", "mol"), ("moles", "mol"), ("liter", "l"),
    ("Liter", "l"), ("liters", "l"), ("L", "l"), ("second", "sec"),
    ("gram", "g"), ("q", "coul"), ("Q", "coul")
  ]

  /** The values of `better_unit`: the atoms the normalizer leaves alone. */
  predicate IsCanonical(u: string)
  {
    u == OHM || u == "A" || u == "mol" || u == "l" || u == "sec" || u == "g" || u == "coul"
  }

  /** `IsCanonical` is exactly membership in the values of `better_unit`. */
  lemma CanonicalAreValues(u: string)
    ensures IsCanonical(u) <==> exists i :: 0 <= i < |BetterUnit| && BetterUnit[i].1 == u
  {
    if IsCanonical(u) {
      var i := if u == OHM then 0 else if u == "A" then 4 else if u == "mol" then 8
        else if u == "l" then 10 else if u == "sec" then 14 else if u == "g" then 15 else 16;
      assert BetterUnit[i].1 == u;
    }
  }

  /** Every alias is a non-empty string. */
  lemma AliasesNonEmpty()
    ensures forall i :: 0 <= i < |BetterUnit| ==> BetterUnit[i].0 != []
  {
  }

  /** `prefix`: prefix character -> factor, in insertion order. The factors are the exact
      decimal values the literals denote. */
  const Prefixes: seq<(char, real)> := [
    ('m', 0.001), ('u', 0.000001), ('n', 0.000000001), ('p', 0.000000000001),
    ('f', 0.000000000000001), ('K', 1000.0), ('M', 1000000.0), ('G', 1000000000.0),
    (MICRO, 0.000001), ('c', 0.01), ('k', 1000.0), ('a', 0.000000000000000001)
  ]

  /** Every factor is positive. */
  lemma FactorsPositive()
    ensures forall i :: 0 <= i < |Prefixes| ==> Prefixes[i].1 > 0.0
  {
  }

  predicate IsCelsius(u: string) { u == "oC" || u == "C" || u == "Celsius" }

  predicate IsFahrenheit(u: string) { u == "oF" || u == "Fahrenheit" }

  /** The temperature atoms the normalizer converts to kelvins. */
  predicate IsTemperature(u: string) { IsCelsius(u) || IsFahrenheit(u) }
}
