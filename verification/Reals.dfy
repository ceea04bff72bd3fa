/** Magnitude and truncation of reals. */
module Reals {

  function Abs(x: real): real { if x < 0.0 then -x else x }

  /** A product that the verifier need not look into. */
  function Times(x: real, y: real): real { x * y }

  /** The C conversion from a floating-point number to an integer: towards zero. */
  function Trunc(x: real): int {
    if x >= 0.0 then x.Floor else -(-x).Floor
  }

  /** c is x without its fraction: as far from 0 as a whole number can be without passing x. */
  predicate TruncatesTo(x: real, c: int) {
    (x >= 0.0 ==> 0.0 <= c as real <= x < c as real + 1.0) && (x <= 0.0 ==> c as real - 1.0 < x <= c as real <= 0.0)
  }

  lemma TruncIs(x: real)
    ensures TruncatesTo(x, Trunc(x))
  {
  }

  lemma TruncBound(x: real)
    ensures Abs(Trunc(x) as real) <= Abs(x)
    ensures Abs(x) - Abs(Trunc(x) as real) < 1.0
  {
  }
}
