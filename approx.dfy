/** Approximate equality of real components, shared by every value type. */
module Approx {

  /** Rust's `f64::EPSILON`, that is 2^-52. The proofs use only that it is positive. */
  const EPSILON: real := 1.0 / 4503599627370496.0

  function Abs(x: real): (r: real)
    ensures r >= 0.0
    ensures r == x || r == -x
  {
    if x < 0.0 then -x else x
  }

  /** `|a - b| <= EPSILON`, the comparison colours use. */
  predicate Within(a: real, b: real) {
    Abs(a - b) <= EPSILON
  }

  /** `|a - b| < EPSILON`, the comparison tuples, points and vectors use. */
  predicate StrictlyWithin(a: real, b: real) {
    Abs(a - b) < EPSILON
  }

  lemma CloseReflexive(a: real)
    ensures Within(a, a) && StrictlyWithin(a, a)
  {
  }

  lemma CloseSymmetric(a: real, b: real)
    ensures Within(a, b) <==> Within(b, a)
    ensures StrictlyWithin(a, b) <==> StrictlyWithin(b, a)
  {
  }
}
