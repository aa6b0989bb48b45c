/** Free vectors: homogeneous tuples tagged w = 0. */
module Vectors {
  import opened Approx
  import Tuples

  datatype Vector = Vector(x: real, y: real, z: real, w: real)

  /** The homogeneous tag of a direction. */
  predicate IsDirection(v: Vector) {
    v.w == 0.0
  }

  /** `Vector3D::new` always tags its result as a direction. */
  function New(x: real, y: real, z: real): (v: Vector)
    ensures IsDirection(v)
    ensures v.x == x && v.y == y && v.z == z
  {
    Vector(x, y, z, 0.0)
  }

  /** The generic 4-tuple a vector stands for. */
  function ToTuple(v: Vector): Tuples.Tuple {
    Tuples.Tuple(v.x, v.y, v.z, v.w)
  }

  const Zero: Vector := New(0.0, 0.0, 0.0)

  function Add(a: Vector, b: Vector): (r: Vector)
    ensures IsDirection(r)
  {
    New(a.x + b.x, a.y + b.y, a.z + b.z)
  }

  /** Adding `b` back to the difference restores every direction `a`. */
  function Sub(a: Vector, b: Vector): (d: Vector)
    ensures IsDirection(d)
    ensures IsDirection(a) ==> Add(d, b) == a
  {
    New(a.x - b.x, a.y - b.y, a.z - b.z)
  }

  /** Negation flips x, y and z; the result is still a direction and the additive inverse. */
  function Neg(v: Vector): (n: Vector)
    ensures IsDirection(n)
    ensures Add(v, n) == Zero
  {
    New(-v.x, -v.y, -v.z)
  }

  /** The radicand of `magnitude`: x, y and z only. */
  function SumOfSquares(v: Vector): (s: real)
    ensures s >= 0.0
  {
    v.x * v.x + v.y * v.y + v.z * v.z
  }

  /** `PartialEq`: x, y and z strictly within EPSILON; w is not compared. */
  predicate Eq(a: Vector, b: Vector) {
    StrictlyWithin(a.x, b.x) && StrictlyWithin(a.y, b.y) && StrictlyWithin(a.z, b.z)
  }

  lemma AddCommutes(a: Vector, b: Vector)
    ensures Add(a, b) == Add(b, a)
  {
  }

  lemma NegInvolutive(v: Vector)
    requires IsDirection(v)
    ensures Neg(Neg(v)) == v
  {
  }

  /** Without the tag, double negation restores the vector up to its ignored w. */
  lemma NegInvolutiveUpToEq(v: Vector)
    ensures Eq(Neg(Neg(v)), v)
  {
    EqReflexive(v);
  }

  lemma SumOfSquaresIgnoresW(v: Vector, w: real)
    ensures SumOfSquares(v.(w := w)) == SumOfSquares(v)
  {
  }

  lemma NegPreservesSumOfSquares(v: Vector)
    ensures SumOfSquares(Neg(v)) == SumOfSquares(v)
  {
  }

  /** On directions the typed operations are the generic tuple operations. */
  lemma AgreesWithTuples(a: Vector, b: Vector)
    requires IsDirection(a) && IsDirection(b)
    ensures ToTuple(Add(a, b)) == Tuples.Add(ToTuple(a), ToTuple(b))
    ensures ToTuple(Sub(a, b)) == Tuples.Sub(ToTuple(a), ToTuple(b))
    ensures ToTuple(Neg(a)) == Tuples.Neg(ToTuple(a))
    ensures SumOfSquares(a) == Tuples.SumOfSquares(ToTuple(a))
  {
  }

  lemma EqReflexive(v: Vector)
    ensures Eq(v, v)
  {
    CloseReflexive(v.x);
    CloseReflexive(v.y);
    CloseReflexive(v.z);
  }

  lemma EqSymmetric(a: Vector, b: Vector)
    ensures Eq(a, b) <==> Eq(b, a)
  {
    CloseSymmetric(a.x, b.x);
    CloseSymmetric(a.y, b.y);
    CloseSymmetric(a.z, b.z);
  }

  lemma EqIgnoresW(v: Vector, w: real)
    ensures Eq(v, v.(w := w))
  {
    EqReflexive(v);
  }

  lemma AddExample()
    ensures Add(New(2.0, -4.0, 3.0), New(2.0, -4.0, 3.0)) == New(4.0, -8.0, 6.0)
  {
  }

  lemma SubExample()
    ensures Sub(New(3.0, 2.0, 1.0), New(5.0, 6.0, 7.0)) == New(-2.0, -4.0, -6.0)
  {
  }

  lemma NegExample()
    ensures Neg(New(3.0, -2.0, 1.0)) == New(-3.0, 2.0, -1.0)
  {
  }

  lemma SumOfSquaresExamples()
    ensures SumOfSquares(New(1.0, 0.0, 0.0)) == 1.0
    ensures SumOfSquares(New(0.0, 1.0, 0.0)) == 1.0
    ensures SumOfSquares(New(0.0, 0.0, 1.0)) == 1.0
    ensures SumOfSquares(New(1.0, 2.0, 3.0)) == 14.0
    ensures SumOfSquares(Neg(New(1.0, 2.0, 3.0))) == 14.0
  {
    assert Neg(New(1.0, 2.0, 3.0)) == New(-1.0, -2.0, -3.0);
    assert SumOfSquares(New(1.0, 2.0, 3.0)) == 1.0 * 1.0 + 2.0 * 2.0 + 3.0 * 3.0;
    assert SumOfSquares(New(-1.0, -2.0, -3.0)) == (-1.0) * (-1.0) + (-2.0) * (-2.0) + (-3.0) * (-3.0);
  }
}
