/** Generic homogeneous 4-tuples (x, y, z, w); every operation acts on w too. */
module Tuples {
  import opened Approx

  /** `Tuple3D::new(x, y, z, w)`. */
  datatype Tuple = Tuple(x: real, y: real, z: real, w: real)

  const Zero: Tuple := Tuple(0.0, 0.0, 0.0, 0.0)

  function Add(a: Tuple, b: Tuple): Tuple {
    Tuple(a.x + b.x, a.y + b.y, a.z + b.z, a.w + b.w)
  }

  /** The difference is what has to be added to `b` to get back `a`. */
  function Sub(a: Tuple, b: Tuple): (d: Tuple)
    ensures Add(d, b) == a
  {
    Tuple(a.x - b.x, a.y - b.y, a.z - b.z, a.w - b.w)
  }

  /** Negation flips all four components; it is the additive inverse. */
  function Neg(t: Tuple): (n: Tuple)
    ensures Add(t, n) == Zero
  {
    Tuple(-t.x, -t.y, -t.z, -t.w)
  }

  /** `Mul<f64>`. */
  function Scale(t: Tuple, f: real): Tuple {
    Tuple(t.x * f, t.y * f, t.z * f, t.w * f)
  }

  /** `Div<f64>`; scaling the quotient back by `f` restores `t`. */
  function Div(t: Tuple, f: real): (q: Tuple)
    requires f != 0.0
    ensures Scale(q, f) == t
  {
    Tuple(t.x / f, t.y / f, t.z / f, t.w / f)
  }

  /** `dot` as written: the w components are added, not multiplied. */
  function Dot(a: Tuple, b: Tuple): real {
    a.x * b.x + a.y * b.y + a.z * b.z + (a.w + b.w)
  }

  /** The dot product with `w1 * w2`, the evidently intended definition. */
  function DotProduct(a: Tuple, b: Tuple): real {
    a.x * b.x + a.y * b.y + a.z * b.z + a.w * b.w
  }

  /** The radicand of `magnitude`: the squares of all four components. */
  function SumOfSquares(t: Tuple): (s: real)
    ensures s >= 0.0
  {
    t.x * t.x + t.y * t.y + t.z * t.z + t.w * t.w
  }

  /** `PartialEq`: all four components strictly within EPSILON. */
  predicate Eq(a: Tuple, b: Tuple) {
    StrictlyWithin(a.x, b.x) && StrictlyWithin(a.y, b.y) &&
    StrictlyWithin(a.z, b.z) && StrictlyWithin(a.w, b.w)
  }

  lemma SubUndoesAdd(a: Tuple, b: Tuple)
    ensures Sub(Add(a, b), b) == a
  {
  }

  lemma NegInvolutive(t: Tuple)
    ensures Neg(Neg(t)) == t
  {
  }

  lemma NegIsScaleByMinusOne(t: Tuple)
    ensures Neg(t) == Scale(t, -1.0)
  {
  }

  lemma DivIsScaleByReciprocal(t: Tuple, f: real)
    requires f != 0.0
    ensures Div(t, f) == Scale(t, 1.0 / f)
  {
  }

  lemma DotSymmetric(a: Tuple, b: Tuple)
    ensures Dot(a, b) == Dot(b, a)
  {
  }

  /** On tuples with w = 0 the written `dot` is the ordinary 3-D dot product. */
  lemma DotOfDirections(a: Tuple, b: Tuple)
    requires a.w == 0.0 && b.w == 0.0
    ensures Dot(a, b) == a.x * b.x + a.y * b.y + a.z * b.z
    ensures Dot(a, b) == DotProduct(a, b)
  {
  }

  /** The written `dot` disagrees with `magnitude`: for (0, 0, 0, 1) it gives 2, not 1. */
  lemma DotAsWrittenIsNotSumOfSquares()
    ensures Dot(Tuple(0.0, 0.0, 0.0, 1.0), Tuple(0.0, 0.0, 0.0, 1.0)) == 2.0
    ensures SumOfSquares(Tuple(0.0, 0.0, 0.0, 1.0)) == 1.0
  {
  }

  /** The written `dot` of anything with Zero need not be 0: here it is 1. */
  lemma DotAsWrittenWithZero()
    ensures Dot(Tuple(0.0, 0.0, 0.0, 1.0), Zero) == 1.0
  {
  }

  /** The corrected dot product: a tuple dotted with itself is its squared magnitude. */
  lemma DotProductOfSelf(t: Tuple)
    ensures DotProduct(t, t) == SumOfSquares(t)
  {
  }

  /** The corrected dot product is bilinear and symmetric. */
  lemma DotProductBilinear(a: Tuple, b: Tuple, c: Tuple, f: real)
    ensures DotProduct(a, b) == DotProduct(b, a)
    ensures DotProduct(Add(a, b), c) == DotProduct(a, c) + DotProduct(b, c)
    ensures DotProduct(Scale(a, f), b) == f * DotProduct(a, b)
    ensures DotProduct(a, Zero) == 0.0
  {
  }

  lemma NegPreservesSumOfSquares(t: Tuple)
    ensures SumOfSquares(Neg(t)) == SumOfSquares(t)
  {
  }

  lemma EqReflexive(t: Tuple)
    ensures Eq(t, t)
  {
    CloseReflexive(t.x);
    CloseReflexive(t.y);
    CloseReflexive(t.z);
    CloseReflexive(t.w);
  }

  lemma EqSymmetric(a: Tuple, b: Tuple)
    ensures Eq(a, b) <==> Eq(b, a)
  {
    CloseSymmetric(a.x, b.x);
    CloseSymmetric(a.y, b.y);
    CloseSymmetric(a.z, b.z);
    CloseSymmetric(a.w, b.w);
  }

  /** A difference of one EPSILON in w already breaks equality. */
  lemma EqComparesW(t: Tuple)
    ensures !Eq(t, t.(w := t.w + EPSILON))
  {
  }

  lemma AddExample()
    ensures Add(Tuple(1.0, 2.0, 3.0, 4.0), Tuple(1.0, 2.0, 3.0, 4.0)) == Tuple(2.0, 4.0, 6.0, 8.0)
  {
  }

  lemma NegExample()
    ensures Neg(Tuple(1.0, 2.0, 3.0, -4.0)) == Tuple(-1.0, -2.0, -3.0, 4.0)
  {
  }

  lemma ScaleExamples()
    ensures Scale(Tuple(1.0, -2.0, 3.0, -4.0), 3.5) == Tuple(3.5, -7.0, 10.5, -14.0)
    ensures Scale(Tuple(1.0, -2.0, 3.0, -4.0), 0.5) == Tuple(0.5, -1.0, 1.5, -2.0)
  {
  }

  lemma DivExample()
    ensures Div(Tuple(1.0, -2.0, 3.0, -4.0), 2.0) == Tuple(0.5, -1.0, 1.5, -2.0)
  {
  }

  lemma DotExample()
    ensures Dot(Tuple(1.0, 2.0, 3.0, 0.0), Tuple(2.0, 3.0, 4.0, 0.0)) == 20.0
  {
  }
}
