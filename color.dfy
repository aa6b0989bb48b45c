/** RGB colours and their componentwise algebra. No clamping happens here. */
module Colors {
  import opened Approx

  /** `Color::new(r, g, b)`; channels are unbounded and may leave [0, 1]. */
  datatype Color = Color(r: real, g: real, b: real)

  /** `Color::default()`: black, the identity of `+` and the zero of `*`. */
  function Default(): (c: Color)
    ensures forall x :: Add(x, c) == x
    ensures forall x :: Hadamard(x, c) == c
  {
    Color(0.0, 0.0, 0.0)
  }

  function Add(a: Color, b: Color): Color {
    Color(a.r + b.r, a.g + b.g, a.b + b.b)
  }

  /** The difference is what has to be added to `b` to get back `a`. */
  function Sub(a: Color, b: Color): (d: Color)
    ensures Add(d, b) == a
  {
    Color(a.r - b.r, a.g - b.g, a.b - b.b)
  }

  /** `Mul<f64>`: scales every channel. */
  function Scale(c: Color, f: real): Color {
    Color(c.r * f, c.g * f, c.b * f)
  }

  /** `Mul<Color>`: the Hadamard (componentwise) product. */
  function Hadamard(a: Color, b: Color): Color {
    Color(a.r * b.r, a.g * b.g, a.b * b.b)
  }

  /** `PartialEq`: every channel within EPSILON, boundary included. */
  predicate Eq(a: Color, b: Color) {
    Within(a.r, b.r) && Within(a.g, b.g) && Within(a.b, b.b)
  }

  lemma SubUndoesAdd(a: Color, b: Color)
    ensures Sub(Add(a, b), b) == a
  {
  }

  lemma AddCommutes(a: Color, b: Color)
    ensures Add(a, b) == Add(b, a)
  {
  }

  lemma HadamardCommutes(a: Color, b: Color)
    ensures Hadamard(a, b) == Hadamard(b, a)
  {
  }

  /** Scaling by `f` is the Hadamard product with the grey (f, f, f). */
  lemma ScaleIsHadamardByGrey(c: Color, f: real)
    ensures Scale(c, f) == Hadamard(c, Color(f, f, f))
  {
  }

  lemma EqReflexive(c: Color)
    ensures Eq(c, c)
  {
    CloseReflexive(c.r);
    CloseReflexive(c.g);
    CloseReflexive(c.b);
  }

  lemma EqSymmetric(a: Color, b: Color)
    ensures Eq(a, b) <==> Eq(b, a)
  {
    CloseSymmetric(a.r, b.r);
    CloseSymmetric(a.g, b.g);
    CloseSymmetric(a.b, b.b);
  }

  /** The `colors_are_equal` test: a colour built twice from the same channels compares equal. */
  lemma EqExample()
    ensures Eq(Color(0.5, 0.25, 0.1), Color(0.5, 0.25, 0.1))
  {
    EqReflexive(Color(0.5, 0.25, 0.1));
  }

  /** The sum is not clamped: a red channel of 1.6 survives. */
  lemma AddExample()
    ensures Add(Color(0.9, 0.6, 0.75), Color(0.7, 0.1, 0.25)) == Color(1.6, 0.7, 1.0)
  {
  }

  lemma SubExample()
    ensures Sub(Color(0.9, 0.6, 0.75), Color(0.7, 0.1, 0.25)) == Color(0.2, 0.5, 0.5)
  {
  }

  lemma ScaleExample()
    ensures Scale(Color(0.2, 0.3, 0.4), 2.0) == Color(0.4, 0.6, 0.8)
  {
  }

  lemma HadamardExample()
    ensures Hadamard(Color(1.0, 0.2, 0.4), Color(0.9, 1.0, 1.0)) == Color(0.9, 0.2, 0.4)
  {
  }
}
