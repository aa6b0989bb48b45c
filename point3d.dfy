/** Affine points: homogeneous tuples tagged w = 1, and their mixed operations with vectors. */
module Points {
  import opened Approx
  import Tuples
  import Vectors

  datatype Point = Point(x: real, y: real, z: real, w: real)

  /** The homogeneous tag of a location. */
  predicate IsLocation(p: Point) {
    p.w == 1.0
  }

  /** `Point3D::new` always tags its result as a location. */
  function New(x: real, y: real, z: real): (p: Point)
    ensures IsLocation(p)
    ensures p.x == x && p.y == y && p.z == z
  {
    Point(x, y, z, 1.0)
  }

  /** The generic 4-tuple a point stands for. */
  function ToTuple(p: Point): Tuples.Tuple {
    Tuples.Tuple(p.x, p.y, p.z, p.w)
  }

  /** Point + Vector is a Point. */
  function AddVector(p: Point, v: Vectors.Vector): (r: Point)
    ensures IsLocation(r)
  {
    New(p.x + v.x, p.y + v.y, p.z + v.z)
  }

  /** Point - Vector is a Point, and adding the vector back restores a location. */
  function SubVector(p: Point, v: Vectors.Vector): (r: Point)
    ensures IsLocation(r)
    ensures IsLocation(p) ==> AddVector(r, v) == p
  {
    New(p.x - v.x, p.y - v.y, p.z - v.z)
  }

  /** Point - Point is a Vector: the displacement from `q` to `p`. */
  function SubPoint(p: Point, q: Point): (d: Vectors.Vector)
    ensures Vectors.IsDirection(d)
    ensures IsLocation(p) ==> AddVector(q, d) == p
  {
    Vectors.New(p.x - q.x, p.y - q.y, p.z - q.z)
  }

  /** `Add<Point3D> for Vector3D`: Vector + Point is a Point. */
  function VectorAddPoint(v: Vectors.Vector, p: Point): (r: Point)
    ensures IsLocation(r)
  {
    New(v.x + p.x, v.y + p.y, v.z + p.z)
  }

  /** `PartialEq`: x, y and z strictly within EPSILON; w is not compared. */
  predicate Eq(a: Point, b: Point) {
    StrictlyWithin(a.x, b.x) && StrictlyWithin(a.y, b.y) && StrictlyWithin(a.z, b.z)
  }

  /** Moving a location by a vector and back returns it exactly. */
  lemma AddThenSubVector(p: Point, v: Vectors.Vector)
    requires IsLocation(p)
    ensures SubVector(AddVector(p, v), v) == p
  {
  }

  /** For any point, even one whose w was altered, the round trip holds up to Eq. */
  lemma AddThenSubVectorUpToEq(p: Point, v: Vectors.Vector)
    ensures Eq(SubVector(AddVector(p, v), v), p)
  {
    EqReflexive(p);
  }

  lemma VectorAddPointCommutes(v: Vectors.Vector, p: Point)
    ensures VectorAddPoint(v, p) == AddVector(p, v)
  {
  }

  /** Subtracting points is anti-symmetric. */
  lemma SubPointAntisymmetric(p: Point, q: Point)
    ensures SubPoint(q, p) == Vectors.Neg(SubPoint(p, q))
  {
  }

  /** On tagged operands the typed operations are the generic tuple operations. */
  lemma AgreesWithTuples(p: Point, q: Point, v: Vectors.Vector)
    requires IsLocation(p) && IsLocation(q) && Vectors.IsDirection(v)
    ensures ToTuple(AddVector(p, v)) == Tuples.Add(ToTuple(p), Vectors.ToTuple(v))
    ensures ToTuple(SubVector(p, v)) == Tuples.Sub(ToTuple(p), Vectors.ToTuple(v))
    ensures Vectors.ToTuple(SubPoint(p, q)) == Tuples.Sub(ToTuple(p), ToTuple(q))
    ensures ToTuple(VectorAddPoint(v, p)) == Tuples.Add(Vectors.ToTuple(v), ToTuple(p))
  {
  }

  lemma EqReflexive(p: Point)
    ensures Eq(p, p)
  {
    CloseReflexive(p.x);
    CloseReflexive(p.y);
    CloseReflexive(p.z);
  }

  lemma EqSymmetric(a: Point, b: Point)
    ensures Eq(a, b) <==> Eq(b, a)
  {
    CloseSymmetric(a.x, b.x);
    CloseSymmetric(a.y, b.y);
    CloseSymmetric(a.z, b.z);
  }

  lemma EqIgnoresW(p: Point, w: real)
    ensures Eq(p, p.(w := w))
  {
    EqReflexive(p);
  }

  lemma AddVectorExample()
    ensures AddVector(New(2.0, -4.0, 3.0), Vectors.New(2.0, -4.0, 3.0)) == New(4.0, -8.0, 6.0)
    ensures VectorAddPoint(Vectors.New(2.0, -4.0, 3.0), New(2.0, -4.0, 3.0)) == New(4.0, -8.0, 6.0)
  {
  }

  lemma SubPointExample()
    ensures SubPoint(New(3.0, 2.0, 1.0), New(5.0, 6.0, 7.0)) == Vectors.New(-2.0, -4.0, -6.0)
  {
  }

  lemma SubVectorExample()
    ensures SubVector(New(3.0, 2.0, 1.0), Vectors.New(5.0, 6.0, 7.0)) == New(-2.0, -4.0, -6.0)
  {
  }
}
