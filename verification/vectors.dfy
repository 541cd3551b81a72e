/**
  Exact three-dimensional vectors over `real`, standing in for Unity's `Vector3`,
  together with the engine's vector maths that the model keeps abstract.
 */
module Vectors {

  datatype Vec3 = Vec3(x: real, y: real, z: real)

  const Zero: Vec3 := Vec3(0.0, 0.0, 0.0)
  const Up: Vec3 := Vec3(0.0, 1.0, 0.0)
  const Forward: Vec3 := Vec3(0.0, 0.0, 1.0)
  const Back: Vec3 := Vec3(0.0, 0.0, -1.0)

  function Add(a: Vec3, b: Vec3): Vec3 {
    Vec3(a.x + b.x, a.y + b.y, a.z + b.z)
  }

  function Sub(a: Vec3, b: Vec3): Vec3 {
    Vec3(a.x - b.x, a.y - b.y, a.z - b.z)
  }

  function Scale(a: Vec3, k: real): Vec3 {
    Vec3(a.x * k, a.y * k, a.z * k)
  }

  /** `(a + b) * 0.5` */
  function Midpoint(a: Vec3, b: Vec3): Vec3 {
    Scale(Add(a, b), 0.5)
  }

  /** `a * 2 - b`: the reflection of `b` through `a`. */
  function Reflect(a: Vec3, b: Vec3): Vec3 {
    Sub(Scale(a, 2.0), b)
  }

  function SqMagnitude(a: Vec3): real {
    a.x * a.x + a.y * a.y + a.z * a.z
  }

  /** Squared length of the x/z part of a velocity. */
  function HorizontalSqMagnitude(a: Vec3): real {
    a.x * a.x + a.z * a.z
  }

  /**
    Vector maths the engine performs in floating point: `Vector3.normalized` and
    `Vector3.magnitude`. The model passes them around as values, so every result
    that depends on them holds for any choice of these two functions.
   */
  datatype Geometry = Geometry(normalized: Vec3 -> Vec3, magnitude: Vec3 -> real)

  /** The magnitude oracle is the true Euclidean length. */
  ghost predicate ExactMagnitude(geo: Geometry) {
    forall v :: 0.0 <= geo.magnitude(v) && geo.magnitude(v) * geo.magnitude(v) == SqMagnitude(v)
  }

  /** The normalisation oracle returns a unit vector for every non-zero vector. */
  ghost predicate UnitNormalized(geo: Geometry) {
    forall v :: SqMagnitude(v) != 0.0 ==> SqMagnitude(geo.normalized(v)) == 1.0
  }

  lemma SqMagnitudeNonNegative(a: Vec3)
    ensures 0.0 <= SqMagnitude(a)
    ensures HorizontalSqMagnitude(a) <= SqMagnitude(a)
  {
  }

  lemma ScaleSqMagnitude(a: Vec3, k: real)
    ensures SqMagnitude(Scale(a, k)) == k * k * SqMagnitude(a)
  {
    calc {
      SqMagnitude(Scale(a, k));
      (a.x * k) * (a.x * k) + (a.y * k) * (a.y * k) + (a.z * k) * (a.z * k);
      { assert (a.x * k) * (a.x * k) == k * k * (a.x * a.x);
        assert (a.y * k) * (a.y * k) == k * k * (a.y * a.y);
        assert (a.z * k) * (a.z * k) == k * k * (a.z * a.z); }
      k * k * (a.x * a.x) + k * k * (a.y * a.y) + k * k * (a.z * a.z);
      k * k * SqMagnitude(a);
    }
  }
}

/** Success/failure results for operations whose source throws. */
module Results {
  datatype Result<T, E> = Ok(value: T) | Err(error: E)

  /** A reference that may be null. */
  datatype Option<T> = None | Some(value: T)
}
