/** Vectors over the reals and the few glm operations the collision and physics code
    uses. Floating point is modelled by `real`; every operation here is exact. */
module Geometry {

  /** The largest finite single-precision float, std::numeric_limits<float>::max(). */
  const FloatMax: real := 340282346638528859811704183484516925440.0

  /** A real that is never negative (the result type of the length oracles). */
  type NonNegReal = r: real | r >= 0.0

  datatype Vec3 = Vec3(x: real, y: real, z: real)

  datatype Vec2 = Vec2(x: real, z: real)

  const Zero: Vec3 := Vec3(0.0, 0.0, 0.0)

  function Add(a: Vec3, b: Vec3): Vec3 { Vec3(a.x + b.x, a.y + b.y, a.z + b.z) }

  function Sub(a: Vec3, b: Vec3): Vec3 { Vec3(a.x - b.x, a.y - b.y, a.z - b.z) }

  function Neg(a: Vec3): Vec3 { Vec3(-a.x, -a.y, -a.z) }

  function Scale(k: real, a: Vec3): Vec3 { Vec3(k * a.x, k * a.y, k * a.z) }

  function Dot(a: Vec3, b: Vec3): real { a.x * b.x + a.y * b.y + a.z * b.z }

  function Cross(a: Vec3, b: Vec3): Vec3 {
    Vec3(a.y * b.z - a.z * b.y, a.z * b.x - a.x * b.z, a.x * b.y - a.y * b.x)
  }

  /** The squared Euclidean length. */
  function SqNorm(a: Vec3): real { Dot(a, a) }

  /** Component `i` (0, 1 or 2) of a vector, as glm's operator[]. */
  function Component(a: Vec3, i: nat): real
    requires i < 3
  {
    if i == 0 then a.x else if i == 1 then a.y else a.z
  }

  /** glm::length has no closed form over the reals that the solver handles well;
      it is a parameter of this type wherever the code compares lengths. */
  type LengthFn = Vec3 -> NonNegReal

  /** The absolute value of a real. */
  function Abs(r: real): NonNegReal {
    if r < 0.0 then -r else r
  }

  /** An axis-aligned bounding box given by its two corners. */
  datatype Aabb = Aabb(minimum: Vec3, maximum: Vec3)

  /** Closed-interval overlap on every axis, as collision::overlaps. */
  predicate Overlaps(a: Aabb, b: Aabb) {
    && a.minimum.x <= b.maximum.x && b.minimum.x <= a.maximum.x
    && a.minimum.y <= b.maximum.y && b.minimum.y <= a.maximum.y
    && a.minimum.z <= b.maximum.z && b.minimum.z <= a.maximum.z
  }

  /** `p` lies inside `box`, component-wise. */
  predicate Contains(box: Aabb, p: Vec3) {
    && box.minimum.x <= p.x <= box.maximum.x
    && box.minimum.y <= p.y <= box.maximum.y
    && box.minimum.z <= p.z <= box.maximum.z
  }

  /** (a x b) . b == 0 and (b x a) . b == 0. */
  lemma TripleProductZero(a: Vec3, b: Vec3)
    ensures Dot(Cross(a, b), b) == 0.0
    ensures Dot(Cross(b, a), b) == 0.0
  {
  }

  /** a . (b x c) is invariant under cyclic shifts. */
  lemma TripleCyclic(a: Vec3, b: Vec3, c: Vec3)
    ensures Dot(a, Cross(b, c)) == Dot(b, Cross(c, a))
  {
  }
}
