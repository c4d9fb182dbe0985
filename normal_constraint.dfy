/** physics::NormalConstraint (faze-engine NormalConstraint.cpp): the contact constraint
    that keeps two rigid bodies from interpenetrating along the contact normal. Its
    Jacobian row acts on the velocity vector (v1, w1, v2, w2) of the two bodies, and its
    bias feeds a Baumgarte-style correction of the penetration.

    The rigid bodies are referred to by address, and only their positions are read. The
    constraint points, the normal, the time step and the iteration exponent are set
    through NormalConstraint.h, which is not part of this model; here they are fields of
    the value. glm::pow is a parameter. */
module NormalConstraints {
  import opened Geometry

  /** The address of a RigidBody. */
  type BodyRef = nat

  /** The one static ConstraintBounds object every NormalConstraint points to
      (kConstraintBounds); its values are declared in NormalConstraint.h. */
  datatype BoundsRef = NormalConstraintBounds

  datatype NormalConstraint = NormalConstraint(
    bounds: BoundsRef,
    bodies: (BodyRef, BodyRef),
    constraintPoints: (Vec3, Vec3),
    normal: Vec3,
    beta: real,
    deltaTime: real,
    k: real)

  /** The constructor: the shared bounds, the two bodies, the given beta, and a zero
      normal, time step and exponent. The constraint points keep the value they are
      declared with, `points` here. */
  function NewNormalConstraint(bodies: (BodyRef, BodyRef), beta: real, points: (Vec3, Vec3)): (c: NormalConstraint)
    ensures c.bounds == NormalConstraintBounds && c.bodies == bodies && c.beta == beta
    ensures c.normal == Zero && c.deltaTime == 0.0 && c.k == 0.0
  {
    NormalConstraint(NormalConstraintBounds, bodies, points, Zero, beta, 0.0, 0.0)
  }

  /** Every NormalConstraint shares the same bounds. */
  lemma SharedBounds(a: NormalConstraint, b: NormalConstraint)
    ensures a.bounds == b.bounds
  {
  }

  /** The separation of the two contact points along the normal: positive when the
      second body's point lies ahead of the first's. */
  function PositionConstraint(c: NormalConstraint, position1: Vec3, position2: Vec3): real {
    var p1 := Add(position1, c.constraintPoints.0);
    var p2 := Add(position2, c.constraintPoints.1);
    Dot(Sub(p2, p1), c.normal)
  }

  /** getBias: the separation along the normal scaled by (1 - dt * beta)^k; with the
      contact points level along the normal there is nothing to correct. */
  function Bias(c: NormalConstraint, position1: Vec3, position2: Vec3, pow: (real, real) -> real): (b: real)
    ensures PositionConstraint(c, position1, position2) == 0.0 ==> b == 0.0
    ensures c.normal == Zero ==> b == 0.0
  {
    pow(1.0 - c.deltaTime * c.beta, c.k) * PositionConstraint(c, position1, position2)
  }

  /** Moving both bodies by the same offset leaves the separation, and the bias, as
      they were. */
  lemma {:induction false} BiasTranslationInvariant(c: NormalConstraint, position1: Vec3, position2: Vec3, d: Vec3, pow: (real, real) -> real)
    ensures PositionConstraint(c, Add(position1, d), Add(position2, d)) == PositionConstraint(c, position1, position2)
    ensures Bias(c, Add(position1, d), Add(position2, d), pow) == Bias(c, position1, position2, pow)
  {
    var p1, p2 := Add(position1, c.constraintPoints.0), Add(position2, c.constraintPoints.1);
    assert Sub(Add(Add(position2, d), c.constraintPoints.1), Add(Add(position1, d), c.constraintPoints.0)) == Sub(p2, p1);
  }

  /** Exchanging the bodies (with their constraint points) negates the separation. */
  lemma SwappedBodies(c: NormalConstraint, position1: Vec3, position2: Vec3)
    ensures var swapped := c.(constraintPoints := (c.constraintPoints.1, c.constraintPoints.0));
      PositionConstraint(swapped, position2, position1) == -PositionConstraint(c, position1, position2)
  {
  }

  /** The three components of block `i` (0 to 3) of a 12-entry Jacobian row. */
  function Block(j: seq<real>, i: nat): Vec3
    requires |j| == 12 && i < 4
  {
    Vec3(j[3 * i], j[3 * i + 1], j[3 * i + 2])
  }

  /** getJacobianMatrix: [-n, -(r1 x n), n, r2 x n]. The two linear blocks are
      opposite, the second body's linear block is the normal, and both angular blocks
      are orthogonal to the normal. */
  function Jacobian(c: NormalConstraint): (j: seq<real>)
    ensures |j| == 12
    ensures Block(j, 2) == c.normal && Block(j, 0) == Neg(Block(j, 2))
    ensures Dot(Block(j, 1), c.normal) == 0.0 && Dot(Block(j, 3), c.normal) == 0.0
  {
    var n := c.normal;
    var r1xn := Cross(c.constraintPoints.0, n);
    var r2xn := Cross(c.constraintPoints.1, n);
    TripleProductZero(c.constraintPoints.0, n);
    TripleProductZero(c.constraintPoints.1, n);
    [-n.x, -n.y, -n.z,
     -r1xn.x, -r1xn.y, -r1xn.z,
     n.x, n.y, n.z,
     r2xn.x, r2xn.y, r2xn.z]
  }

  /** The row holds, in order, the linear and angular blocks of the first body,
      -n and -(r1 x n), then those of the second, n and r2 x n. */
  lemma JacobianLayout(c: NormalConstraint)
    ensures var j, n := Jacobian(c), c.normal;
      && Block(j, 0) == Neg(n) && Block(j, 1) == Neg(Cross(c.constraintPoints.0, n))
      && Block(j, 2) == n && Block(j, 3) == Cross(c.constraintPoints.1, n)
  {
  }

  /** The Jacobian row applied to the velocity vector (v1, w1, v2, w2). */
  function Apply(j: seq<real>, v1: Vec3, w1: Vec3, v2: Vec3, w2: Vec3): real
    requires |j| == 12
  {
    Dot(Block(j, 0), v1) + Dot(Block(j, 1), w1) + Dot(Block(j, 2), v2) + Dot(Block(j, 3), w2)
  }

  /** The velocity of the point at offset r of a body moving with linear velocity v
      and angular velocity w. */
  function PointVelocity(v: Vec3, w: Vec3, r: Vec3): Vec3 {
    Add(v, Cross(w, r))
  }

  /** The row measures the relative velocity of the two contact points along the
      normal, which is the rate of change of the separation PositionConstraint. */
  lemma {:induction false} JacobianIsRelativeNormalVelocity(c: NormalConstraint, v1: Vec3, w1: Vec3, v2: Vec3, w2: Vec3)
    ensures Apply(Jacobian(c), v1, w1, v2, w2)
      == Dot(Sub(PointVelocity(v2, w2, c.constraintPoints.1), PointVelocity(v1, w1, c.constraintPoints.0)), c.normal)
  {
    var n, r1, r2 := c.normal, c.constraintPoints.0, c.constraintPoints.1;
    var j := Jacobian(c);
    assert Block(j, 0) == Neg(n) && Block(j, 1) == Neg(Cross(r1, n));
    assert Block(j, 2) == n && Block(j, 3) == Cross(r2, n);
    TripleCyclic(n, w1, r1);
    TripleCyclic(n, w2, r2);
  }

  /** A freshly constructed constraint, with its zero normal, has a zero Jacobian row
      and a zero bias. */
  lemma FreshConstraintInert(bodies: (BodyRef, BodyRef), beta: real, points: (Vec3, Vec3),
                             position1: Vec3, position2: Vec3, pow: (real, real) -> real)
    ensures var c := NewNormalConstraint(bodies, beta, points);
      && Jacobian(c) == seq(12, _ => 0.0)
      && Bias(c, position1, position2, pow) == 0.0
  {
    var c := NewNormalConstraint(bodies, beta, points);
    assert Cross(points.0, Zero) == Zero && Cross(points.1, Zero) == Zero;
    assert Jacobian(c) == seq(12, _ => 0.0);
  }
}
