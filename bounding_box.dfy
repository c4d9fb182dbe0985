/** collision::BoundingBox (faze-engine BoundingBox.h): a box centred at the origin,
    built as a ConvexPolyhedron from the eight corners verticesFromLengths lists. */
module BoundingBoxes {
  import opened Geometry

  /** A vector divided by 2 component-wise. */
  function Halved(v: Vec3): Vec3 {
    Vec3(v.x / 2.0, v.y / 2.0, v.z / 2.0)
  }

  /** The coordinate on one axis of a corner: half the length, negative when the
      corner's bit for that axis is 0. */
  function Half(bit: nat, length: real): real {
    if bit == 1 then length / 2.0 else -length / 2.0
  }

  /** Corner i (0 to 7) of the box: bit 2 of i picks the x side, bit 1 the y side and
      bit 0 the z side, so the x sign varies slowest and the z sign fastest. */
  function Corner(lengths: Vec3, i: nat): Vec3 {
    Vec3(Half(i / 4 % 2, lengths.x), Half(i / 2 % 2, lengths.y), Half(i % 2, lengths.z))
  }

  /** verticesFromLengths: the eight corners, from (-x, -y, -z) / 2 to (x, y, z) / 2,
      each the Corner of its position in the list. */
  function VerticesFromLengths(lengths: Vec3): (vs: seq<Vec3>)
    ensures |vs| == 8
    ensures forall i :: 0 <= i < 8 ==> vs[i] == Corner(lengths, i)
  {
    var (x, y, z) := (lengths.x, lengths.y, lengths.z);
    [Halved(Vec3(-x, -y, -z)), Halved(Vec3(-x, -y, z)), Halved(Vec3(-x, y, -z)), Halved(Vec3(-x, y, z)),
     Halved(Vec3(x, -y, -z)), Halved(Vec3(x, -y, z)), Halved(Vec3(x, y, -z)), Halved(Vec3(x, y, z))]
  }

  /** Every component of every vertex is plus or minus half the length on its axis. */
  lemma VerticesOnHalfLengths(lengths: Vec3, i: nat)
    requires i < 8
    ensures var v := VerticesFromLengths(lengths)[i];
      && (v.x == lengths.x / 2.0 || v.x == -lengths.x / 2.0)
      && (v.y == lengths.y / 2.0 || v.y == -lengths.y / 2.0)
      && (v.z == lengths.z / 2.0 || v.z == -lengths.z / 2.0)
  {
  }

  /** Each of the eight sign choices (1 for +, 0 for -) appears, at position
      4 * sx + 2 * sy + sz. */
  lemma AllSignCombinations(lengths: Vec3, sx: nat, sy: nat, sz: nat)
    requires sx < 2 && sy < 2 && sz < 2
    ensures 4 * sx + 2 * sy + sz < 8
    ensures VerticesFromLengths(lengths)[4 * sx + 2 * sy + sz]
      == Vec3(Half(sx, lengths.x), Half(sy, lengths.y), Half(sz, lengths.z))
  {
  }

  /** Opposite corners: vertex 7 - i is the negation of vertex i, so the box is
      centred at the origin. */
  lemma OppositeVertices(lengths: Vec3, i: nat)
    requires i < 8
    ensures VerticesFromLengths(lengths)[7 - i] == Neg(VerticesFromLengths(lengths)[i])
  {
  }

  /** With non-negative lengths every vertex lies in the box from -lengths / 2 to
      lengths / 2. */
  lemma VerticesInBox(lengths: Vec3, i: nat)
    requires lengths.x >= 0.0 && lengths.y >= 0.0 && lengths.z >= 0.0
    requires i < 8
    ensures Contains(Aabb(Halved(Neg(lengths)), Halved(lengths)), VerticesFromLengths(lengths)[i])
  {
  }
}
