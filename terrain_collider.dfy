/** collision::TerrainCollider (sombra-engine TerrainCollider.cpp): a height map of
    xSize × zSize samples laid out row by row (index z * xSize + x) over the unit square
    [-0.5, 0.5]² of its local space, placed in the world by a transforms matrix. It keeps
    the world AABB of its grid vertices, and splits the part of the grid under a query
    AABB into triangles, two per grid cell, dropping those whose heights miss the
    query's y-interval.

    The matrix is represented by what the collider does with it: `apply` maps a local
    point to the world (mTransformsMatrix * vec4(p, 1)) and `toLocal` maps a world AABB
    into local space (transform(aabb, mInverseTransformsMatrix)). */
module TerrainColliders {
  import opened Geometry

  datatype Transforms = Transforms(apply: Vec3 -> Vec3, toLocal: Aabb -> Aabb)

  /** The identity matrix the collider starts with. */
  function Identity(): Transforms {
    Transforms(p => p, box => box)
  }

  /** The height samples and the grid's dimensions. */
  datatype Grid = Grid(heights: seq<real>, xSize: nat, zSize: nat)

  /** k * n as repeated addition; with it the grid's arithmetic stays linear (z * xSize
      is where row z of the heights starts). */
  function Mul(k: nat, n: nat): nat {
    if k == 0 then 0 else Mul(k - 1, n) + n
  }

  lemma {:induction false} MulIsProduct(k: nat, n: nat)
    ensures Mul(k, n) == k * n
  {
    if k > 0 {
      MulIsProduct(k - 1, n);
    }
  }

  /** There is a height for every grid vertex: at least xSize * zSize of them. */
  predicate Enough(g: Grid) {
    |g.heights| >= Mul(g.zSize, g.xSize)
  }

  /** The AABB calculateAABB starts from: every minimum at the largest float and every
      maximum at its negation. */
  const Inverted: Aabb := Aabb(Vec3(FloatMax, FloatMax, FloatMax), Vec3(-FloatMax, -FloatMax, -FloatMax))

  /** A row-major index z * xSize + x of the grid addresses a stored height. */
  lemma {:induction false} IndexInGrid(x: nat, z: nat, xSize: nat, zSize: nat)
    requires x < xSize && z < zSize
    ensures Mul(z, xSize) + x < Mul(zSize, xSize)
  {
    if z + 1 < zSize {
      IndexInGrid(x, z, xSize, zSize - 1);
    }
  }

  /** The local coordinate of grid index `i` along an axis of `size` samples,
      i / (size - 1) - 0.5, so index 0 is at -0.5 and index size - 1 at 0.5. */
  function Coord(i: int, size: nat): (c: real)
    ensures size >= 2 && i == 0 ==> c == -0.5
    ensures size >= 2 && i == size - 1 ==> c == 0.5
  {
    if size >= 2 then
      var d := (size - 1) as real;
      assert i == size - 1 ==> i as real / d == 1.0;
      i as real / d - 0.5
    else -0.5
  }

  /** The local position of grid vertex (x, z). */
  function LocalVertex(g: Grid, x: nat, z: nat): (v: Vec3)
    requires Enough(g) && x < g.xSize && z < g.zSize
    ensures v.x == Coord(x, g.xSize) && v.z == Coord(z, g.zSize)
    ensures v.y in g.heights
  {
    IndexInGrid(x, z, g.xSize, g.zSize);
    Vec3(Coord(x, g.xSize), g.heights[Mul(z, g.xSize) + x], Coord(z, g.zSize))
  }

  /** The world position of grid vertex (x, z). */
  function WorldVertex(g: Grid, t: Transforms, x: nat, z: nat): Vec3
    requires Enough(g) && x < g.xSize && z < g.zSize
  {
    t.apply(LocalVertex(g, x, z))
  }

  /** `box` holds every grid vertex once placed in the world. */
  ghost predicate Encloses(box: Aabb, g: Grid, t: Transforms)
    requires Enough(g)
  {
    forall x: nat, z: nat | x < g.xSize && z < g.zSize :: Contains(box, WorldVertex(g, t, x, z))
  }

  function MinVec(a: Vec3, b: Vec3): Vec3 {
    Vec3(if b.x < a.x then b.x else a.x, if b.y < a.y then b.y else a.y, if b.z < a.z then b.z else a.z)
  }

  function MaxVec(a: Vec3, b: Vec3): Vec3 {
    Vec3(if b.x > a.x then b.x else a.x, if b.y > a.y then b.y else a.y, if b.z > a.z then b.z else a.z)
  }

  /** Growing a box to take in `w` keeps everything it held and holds `w`. */
  lemma Widen(box: Aabb, w: Vec3, p: Vec3)
    ensures Contains(box, p) ==> Contains(Aabb(MinVec(box.minimum, w), MaxVec(box.maximum, w)), p)
    ensures Contains(Aabb(MinVec(box.minimum, w), MaxVec(box.maximum, w)), w)
  {
  }

  /** The world positions of all grid vertices. */
  ghost function GridVertices(g: Grid, t: Transforms): set<Vec3>
    requires Enough(g)
  {
    set x: nat, z: nat | x < g.xSize && z < g.zSize :: WorldVertex(g, t, x, z)
  }

  /** Each bound of `box` is that component of one of `vs`, or still the value Inverted
      starts it at (which, with Encloses, means no vertex lies below it). */
  ghost predicate Attains(box: Aabb, vs: set<Vec3>) {
    && (box.minimum.x == FloatMax || exists v :: v in vs && v.x == box.minimum.x)
    && (box.minimum.y == FloatMax || exists v :: v in vs && v.y == box.minimum.y)
    && (box.minimum.z == FloatMax || exists v :: v in vs && v.z == box.minimum.z)
    && (box.maximum.x == -FloatMax || exists v :: v in vs && v.x == box.maximum.x)
    && (box.maximum.y == -FloatMax || exists v :: v in vs && v.y == box.maximum.y)
    && (box.maximum.z == -FloatMax || exists v :: v in vs && v.z == box.maximum.z)
  }

  /** Growing a box to take in `w` keeps its bounds attained, by `w` where it moved. */
  lemma AttainsStep(box: Aabb, vs: set<Vec3>, w: Vec3)
    requires Attains(box, vs)
    ensures Attains(Aabb(MinVec(box.minimum, w), MaxVec(box.maximum, w)), vs + {w})
  {
  }

  /** calculateAABB: the component-wise minimum and maximum of the world positions of
      all grid vertices, starting from Inverted: the box holds every vertex and each of
      its bounds is a vertex's component; an empty grid leaves Inverted. */
  method ComputeAabb(g: Grid, t: Transforms) returns (box: Aabb)
    requires Enough(g)
    ensures Encloses(box, g, t)
    ensures Attains(box, GridVertices(g, t))
    ensures g.xSize == 0 || g.zSize == 0 ==> box == Inverted
  {
    box := Inverted;
    ghost var seen: set<Vec3> := {};
    var z := 0;
    while z < g.zSize
      invariant z <= g.zSize
      invariant forall x': nat, z': nat | x' < g.xSize && z' < z :: Contains(box, WorldVertex(g, t, x', z'))
      invariant z == 0 || g.xSize == 0 ==> box == Inverted
      invariant Attains(box, seen) && seen <= GridVertices(g, t)
    {
      var x := 0;
      while x < g.xSize
        invariant x <= g.xSize
        invariant forall x': nat, z': nat | x' < g.xSize && z' < z :: Contains(box, WorldVertex(g, t, x', z'))
        invariant forall x': nat | x' < x :: Contains(box, WorldVertex(g, t, x', z))
        invariant (z == 0 || g.xSize == 0) && x == 0 ==> box == Inverted
        invariant Attains(box, seen) && seen <= GridVertices(g, t)
      {
        var w := WorldVertex(g, t, x, z);
        forall p {
          Widen(box, w, p);
        }
        AttainsStep(box, seen, w);
        assert w in GridVertices(g, t);
        seen := seen + {w};
        box := Aabb(MinVec(box.minimum, w), MaxVec(box.maximum, w));
        x := x + 1;
      }
      z := z + 1;
    }
  }

  /** The smallest y among the first `n` of `vs`, or the largest float when that is
      smaller (the running minimum of checkYAxis). */
  function MinY(vs: seq<Vec3>, n: nat): (m: real)
    requires n <= |vs|
    ensures m <= FloatMax
    ensures forall i | 0 <= i < n :: m <= vs[i].y
    ensures m == FloatMax || exists i | 0 <= i < n :: m == vs[i].y
  {
    if n == 0 then FloatMax
    else
      var m := MinY(vs, n - 1);
      if vs[n - 1].y < m then vs[n - 1].y else m
  }

  /** The largest y among the first `n` of `vs`, or minus the largest float when that
      is larger. */
  function MaxY(vs: seq<Vec3>, n: nat): (m: real)
    requires n <= |vs|
    ensures m >= -FloatMax
    ensures forall i | 0 <= i < n :: m >= vs[i].y
    ensures m == -FloatMax || exists i | 0 <= i < n :: m == vs[i].y
  {
    if n == 0 then -FloatMax
    else
      var m := MaxY(vs, n - 1);
      if vs[n - 1].y > m then vs[n - 1].y else m
  }

  /** What checkYAxis answers: the box's y-interval reaches down to the vertices'
      smallest y and up to their largest. */
  predicate YOverlap(box: Aabb, vs: seq<Vec3>) {
    box.maximum.y >= MinY(vs, |vs|) && box.minimum.y <= MaxY(vs, |vs|)
  }

  /** checkYAxis: one pass over the vertices keeps their lowest and highest y. */
  method CheckYAxis(box: Aabb, vertices: seq<Vec3>) returns (r: bool)
    ensures r == YOverlap(box, vertices)
  {
    var minY2, maxY2 := FloatMax, -FloatMax;
    for i := 0 to |vertices|
      invariant minY2 == MinY(vertices, i) && maxY2 == MaxY(vertices, i)
    {
      var v := vertices[i];
      if v.y < minY2 { minY2 := v.y; }
      if v.y > maxY2 { maxY2 := v.y; }
    }
    r := box.maximum.y >= minY2 && box.minimum.y <= maxY2;
  }

  /** For vertices at finite heights, checkYAxis holds exactly when the closed
      interval [min y, max y] of the vertices meets the box's closed y-interval: some
      vertex is no higher than the box's top and some vertex no lower than its bottom. */
  lemma YOverlapMeaning(box: Aabb, vs: seq<Vec3>)
    requires |vs| > 0
    requires forall i | 0 <= i < |vs| :: -FloatMax <= vs[i].y <= FloatMax
    ensures YOverlap(box, vs) <==>
      && (exists i | 0 <= i < |vs| :: vs[i].y <= box.maximum.y)
      && (exists j | 0 <= j < |vs| :: vs[j].y >= box.minimum.y)
  {
    var lo, hi := MinY(vs, |vs|), MaxY(vs, |vs|);
    if box.maximum.y >= lo {
      if lo == FloatMax {
        assert vs[0].y <= box.maximum.y;
      }
    }
    if box.minimum.y <= hi {
      if hi == -FloatMax {
        assert vs[0].y >= box.minimum.y;
      }
    }
  }

  /** The grid index bounds of getOverlapingParts: cells x in [minX, maxX) and
      z in [minZ, maxZ). */
  datatype IndexRange = IndexRange(minX: int, maxX: int, minZ: int, maxZ: int)

  /** static_cast<int> of a float: truncation toward zero. */
  function Trunc(r: real): (t: int)
    ensures r >= 0.0 ==> t as real <= r < t as real + 1.0
    ensures r < 0.0 ==> t as real - 1.0 < r <= t as real
  {
    if r >= 0.0 then r.Floor else -((-r).Floor)
  }

  /** std::ceil followed by the cast to int. */
  function Ceil(r: real): (c: int)
    ensures c as real - 1.0 < r <= c as real
  {
    -((-r).Floor)
  }

  /** The unclamped index bounds of a local-space AABB (lines 41-46): the box's x-extent
      shifted by 0.5 and scaled by the sample count, the lower end truncated and the
      upper end rounded up; likewise along z. */
  function RawRange(local: Aabb, g: Grid): (r: IndexRange)
    ensures r.minX == Trunc(g.xSize as real * (local.minimum.x + 0.5))
    ensures r.maxX == Ceil(g.xSize as real * (local.maximum.x + 0.5))
    ensures r.minZ == Trunc(g.zSize as real * (local.minimum.z + 0.5))
    ensures r.maxZ == Ceil(g.zSize as real * (local.maximum.z + 0.5))
  {
    IndexRange(
      Trunc(g.xSize as real * (local.minimum.x + 0.5)), Ceil(g.xSize as real * (local.maximum.x + 0.5)),
      Trunc(g.zSize as real * (local.minimum.z + 0.5)), Ceil(g.zSize as real * (local.maximum.z + 0.5)))
  }

  /** The clamping of lines 48-51 with the upper x bound tested against `xLimit`: a lower
      bound below zero becomes zero when its upper bound is not, and an upper bound at or
      past the limit becomes the last index when its lower bound is inside the grid.
      `xSize - 1` is the int conversion of size_t mXSize - 1, -1 for an empty row. */
  function ClampWith(r: IndexRange, xSize: int, zSize: int, xLimit: int): (c: IndexRange)
    ensures r.minX < 0 && r.maxX >= 0 ==> c.minX == 0
    ensures !(r.minX < 0 && r.maxX >= 0) ==> c.minX == r.minX
    ensures c.maxX == if r.maxX >= xLimit && c.minX < xSize then xSize - 1 else r.maxX
    ensures r.minZ < 0 && r.maxZ >= 0 ==> c.minZ == 0
    ensures !(r.minZ < 0 && r.maxZ >= 0) ==> c.minZ == r.minZ
    ensures c.maxZ == if r.maxZ >= zSize && c.minZ < zSize then zSize - 1 else r.maxZ
  {
    var minX := if r.minX < 0 && r.maxX >= 0 then 0 else r.minX;
    var maxX := if r.maxX >= xLimit && minX < xSize then xSize - 1 else r.maxX;
    var minZ := if r.minZ < 0 && r.maxZ >= 0 then 0 else r.minZ;
    var maxZ := if r.maxZ >= zSize && minZ < zSize then zSize - 1 else r.maxZ;
    IndexRange(minX, maxX, minZ, maxZ)
  }

  /** The guard of line 53 with the upper x bound tested against `xLimit`. */
  predicate GuardWith(c: IndexRange, zSize: int, xLimit: int) {
    c.minX >= 0 && c.maxX < xLimit && c.minZ >= 0 && c.maxZ < zSize
  }

  /** Lines 49 and 53 as written: the x bounds are compared with the z sample count. */
  function ClampAsWritten(r: IndexRange, xSize: int, zSize: int): (c: IndexRange)
    ensures c == ClampWith(r, xSize, zSize, zSize)
  {
    ClampWith(r, xSize, zSize, zSize)
  }

  predicate GuardAsWritten(c: IndexRange, xSize: int, zSize: int) {
    GuardWith(c, zSize, zSize)
  }

  /** Lines 49 and 53 with the x bounds compared with the x sample count. */
  function Clamp(r: IndexRange, xSize: int, zSize: int): (c: IndexRange)
    ensures c == ClampWith(r, xSize, zSize, xSize)
  {
    ClampWith(r, xSize, zSize, xSize)
  }

  predicate Guard(c: IndexRange, xSize: int, zSize: int) {
    GuardWith(c, zSize, xSize)
  }

  /** Every cell of a range that passes the guard has all four corners in the grid, so
      every height index it reads, z * xSize + x and its x + 1 and z + 1 neighbours,
      addresses a stored height. */
  ghost predicate CellsInGrid(g: Grid, c: IndexRange) {
    forall x: int, z: int | InCells(c, x, z) :: 0 <= x && x + 1 < g.xSize && 0 <= z && z + 1 < g.zSize
  }

  /** Cell (x, z) is one the loops of getOverlapingParts visit. */
  predicate InCells(c: IndexRange, x: int, z: int) {
    c.minX <= x < c.maxX && c.minZ <= z < c.maxZ
  }

  lemma GuardedCellsInGrid(g: Grid, r: IndexRange)
    requires Guard(Clamp(r, g.xSize, g.zSize), g.xSize, g.zSize)
    ensures CellsInGrid(g, Clamp(r, g.xSize, g.zSize))
  {
  }

  /** On a square terrain the two comparisons agree, so the range the code computes
      passes its guard only when every index it then reads is in bounds. */
  lemma {:induction false} SquareAsWrittenInBounds(g: Grid, r: IndexRange)
    requires Enough(g) && g.xSize == g.zSize
    requires GuardAsWritten(ClampAsWritten(r, g.xSize, g.zSize), g.xSize, g.zSize)
    ensures ClampAsWritten(r, g.xSize, g.zSize) == Clamp(r, g.xSize, g.zSize)
    ensures CellsInGrid(g, ClampAsWritten(r, g.xSize, g.zSize))
  {
    GuardedCellsInGrid(g, r);
  }

  /** On a terrain of 2 × 3 samples (6 heights), a local box over the whole square gives
      the range x in [0, 2), z in [0, 3); as written, x = 2 is kept because it is below
      the z count 3, the guard passes, and cell (1, 1) reads index (1 + 1) * 2 + (1 + 1) = 6,
      past the last height. Compared with the x count, the upper x bound becomes 1 and
      every cell stays inside. */
  lemma AsWrittenReadsPastHeights(heights: seq<real>)
    requires |heights| == 6
    ensures var g := Grid(heights, 2, 3);
      var r := RawRange(Aabb(Vec3(-0.5, 0.0, -0.5), Vec3(0.5, 0.0, 0.5)), g);
      var c := ClampAsWritten(r, 2, 3);
      && r == IndexRange(0, 2, 0, 3)
      && c == IndexRange(0, 2, 0, 2)
      && GuardAsWritten(c, 2, 3)
      && c.minX <= 1 < c.maxX && c.minZ <= 1 < c.maxZ
      && (1 + 1) * 2 + (1 + 1) >= |heights|
      && ReadsPast(g, c)
      && Clamp(r, 2, 3) == IndexRange(0, 1, 0, 2)
      && CellsInGrid(g, Clamp(r, 2, 3))
  {
    var g := Grid(heights, 2, 3);
    var local := Aabb(Vec3(-0.5, 0.0, -0.5), Vec3(0.5, 0.0, 0.5));
    var r := RawRange(local, g);
    assert r.minX == 0 && r.minZ == 0;
    assert r.maxX == 2 && r.maxZ == 3;
    GuardedCellsInGrid(g, r);
  }

  /** On a terrain of 3 × 2 samples, the range x in [0, 3), z in [0, 2) of a box over the
      whole square is clamped as written to x in [0, 2), z in [0, 1), which fails the
      guard because 2 is not below the z count 2: no triangle is handed out, where the
      intended comparison keeps cells (0, 0) and (1, 0). */
  lemma AsWrittenDropsWideTerrain()
    ensures var r := IndexRange(0, 3, 0, 2);
      && ClampAsWritten(r, 3, 2) == IndexRange(0, 2, 0, 1)
      && !GuardAsWritten(ClampAsWritten(r, 3, 2), 3, 2)
      && Clamp(r, 3, 2) == IndexRange(0, 2, 0, 1)
      && Guard(Clamp(r, 3, 2), 3, 2)
  {
  }

  /** One triangle handed out by getOverlapingParts, with the terrain's transforms. */
  datatype TrianglePart = TrianglePart(v0: Vec3, v1: Vec3, v2: Vec3, transforms: Transforms)

  function Vertices(p: TrianglePart): seq<Vec3> {
    [p.v0, p.v1, p.v2]
  }

  /** `p` alone when checkYAxis passes for its vertices, nothing otherwise. */
  function Keep(local: Aabb, p: TrianglePart): (r: seq<TrianglePart>)
    ensures r == [p] || r == []
    ensures r == [p] <==> YOverlap(local, Vertices(p))
  {
    if YOverlap(local, Vertices(p)) then [p] else []
  }

  /** The triangles of cell (x, z): (v0, v1, v2) and then (v1, v3, v2), where v0 is the
      corner (x, z), v1 is (x + 1, z), v2 is (x, z + 1) and v3 is (x + 1, z + 1), each kept
      only when its heights meet the local box's y-interval. */
  function CellParts(g: Grid, t: Transforms, local: Aabb, x: nat, z: nat): (r: seq<TrianglePart>)
    requires Enough(g) && x + 1 < g.xSize && z + 1 < g.zSize
    ensures |r| <= 2
    ensures forall p | p in r :: p.transforms == t && YOverlap(local, Vertices(p))
  {
    var v0 := LocalVertex(g, x, z);
    var v1 := LocalVertex(g, x + 1, z);
    var v2 := LocalVertex(g, x, z + 1);
    var v3 := LocalVertex(g, x + 1, z + 1);
    Keep(local, TrianglePart(v0, v1, v2, t)) + Keep(local, TrianglePart(v1, v3, v2, t))
  }

  /** What each cell of the grid contributes, as a function of the cell's indices; a
      pair of indices outside the grid contributes nothing. */
  type Cells = (int, int) -> seq<TrianglePart>

  function CellsOf(g: Grid, t: Transforms, local: Aabb): Cells {
    (x: int, z: int) =>
      if Enough(g) && 0 <= x && x + 1 < g.xSize && 0 <= z && z + 1 < g.zSize then CellParts(g, t, local, x, z) else []
  }

  /** Every cell gives at most two triangles, each carrying `t` and meeting the
      y-interval of `local`. */
  ghost predicate CellsBounded(cells: Cells, t: Transforms, local: Aabb) {
    forall x: int, z: int :: |cells(x, z)| <= 2 && forall p | p in cells(x, z) :: p.transforms == t && YOverlap(local, Vertices(p))
  }

  lemma CellsOfBounded(g: Grid, t: Transforms, local: Aabb)
    ensures CellsBounded(CellsOf(g, t, local), t, local)
  {
  }

  /** The cells the loops visit are inside the grid, so each contributes its
      triangles. */
  lemma {:induction false} VisitedCells(g: Grid, t: Transforms, local: Aabb, r: IndexRange, x: int, z: int)
    requires Enough(g)
    requires Guard(Clamp(r, g.xSize, g.zSize), g.xSize, g.zSize) && InCells(Clamp(r, g.xSize, g.zSize), x, z)
    ensures 0 <= x && x + 1 < g.xSize && 0 <= z && z + 1 < g.zSize
    ensures CellsOf(g, t, local)(x, z) == CellParts(g, t, local, x, z)
  {
    GuardedCellsInGrid(g, r);
  }

  /** The triangles of the cells x in [xLo, xHi) of row z, in increasing x. */
  function RowParts(cells: Cells, z: int, xLo: int, xHi: int): seq<TrianglePart>
    decreases xHi - xLo
  {
    if xHi <= xLo then [] else RowParts(cells, z, xLo, xHi - 1) + cells(xHi - 1, z)
  }

  /** Kept triangles of a row: at most two per cell, each meeting the box's y-interval. */
  lemma {:induction false} RowPartsBounds(cells: Cells, t: Transforms, local: Aabb, z: int, xLo: int, xHi: int)
    requires CellsBounded(cells, t, local)
    ensures |RowParts(cells, z, xLo, xHi)| <= 2 * (if xHi < xLo then 0 else xHi - xLo)
    ensures forall p | p in RowParts(cells, z, xLo, xHi) :: p.transforms == t && YOverlap(local, Vertices(p))
    decreases xHi - xLo
  {
    if xHi > xLo {
      RowPartsBounds(cells, t, local, z, xLo, xHi - 1);
      assert |cells(xHi - 1, z)| <= 2;
    }
  }

  function Width(c: IndexRange): nat {
    if c.maxX < c.minX then 0 else c.maxX - c.minX
  }

  /** The triangles of the rows z in [c.minZ, zHi), row after row. */
  function Rows(cells: Cells, c: IndexRange, zHi: int): seq<TrianglePart>
    decreases zHi - c.minZ
  {
    if zHi <= c.minZ then [] else Rows(cells, c, zHi - 1) + RowParts(cells, zHi - 1, c.minX, c.maxX)
  }

  /** Kept triangles of the rows: at most two per cell, each meeting the box's
      y-interval. */
  lemma {:induction false} RowsBounds(cells: Cells, t: Transforms, local: Aabb, c: IndexRange, zHi: int)
    requires CellsBounded(cells, t, local)
    ensures |Rows(cells, c, zHi)| <= 2 * Mul(if zHi < c.minZ then 0 else zHi - c.minZ, Width(c))
    ensures forall p | p in Rows(cells, c, zHi) :: p.transforms == t && YOverlap(local, Vertices(p))
    decreases zHi - c.minZ
  {
    if zHi > c.minZ {
      RowsBounds(cells, t, local, c, zHi - 1);
      RowPartsBounds(cells, t, local, zHi - 1, c.minX, c.maxX);
    }
  }

  /** What getOverlapingParts returns for a world box: the triangles of every cell of the
      clamped index range of the box in local space, or nothing when that range fails the
      guard. */
  function OverlappingParts(g: Grid, t: Transforms, box: Aabb): seq<TrianglePart>
  {
    var local := t.toLocal(box);
    var c := Clamp(RawRange(local, g), g.xSize, g.zSize);
    if Guard(c, g.xSize, g.zSize) then Rows(CellsOf(g, t, local), c, c.maxZ) else []
  }

  /** At most two triangles per cell of the range, each carrying the terrain's
      transforms and meeting the box's y-interval in local space; none at all when the
      clamped range fails the guard. */
  lemma {:induction false} OverlappingPartsBounds(g: Grid, t: Transforms, box: Aabb)
    ensures var local := t.toLocal(box);
      var c := Clamp(RawRange(local, g), g.xSize, g.zSize);
      && (!Guard(c, g.xSize, g.zSize) ==> OverlappingParts(g, t, box) == [])
      && (Guard(c, g.xSize, g.zSize) ==>
            |OverlappingParts(g, t, box)| <= 2 * ((if c.maxZ < c.minZ then 0 else c.maxZ - c.minZ) * Width(c)))
      && forall p | p in OverlappingParts(g, t, box) :: p.transforms == t && YOverlap(local, Vertices(p))
  {
    var local := t.toLocal(box);
    var c := Clamp(RawRange(local, g), g.xSize, g.zSize);
    if Guard(c, g.xSize, g.zSize) {
      CellsOfBounded(g, t, local);
      RowsBounds(CellsOf(g, t, local), t, local, c, c.maxZ);
      MulIsProduct(if c.maxZ < c.minZ then 0 else c.maxZ - c.minZ, Width(c));
    }
  }

  // ------------------------------------------------------------ as written

  /** The local position of the vertex the loop body builds from indices (x, z): its
      height is read at z * xSize + x, which for x = xSize is the first height of the
      next row. */
  function RawVertex(g: Grid, x: nat, z: nat): (v: Vec3)
    requires Mul(z, g.xSize) + x < |g.heights|
    ensures v.y == g.heights[Mul(z, g.xSize) + x]
  {
    Vec3(Coord(x, g.xSize), g.heights[Mul(z, g.xSize) + x], Coord(z, g.zSize))
  }

  /** The triangles the loop body builds for cell (x, z), whose four height reads are all
      stored heights. */
  function CellPartsAsWritten(g: Grid, t: Transforms, local: Aabb, x: nat, z: nat): (r: seq<TrianglePart>)
    requires Mul(z + 1, g.xSize) + x + 1 < |g.heights|
    ensures |r| <= 2
    ensures forall p | p in r :: p.transforms == t && YOverlap(local, Vertices(p))
  {
    var v0 := RawVertex(g, x, z);
    var v1 := RawVertex(g, x + 1, z);
    var v2 := RawVertex(g, x, z + 1);
    var v3 := RawVertex(g, x + 1, z + 1);
    Keep(local, TrianglePart(v0, v1, v2, t)) + Keep(local, TrianglePart(v1, v3, v2, t))
  }

  function CellsAsWritten(g: Grid, t: Transforms, local: Aabb): Cells {
    (x: int, z: int) =>
      if 0 <= x && 0 <= z && Mul(z + 1, g.xSize) + x + 1 < |g.heights| then CellPartsAsWritten(g, t, local, x, z) else []
  }

  /** A range that passes the guard as written but whose last cell reads the height at
      maxZ * xSize + maxX, past the stored ones: undefined behaviour in the source. */
  predicate ReadsPast(g: Grid, c: IndexRange) {
    0 <= c.minX < c.maxX && 0 <= c.minZ < c.maxZ && Mul(c.maxZ, g.xSize) + c.maxX >= |g.heights|
  }

  /** What getOverlapingParts does as written: the triangles of the cells of the range
      clamped and guarded with the x bounds compared to the z sample count, or
      ReadsPastHeights when one of those cells reads past the heights. */
  datatype PartsOutcome = Parts(parts: seq<TrianglePart>) | ReadsPastHeights

  function OverlappingPartsAsWritten(g: Grid, t: Transforms, box: Aabb): PartsOutcome {
    var local := t.toLocal(box);
    var c := ClampAsWritten(RawRange(local, g), g.xSize, g.zSize);
    if !GuardAsWritten(c, g.xSize, g.zSize) then Parts([])
    else if ReadsPast(g, c) then ReadsPastHeights
    else Parts(Rows(CellsAsWritten(g, t, local), c, c.maxZ))
  }

  /** When the last cell of a range reads a stored height, every cell of the range does. */
  lemma {:induction false} LastReadBoundsAll(g: Grid, c: IndexRange, x: int, z: int)
    requires 0 <= c.minX && 0 <= c.minZ && InCells(c, x, z) && !ReadsPast(g, c)
    ensures Mul(z + 1, g.xSize) + x + 1 < |g.heights|
  {
    MulMonotone(z + 1, c.maxZ, g.xSize);
  }

  lemma {:induction false} MulMonotone(a: nat, b: nat, n: nat)
    requires a <= b
    ensures Mul(a, n) <= Mul(b, n)
    decreases b - a
  {
    if a < b {
      MulMonotone(a, b - 1, n);
    }
  }

  lemma CellsAsWrittenBounded(g: Grid, t: Transforms, local: Aabb)
    ensures CellsBounded(CellsAsWritten(g, t, local), t, local)
  {
  }

  /** As written: nothing when the range fails the guard, ReadsPastHeights exactly when it
      passes but its last cell reads past the heights, and otherwise at most two triangles
      per cell, each carrying the terrain's transforms and meeting the box's y-interval. */
  lemma {:induction false} OverlappingPartsAsWrittenBounds(g: Grid, t: Transforms, box: Aabb)
    ensures var local := t.toLocal(box);
      var c := ClampAsWritten(RawRange(local, g), g.xSize, g.zSize);
      var r := OverlappingPartsAsWritten(g, t, box);
      && (!GuardAsWritten(c, g.xSize, g.zSize) ==> r == Parts([]))
      && (r == ReadsPastHeights <==> GuardAsWritten(c, g.xSize, g.zSize) && ReadsPast(g, c))
      && (r.Parts? ==>
            && |r.parts| <= 2 * ((if c.maxZ < c.minZ then 0 else c.maxZ - c.minZ) * Width(c))
            && forall p | p in r.parts :: p.transforms == t && YOverlap(local, Vertices(p)))
  {
    var local := t.toLocal(box);
    var c := ClampAsWritten(RawRange(local, g), g.xSize, g.zSize);
    if GuardAsWritten(c, g.xSize, g.zSize) && !ReadsPast(g, c) {
      CellsAsWrittenBounded(g, t, local);
      RowsBounds(CellsAsWritten(g, t, local), t, local, c, c.maxZ);
      MulIsProduct(if c.maxZ < c.minZ then 0 else c.maxZ - c.minZ, Width(c));
    }
  }

  /** When the range passes the guard and the triangles are handed out, every cell the
      loops visit reads stored heights only. */
  lemma AsWrittenVisitsStoredHeights(g: Grid, t: Transforms, box: Aabb, x: int, z: int)
    requires var c := ClampAsWritten(RawRange(t.toLocal(box), g), g.xSize, g.zSize);
      GuardAsWritten(c, g.xSize, g.zSize) && OverlappingPartsAsWritten(g, t, box).Parts? && InCells(c, x, z)
    ensures 0 <= x && 0 <= z && Mul(z + 1, g.xSize) + x + 1 < |g.heights|
  {
    LastReadBoundsAll(g, ClampAsWritten(RawRange(t.toLocal(box), g), g.xSize, g.zSize), x, z);
  }

  /** Rows of two cell functions that agree on every cell of the range are equal. */
  lemma {:induction false} RowsCongruent(c1: Cells, c2: Cells, c: IndexRange, zHi: int)
    requires zHi <= c.maxZ
    requires forall x, z | InCells(c, x, z) :: c1(x, z) == c2(x, z)
    ensures Rows(c1, c, zHi) == Rows(c2, c, zHi)
    decreases zHi - c.minZ
  {
    if zHi > c.minZ {
      RowsCongruent(c1, c2, c, zHi - 1);
      RowPartsCongruent(c1, c2, c, zHi - 1, c.maxX);
    }
  }

  lemma {:induction false} RowPartsCongruent(c1: Cells, c2: Cells, c: IndexRange, z: int, xHi: int)
    requires c.minZ <= z < c.maxZ && xHi <= c.maxX
    requires forall x, z | InCells(c, x, z) :: c1(x, z) == c2(x, z)
    ensures RowParts(c1, z, c.minX, xHi) == RowParts(c2, z, c.minX, xHi)
    decreases xHi - c.minX
  {
    if xHi > c.minX {
      RowPartsCongruent(c1, c2, c, z, xHi - 1);
      assert InCells(c, xHi - 1, z);
    }
  }

  /** On a square terrain the code does what is intended: the x bounds compared with the
      z count are compared with the x count, no cell reads past the heights, and the
      triangles are those of the intended range. */
  lemma {:induction false} SquareAsWrittenAgrees(g: Grid, t: Transforms, box: Aabb)
    requires Enough(g) && g.xSize == g.zSize
    ensures OverlappingPartsAsWritten(g, t, box) == Parts(OverlappingParts(g, t, box))
  {
    var local := t.toLocal(box);
    var r := RawRange(local, g);
    var c := Clamp(r, g.xSize, g.zSize);
    assert ClampAsWritten(r, g.xSize, g.zSize) == c;
    if Guard(c, g.xSize, g.zSize) {
      GuardedCellsInGrid(g, r);
      if c.minX < c.maxX && c.minZ < c.maxZ {
        MulMonotone(c.maxZ, g.zSize - 1, g.xSize);
      }
      assert !ReadsPast(g, c);
      StoredCellsAgree(g, t, local, c);
      RowsCongruent(CellsAsWritten(g, t, local), CellsOf(g, t, local), c, c.maxZ);
    }
  }

  /** Inside a range of the grid that reads only stored heights, the cell as written and
      the intended cell give the same triangles. */
  lemma StoredCellsAgree(g: Grid, t: Transforms, local: Aabb, c: IndexRange)
    requires Enough(g) && 0 <= c.minX && 0 <= c.minZ && CellsInGrid(g, c) && !ReadsPast(g, c)
    ensures forall x, z | InCells(c, x, z) :: CellsAsWritten(g, t, local)(x, z) == CellsOf(g, t, local)(x, z)
  {
    forall x, z | InCells(c, x, z)
      ensures CellsAsWritten(g, t, local)(x, z) == CellsOf(g, t, local)(x, z)
    {
      LastReadBoundsAll(g, c, x, z);
    }
  }

  /** The inner loop of getOverlapingParts: the cells x in [c.minX, c.maxX) of row z. */
  method CollectRow(cells: Cells, c: IndexRange, z: int) returns (row: seq<TrianglePart>)
    ensures row == RowParts(cells, z, c.minX, c.maxX)
  {
    var x := c.minX;
    row := [];
    while x < c.maxX
      invariant c.minX <= x && (x <= c.maxX || x == c.minX)
      invariant row == RowParts(cells, z, c.minX, x)
    {
      row := row + cells(x, z);
      x := x + 1;
    }
  }

  /** The outer loop of getOverlapingParts: the rows z in [c.minZ, c.maxZ). */
  method CollectParts(cells: Cells, c: IndexRange) returns (parts: seq<TrianglePart>)
    ensures parts == Rows(cells, c, c.maxZ)
  {
    parts := [];
    var z := c.minZ;
    while z < c.maxZ
      invariant c.minZ <= z && (z <= c.maxZ || z == c.minZ)
      invariant parts == Rows(cells, c, z)
    {
      var row := CollectRow(cells, c, z);
      parts := parts + row;
      z := z + 1;
    }
  }

  class TerrainCollider {
    const grid: Grid
    var transforms: Transforms
    var aabb: Aabb

    /** There are enough heights, and the cached AABB is the bounding box of the grid
        vertices: it holds every one and each bound is a vertex's component. */
    ghost predicate Valid()
      reads this
    {
      Enough(grid) && Encloses(aabb, grid, transforms) && Attains(aabb, GridVertices(grid, transforms))
    }

    /** The caller must supply at least xSize * zSize heights; the transforms start as
        the identity and the AABB is computed. */
    constructor (heights: seq<real>, xSize: nat, zSize: nat)
      requires |heights| >= xSize * zSize
      ensures grid == Grid(heights, xSize, zSize) && transforms == Identity()
      ensures Valid()
      ensures xSize == 0 || zSize == 0 ==> aabb == Inverted
    {
      MulIsProduct(zSize, xSize);
      var box := ComputeAabb(Grid(heights, xSize, zSize), Identity());
      grid, transforms, aabb := Grid(heights, xSize, zSize), Identity(), box;
    }

    /** setTransforms: store the new matrix (and its inverse) and recompute the AABB. */
    method SetTransforms(t: Transforms)
      requires Valid()
      modifies this
      ensures transforms == t
      ensures Valid()
      ensures grid.xSize == 0 || grid.zSize == 0 ==> aabb == Inverted
    {
      var box := ComputeAabb(grid, t);
      transforms, aabb := t, box;
    }

    /** getOverlapingParts: the query box in local space, its index range clamped and
        guarded as written, and the triangles of every cell of the range when it passes
        the guard; a range whose cells would read past the heights is reported instead. */
    method GetOverlappingParts(box: Aabb) returns (outcome: PartsOutcome)
      requires Valid()
      ensures outcome == OverlappingPartsAsWritten(grid, transforms, box)
    {
      var local := transforms.toLocal(box);
      var c := ClampAsWritten(RawRange(local, grid), grid.xSize, grid.zSize);
      outcome := Parts([]);
      if GuardAsWritten(c, grid.xSize, grid.zSize) {
        if ReadsPast(grid, c) {
          return ReadsPastHeights;
        }
        var parts := CollectParts(CellsAsWritten(grid, transforms, local), c);
        outcome := Parts(parts);
      }
    }
  }
}
