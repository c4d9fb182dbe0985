/** collision::Polytope (sombra-engine Polytope.cpp): the polytope EPA expands,
    built from a GJK simplex. The half-edge mesh it keeps is abstract here: the model
    holds the mesh's vertex locations and each face's three vertex indices, and the
    mesh hands out indices that were never used before. Beside the mesh the polytope
    keeps the support point of each vertex and, for each face, its normal and its
    distance data, all in maps keyed by the mesh index. */
module Polytopes {
  import opened Geometry
  import Epa

  type SupportPoint = Epa.SupportPoint

  /** A face as the three mesh indices of its vertices, in winding order. */
  type FaceIndices = (nat, nat, nat)

  /** The distance data of a face: the closest point of its plane to the origin, that
      point's distance to the origin, whether it falls inside the triangle, and its
      barycentric coordinates. */
  datatype FaceDistance = FaceDistance(closestPoint: Vec3, distance: real, inside: bool, barycentric: Vec3)

  /** The geometry helpers addFace calls, whose bodies are not part of this model:
      calculateFaceNormal, getClosestPointInPlane (of the origin), glm::length, and
      the projectPointOnTriangle of MathUtils that answers whether the point is inside
      within the precision and writes its barycentric coordinates. */
  datatype FaceMath = FaceMath(
    normal: (Vec3, Vec3, Vec3) -> Vec3,
    closestInPlane: (Vec3, Vec3, Vec3) -> Vec3,
    length: LengthFn,
    project: (Vec3, Vec3, Vec3, Vec3, real) -> (bool, Vec3))

  /** The distance data addFace stores for the face (p0, p1, p2) (lines 58-68): the
      closest point of the face's plane to the origin, its length, and whether and
      where it projects on the triangle within the precision. */
  function FaceData(math: FaceMath, p0: Vec3, p1: Vec3, p2: Vec3, precision: real): (d: FaceDistance)
    ensures d.distance >= 0.0
    ensures d.closestPoint == math.closestInPlane(p0, p1, p2) && d.distance == math.length(d.closestPoint)
  {
    var closest := math.closestInPlane(p0, p1, p2);
    var projection := math.project(closest, p0, p1, p2, precision);
    FaceDistance(closest, math.length(closest), projection.0, projection.1)
  }

  /** The normal addFace stores for the face (p0, p1, p2) (line 55). */
  function FaceNormal(math: FaceMath, p0: Vec3, p1: Vec3, p2: Vec3): Vec3 {
    math.normal(p0, p1, p2)
  }

  /** The signed volume spanned by the face (o, p, q) and the point r: at most 0 when
      r lies behind the face, or on its plane, for the right-hand normal (p - o) x (q - o). */
  function Volume(o: Vec3, p: Vec3, q: Vec3, r: Vec3): real {
    Dot(Sub(r, o), Cross(Sub(p, o), Sub(q, o)))
  }

  /** The faces the constructor adds when the fourth point is not in front of the
      first face (lines 27-30). */
  const BehindFaces: seq<FaceIndices> := [(0, 1, 2), (0, 3, 1), (0, 2, 3), (1, 3, 2)]

  /** The faces the constructor adds otherwise (lines 33-36). */
  const InFrontFaces: seq<FaceIndices> := [(0, 2, 1), (0, 1, 3), (0, 3, 2), (1, 2, 3)]

  /** The same face with the opposite winding. */
  function Reverse(f: FaceIndices): FaceIndices {
    (f.0, f.2, f.1)
  }

  function Has(f: FaceIndices, v: nat): bool {
    f.0 == v || f.1 == v || f.2 == v
  }

  /** The positions among `faces` of the faces touching vertex v. */
  function FacesAt(faces: seq<FaceIndices>, v: nat): set<nat> {
    set k | 0 <= k < |faces| && Has(faces[k], v)
  }

  /** The vertex of the simplex that face k of either set does not touch. */
  function Opposite(k: nat): nat
    requires k < 4
  {
    if k == 0 then 3 else if k == 1 then 2 else if k == 2 then 1 else 0
  }

  /** The two face sets are the same four triangles wound the other way. */
  lemma FaceSetsReversed()
    ensures |BehindFaces| == |InFrontFaces| == 4
    ensures forall k | 0 <= k < 4 :: InFrontFaces[k] == Reverse(BehindFaces[k]) && BehindFaces[k] == Reverse(InFrontFaces[k])
  {
  }

  /** In each face set every vertex lies on exactly three faces, and face k misses
      the vertex Opposite(k). */
  lemma FaceSetIncidence(faces: seq<FaceIndices>)
    requires faces == BehindFaces || faces == InFrontFaces
    ensures forall v | 0 <= v < 4 :: |FacesAt(faces, v)| == 3
    ensures forall k | 0 <= k < 4 :: !Has(faces[k], Opposite(k))
  {
    assert FacesAt(faces, 0) == {0, 1, 2};
    assert FacesAt(faces, 1) == {0, 1, 3};
    assert FacesAt(faces, 2) == {0, 2, 3};
    assert FacesAt(faces, 3) == {1, 2, 3};
  }

  /** The face set the constructor picks for the four points (line 26). */
  function InitialFaces(p: seq<Vec3>): (r: seq<FaceIndices>)
    requires |p| == 4
    ensures r == BehindFaces || r == InFrontFaces
  {
    if Volume(p[0], p[1], p[2], p[3]) <= 0.0 then BehindFaces else InFrontFaces
  }

  /** The winding the constructor picks points every face away from the vertex it does
      not touch: the fourth point is behind (or on) each face, for the right-hand
      normal, exactly as it is behind the first one; only a flat simplex leaves it on
      the faces. */
  lemma {:induction false} InitialFacesOutward(p: seq<Vec3>)
    requires |p| == 4
    ensures forall k | 0 <= k < 4 ::
      var f := InitialFaces(p)[k];
      Volume(p[f.0], p[f.1], p[f.2], p[Opposite(k)]) <= 0.0
    ensures forall k | 0 <= k < 4 ::
      var f := InitialFaces(p)[k];
      Volume(p[f.0], p[f.1], p[f.2], p[Opposite(k)]) == 0.0 <==> Volume(p[0], p[1], p[2], p[3]) == 0.0
  {
    var d := Volume(p[0], p[1], p[2], p[3]);
    SimplexVolumes(p[0], p[1], p[2], p[3]);
    if d <= 0.0 {
      assert InitialFaces(p) == BehindFaces;
    } else {
      assert InitialFaces(p) == InFrontFaces;
    }
  }

  /** Every face of the simplex, wound as in BehindFaces, spans with its opposite
      vertex the volume of the first face and the fourth point; wound the other way, it
      spans the opposite volume. */
  lemma SimplexVolumes(p0: Vec3, p1: Vec3, p2: Vec3, p3: Vec3)
    ensures var d := Volume(p0, p1, p2, p3);
      && Volume(p0, p3, p1, p2) == d && Volume(p0, p2, p3, p1) == d && Volume(p1, p3, p2, p0) == d
      && Volume(p0, p2, p1, p3) == -d && Volume(p0, p1, p3, p2) == -d
      && Volume(p0, p3, p2, p1) == -d && Volume(p1, p2, p3, p0) == -d
  {
    var a, b, c := Sub(p1, p0), Sub(p2, p0), Sub(p3, p0);
    TripleCyclic(c, a, b);
    TripleCyclic(b, c, a);
    SwapVolume(p0, p1, p2, p3);
    SwapVolume(p0, p3, p1, p2);
    SwapVolume(p0, p2, p3, p1);
    SwapVolume(p1, p3, p2, p0);
    Translated(p0, p1, p2, p3);
  }

  /** Swapping the face's last two vertices negates the volume. */
  lemma SwapVolume(o: Vec3, p: Vec3, q: Vec3, r: Vec3)
    ensures Volume(o, q, p, r) == -Volume(o, p, q, r)
  {
  }

  /** The face (p1, p3, p2) with p0 opposite spans the same volume as (p0, p1, p2)
      with p3 opposite. */
  lemma Translated(p0: Vec3, p1: Vec3, p2: Vec3, p3: Vec3)
    ensures Volume(p1, p3, p2, p0) == Volume(p0, p1, p2, p3)
  {
  }

  /** The bookkeeping a polytope keeps: every face has its normal and its distance
      data and nothing else does; faces join existing vertices; stored distances are
      lengths, never negative; the mesh has not yet handed out the next indices. */
  ghost predicate Consistent(meshFaces: map<nat, FaceIndices>,
                             nextVertex: nat, nextFace: nat, supportPoints: map<nat, SupportPoint>,
                             faceNormals: map<nat, Vec3>, faceDistances: map<nat, FaceDistance>)
  {
    && DataKeyed(meshFaces, faceNormals, faceDistances)
    && FacesJoinVertices(meshFaces, supportPoints)
    && NonNegativeDistances(faceDistances)
    && Unallocated(meshFaces, nextVertex, nextFace, supportPoints)
  }

  /** The keys of mFaceNormals and mFaceDistances are the mesh's faces. */
  ghost predicate DataKeyed(meshFaces: map<nat, FaceIndices>, faceNormals: map<nat, Vec3>,
                            faceDistances: map<nat, FaceDistance>)
  {
    faceNormals.Keys == meshFaces.Keys && faceDistances.Keys == meshFaces.Keys
  }

  ghost predicate FacesJoinVertices(meshFaces: map<nat, FaceIndices>, supportPoints: map<nat, SupportPoint>) {
    forall i {:trigger meshFaces[i]} | i in meshFaces :: meshFaces[i].0 in supportPoints && meshFaces[i].1 in supportPoints && meshFaces[i].2 in supportPoints
  }

  ghost predicate NonNegativeDistances(faceDistances: map<nat, FaceDistance>) {
    forall i | i in faceDistances :: faceDistances[i].distance >= 0.0
  }

  /** The next indices the mesh hands out are not in use. */
  ghost predicate Unallocated(meshFaces: map<nat, FaceIndices>, nextVertex: nat, nextFace: nat,
                              supportPoints: map<nat, SupportPoint>)
  {
    && (forall i | i in supportPoints :: i < nextVertex)
    && (forall i | i in meshFaces :: i < nextFace)
  }

  lemma AddVertexKeeps(meshFaces: map<nat, FaceIndices>,
                       nextVertex: nat, nextFace: nat, supportPoints: map<nat, SupportPoint>,
                       faceNormals: map<nat, Vec3>, faceDistances: map<nat, FaceDistance>, sp: SupportPoint)
    requires Consistent(meshFaces, nextVertex, nextFace, supportPoints, faceNormals, faceDistances)
    ensures nextVertex !in supportPoints
    ensures Consistent(meshFaces, nextVertex + 1, nextFace,
                       supportPoints[nextVertex := sp], faceNormals, faceDistances)
  {
  }

  lemma AddFaceKeeps(meshFaces: map<nat, FaceIndices>,
                     nextVertex: nat, nextFace: nat, supportPoints: map<nat, SupportPoint>,
                     faceNormals: map<nat, Vec3>, faceDistances: map<nat, FaceDistance>,
                     face: FaceIndices, normal: Vec3, data: FaceDistance)
    requires Consistent(meshFaces, nextVertex, nextFace, supportPoints, faceNormals, faceDistances)
    requires face.0 in supportPoints && face.1 in supportPoints && face.2 in supportPoints && data.distance >= 0.0
    ensures nextFace !in meshFaces
    ensures Consistent(meshFaces[nextFace := face], nextVertex, nextFace + 1, supportPoints,
                       faceNormals[nextFace := normal], faceDistances[nextFace := data])
  {
  }

  lemma RemoveFaceKeeps(meshFaces: map<nat, FaceIndices>,
                        nextVertex: nat, nextFace: nat, supportPoints: map<nat, SupportPoint>,
                        faceNormals: map<nat, Vec3>, faceDistances: map<nat, FaceDistance>, iFace: nat)
    requires Consistent(meshFaces, nextVertex, nextFace, supportPoints, faceNormals, faceDistances)
    ensures Consistent(meshFaces - {iFace}, nextVertex, nextFace, supportPoints,
                       faceNormals - {iFace}, faceDistances - {iFace})
  {
  }

  /** The four elements of `s` keyed by their positions 0 to 3. */
  function ByPosition<T>(s: seq<T>): (m: map<nat, T>)
    requires |s| == 4
    ensures forall i | i in m :: i < 4
    ensures forall i | 0 <= i < 4 :: i in m && m[i] == s[i]
  {
    map[0 := s[0], 1 := s[1], 2 := s[2], 3 := s[3]]
  }

  /** The CSO positions of the simplex points. */
  function Positions(simplex: seq<SupportPoint>): (p: seq<Vec3>)
    ensures |p| == |simplex| && forall i | 0 <= i < |p| :: p[i] == simplex[i].cso
  {
    seq(|simplex|, i requires 0 <= i < |simplex| => simplex[i].cso)
  }

  /** The normal addFace stores for each face. */
  function NormalsOf(math: FaceMath, points: map<nat, SupportPoint>, faces: map<nat, FaceIndices>): (r: map<nat, Vec3>)
    requires FacesJoinVertices(faces, points)
    ensures r.Keys == faces.Keys
  {
    map k | k in faces :: FaceNormal(math, points[faces[k].0].cso, points[faces[k].1].cso, points[faces[k].2].cso)
  }

  /** The distance data addFace stores for each face. */
  function DistancesOf(math: FaceMath, points: map<nat, SupportPoint>, faces: map<nat, FaceIndices>, precision: real)
    : (r: map<nat, FaceDistance>)
    requires FacesJoinVertices(faces, points)
    ensures r.Keys == faces.Keys
    ensures forall k | k in r :: r[k].distance >= 0.0
  {
    map k | k in faces :: FaceData(math, points[faces[k].0].cso, points[faces[k].1].cso, points[faces[k].2].cso, precision)
  }

  /** The state the constructor builds, from either face set, is consistent. */
  lemma InitialConsistent(simplex: seq<SupportPoint>, initial: seq<FaceIndices>, math: FaceMath, precision: real)
    requires |simplex| == 4 && (initial == BehindFaces || initial == InFrontFaces)
    ensures var points, faces := ByPosition(simplex), ByPosition(initial);
      && FacesJoinVertices(faces, points)
      && Consistent(faces, 4, 4, points, NormalsOf(math, points, faces), DistancesOf(math, points, faces, precision))
  {
    var points, faces := ByPosition(simplex), ByPosition(initial);
    InitialFacesJoin(simplex, initial);
    FourFacesConsistent(points, faces, math, precision);
  }

  lemma InitialFacesJoin(simplex: seq<SupportPoint>, initial: seq<FaceIndices>)
    requires |simplex| == 4 && (initial == BehindFaces || initial == InFrontFaces)
    ensures FacesJoinVertices(ByPosition(initial), ByPosition(simplex))
  {
  }

  lemma FourFacesConsistent(points: map<nat, SupportPoint>, faces: map<nat, FaceIndices>, math: FaceMath, precision: real)
    requires (forall i | i in points :: i < 4) && (forall i | i in faces :: i < 4) && FacesJoinVertices(faces, points)
    ensures Consistent(faces, 4, 4, points, NormalsOf(math, points, faces), DistancesOf(math, points, faces, precision))
  {
    FourUnallocated(points, faces);
  }

  lemma FourUnallocated(points: map<nat, SupportPoint>, faces: map<nat, FaceIndices>)
    requires (forall i | i in points :: i < 4) && (forall i | i in faces :: i < 4)
    ensures Unallocated(faces, 4, 4, points)
  {
  }

  class Polytope {
    /** mPrecision, handed to projectPointOnTriangle. */
    var precision: real
    /** The mesh faces, each as the indices of its three vertices; the location of
        mesh vertex i is the CSO position of supportPoints[i]. */
    var meshFaces: map<nat, FaceIndices>
    /** The next index the mesh hands out for a vertex and for a face. */
    var nextVertex: nat
    var nextFace: nat
    /** mVertexSupportPoints, mFaceNormals, mFaceDistances. */
    var supportPoints: map<nat, SupportPoint>
    var faceNormals: map<nat, Vec3>
    var faceDistances: map<nat, FaceDistance>

    ghost predicate Valid()
      reads this
    {
      Consistent(meshFaces, nextVertex, nextFace, supportPoints, faceNormals, faceDistances)
    }

    /** Polytope(simplex, precision) (lines 9-38): the four simplex points become
        vertices 0 to 3 in order (addVertex four times), and the four faces of the
        winding that InitialFaces picks become faces 0 to 3 in order (addFace four
        times), each with its normal and distance data. */
    constructor (simplex: seq<SupportPoint>, precision: real, math: FaceMath)
      requires |simplex| == 4
      ensures Valid() && this.precision == precision
      ensures supportPoints == ByPosition(simplex) && nextVertex == 4
      ensures meshFaces == ByPosition(InitialFaces(Positions(simplex))) && nextFace == 4
      ensures faceNormals == NormalsOf(math, supportPoints, meshFaces)
      ensures faceDistances == DistancesOf(math, supportPoints, meshFaces, precision)
    {
      InitialConsistent(simplex, InitialFaces(Positions(simplex)), math, precision);
      var points := ByPosition(simplex);
      var faces := ByPosition(InitialFaces(Positions(simplex)));
      this.precision := precision;
      supportPoints, nextVertex := points, 4;
      meshFaces, nextFace := faces, 4;
      faceNormals := NormalsOf(math, points, faces);
      faceDistances := DistancesOf(math, points, faces, precision);
    }

    /** addVertex (lines 41-47): the mesh stores the CSO position under a new index,
        and the support point is recorded under the same index, which is returned. */
    method AddVertex(sp: SupportPoint) returns (iVertex: nat)
      requires Valid()
      modifies this
      ensures Valid()
      ensures iVertex == old(nextVertex) && iVertex !in old(supportPoints) && nextVertex == iVertex + 1
      ensures supportPoints == old(supportPoints)[iVertex := sp]
      ensures meshFaces == old(meshFaces) && nextFace == old(nextFace) && precision == old(precision)
      ensures faceNormals == old(faceNormals) && faceDistances == old(faceDistances)
    {
      AddVertexKeeps(meshFaces, nextVertex, nextFace, supportPoints, faceNormals, faceDistances, sp);
      iVertex := nextVertex;
      supportPoints, nextVertex := supportPoints[iVertex := sp], nextVertex + 1;
    }

    /** addFace (lines 50-71): the mesh adds the face under a new index, and under
        that same index the polytope stores the face normal and the distance data: the
        closest point of the face's plane to the origin, its length, and where it
        projects on the triangle. */
    method AddFace(face: FaceIndices, math: FaceMath) returns (iFace: nat)
      requires Valid()
      requires face.0 in supportPoints && face.1 in supportPoints && face.2 in supportPoints
      modifies this
      ensures Valid()
      ensures iFace == old(nextFace) && iFace !in old(meshFaces) && nextFace == iFace + 1
      ensures meshFaces == old(meshFaces)[iFace := face]
      ensures var p0, p1, p2 := old(supportPoints)[face.0].cso, old(supportPoints)[face.1].cso, old(supportPoints)[face.2].cso;
        && faceNormals == old(faceNormals)[iFace := FaceNormal(math, p0, p1, p2)]
        && faceDistances == old(faceDistances)[iFace := FaceData(math, p0, p1, p2, precision)]
      ensures supportPoints == old(supportPoints)
      ensures nextVertex == old(nextVertex) && precision == old(precision)
    {
      var p0, p1, p2 := supportPoints[face.0].cso, supportPoints[face.1].cso, supportPoints[face.2].cso;
      var data := FaceData(math, p0, p1, p2, precision);
      var normal := FaceNormal(math, p0, p1, p2);
      AddFaceKeeps(meshFaces, nextVertex, nextFace, supportPoints, faceNormals, faceDistances, face, normal, data);
      iFace := nextFace;
      meshFaces, faceNormals, faceDistances, nextFace :=
        meshFaces[iFace := face], faceNormals[iFace := normal], faceDistances[iFace := data], nextFace + 1;
    }

    /** removeFace (lines 74-79): the face leaves the mesh and its normal and distance
        data are erased with it; erasing an absent index changes nothing. */
    method RemoveFace(iFace: nat)
      requires Valid()
      modifies this
      ensures Valid()
      ensures meshFaces == old(meshFaces) - {iFace}
      ensures faceNormals == old(faceNormals) - {iFace} && faceDistances == old(faceDistances) - {iFace}
      ensures supportPoints == old(supportPoints)
      ensures nextVertex == old(nextVertex) && nextFace == old(nextFace) && precision == old(precision)
    {
      RemoveFaceKeeps(meshFaces, nextVertex, nextFace, supportPoints, faceNormals, faceDistances, iFace);
      meshFaces, faceNormals, faceDistances := meshFaces - {iFace}, faceNormals - {iFace}, faceDistances - {iFace};
    }
  }
}
