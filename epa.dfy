/** collision::EPACollisionDetector (faze-engine EPACollisionDetector.cpp): the
    expanding-polytope search for the face of the Minkowski difference closest to the
    origin, and the contact computed from that face.

    Support points live in the polytope's vertex store and are referred to by their
    slot (`SupportPointRef`, see Edges); a face holds its three vertices and the normal
    and distance to the origin that the Triangle constructor computes, given here by
    the oracles `normalOf` and `distanceOf`. The new support point along a direction
    is the oracle `support`. */
module Epa {
  import opened Geometry
  import opened Wrappers
  import opened Edges
  import opened SeqUtils

  /** sMinFDifference: the largest improvement of the closest distance at which the
      search stops. */
  const MinFDifference: real := 0.001

  /** A point of the Minkowski difference with the world and local positions on both
      colliders it came from. */
  datatype SupportPoint = SupportPoint(cso: Vec3, world0: Vec3, world1: Vec3, local0: Vec3, local1: Vec3)

  /** A face with edges AB, BC, CA (so mAB.mP1 is `a`, mBC.mP1 is `b`, mCA.mP1 is `c`). */
  datatype Triangle = Triangle(a: SupportPointRef, b: SupportPointRef, c: SupportPointRef, normal: Vec3, distance: real)
  {
    function AB(): Edge { Edge(a, b) }
    function BC(): Edge { Edge(b, c) }
    function CA(): Edge { Edge(c, a) }
  }

  type NormalFn = (Vec3, Vec3, Vec3) -> Vec3
  type DistanceFn = (Vec3, Vec3, Vec3) -> real

  /** Every face refers to a vertex in the store. */
  predicate RefersTo(faces: seq<Triangle>, n: nat) {
    forall f | f in faces :: f.a < n && f.b < n && f.c < n
  }

  /** Triangle(a, b, c): the face through the three support points. */
  function MakeFace(vertices: seq<SupportPoint>, a: SupportPointRef, b: SupportPointRef, c: SupportPointRef,
                    normalOf: NormalFn, distanceOf: DistanceFn): Triangle
    requires a < |vertices| && b < |vertices| && c < |vertices|
  {
    var pa, pb, pc := vertices[a].cso, vertices[b].cso, vertices[c].cso;
    Triangle(a, b, c, normalOf(pa, pb, pc), distanceOf(pa, pb, pc))
  }

  // ------------------------------------------------------------ closest face

  /** Step 1 of getClosestFaceToOrigin (lines 67-75): the first face of least distance,
      scanning from a running minimum that starts at the float maximum, so that faces
      no closer than that are never chosen and the first position is kept. */
  method ClosestFace(faces: seq<Triangle>) returns (i: nat, dist: real)
    ensures |faces| == 0 ==> i == 0 && dist == FloatMax
    ensures |faces| > 0 ==> i < |faces|
    ensures dist <= FloatMax
    ensures forall j | 0 <= j < |faces| :: dist <= faces[j].distance
    ensures dist < FloatMax ==> faces[i].distance == dist && forall j | 0 <= j < i :: faces[j].distance > dist
    ensures dist == FloatMax ==> i == 0
  {
    i, dist := 0, FloatMax;
    for k := 0 to |faces|
      invariant |faces| > 0 ==> i < |faces|
      invariant i <= k || i == 0
      invariant dist <= FloatMax
      invariant forall j | 0 <= j < k :: dist <= faces[j].distance
      invariant dist < FloatMax ==> i < k && faces[i].distance == dist && forall j | 0 <= j < i :: faces[j].distance > dist
      invariant dist == FloatMax ==> i == 0
    {
      if dist > faces[k].distance {
        i, dist := k, faces[k].distance;
      }
    }
  }

  // ------------------------------------------------------------ hole edges

  predicate Visible(t: Triangle, q: Vec3) {
    Dot(t.normal, q) > 0.0
  }

  function FaceEdges(t: Triangle): seq<Edge> {
    [t.AB(), t.BC(), t.CA()]
  }

  /** The edges of the faces, face by face, in the order AB, BC, CA. */
  function EdgesOf(faces: seq<Triangle>): seq<Edge>
    decreases |faces|
  {
    if faces == [] then [] else EdgesOf(faces[..|faces| - 1]) + FaceEdges(faces[|faces| - 1])
  }

  /** The faces the point `q` can see, in order. */
  function VisibleFaces(faces: seq<Triangle>, q: Vec3): seq<Triangle>
    decreases |faces|
  {
    if faces == [] then []
    else VisibleFaces(faces[..|faces| - 1], q) + (if Visible(faces[|faces| - 1], q) then [faces[|faces| - 1]] else [])
  }

  /** The faces the point `q` cannot see, in order. */
  function HiddenFaces(faces: seq<Triangle>, q: Vec3): seq<Triangle>
    decreases |faces|
  {
    if faces == [] then []
    else HiddenFaces(faces[..|faces| - 1], q) + (if Visible(faces[|faces| - 1], q) then [] else [faces[|faces| - 1]])
  }

  /** One toggle of the hole: an edge already there is erased, any other appended. */
  function Toggle(hole: seq<Edge>, e: Edge): seq<Edge> {
    if e in hole then RemoveFirst(hole, e) else hole + [e]
  }

  /** The hole holds each edge once if it occurred an odd number of times so far and
      not at all otherwise. */
  ghost predicate HoleOf(hole: seq<Edge>, edges: seq<Edge>) {
    forall e :: multiset(hole)[e] == multiset(edges)[e] % 2
  }

  /** A toggle keeps the hole equal to the odd-count edges. */
  lemma ToggleKeepsParity(hole: seq<Edge>, edges: seq<Edge>, e: Edge)
    requires HoleOf(hole, edges)
    ensures HoleOf(Toggle(hole, e), edges + [e])
  {
    if e in hole {
      RemoveFirstCounts(hole, e);
    }
    forall x ensures multiset(Toggle(hole, e))[x] == multiset(edges + [e])[x] % 2 {
      assert multiset(edges + [e]) == multiset(edges) + multiset{e};
    }
  }

  /** The hole the source builds from `edges`: starting empty, each edge in turn is
      toggled. Whatever the order, it holds exactly the odd-count edges once each. */
  function ToggleAll(edges: seq<Edge>): (hole: seq<Edge>)
    ensures HoleOf(hole, edges)
    decreases |edges|
  {
    if edges == [] then []
    else
      var init, e := edges[..|edges| - 1], edges[|edges| - 1];
      ToggleKeepsParity(ToggleAll(init), init, e);
      assert init + [e] == edges;
      Toggle(ToggleAll(init), e)
  }

  /** The three toggles of a face continue the fold over the edges toggled before. */
  lemma ToggleAllFace(edges: seq<Edge>, f: Triangle)
    ensures ToggleAll(edges + FaceEdges(f)) == Toggle(Toggle(Toggle(ToggleAll(edges), f.AB()), f.BC()), f.CA())
  {
    var e1, e2, all := edges + [f.AB()], edges + [f.AB(), f.BC()], edges + FaceEdges(f);
    assert e1[..|e1| - 1] == edges && all[..|all| - 1] == e2 && e2[..|e2| - 1] == e1;
    assert ToggleAll(e1) == Toggle(ToggleAll(edges), f.AB());
    assert ToggleAll(e2) == Toggle(ToggleAll(e1), f.BC());
  }

  /** Steps 5 of getClosestFaceToOrigin (lines 96-112): the faces visible from `q` are
      erased, keeping the others in order, and the three edges of each erased face are
      toggled in the hole, face by face, so the hole is the fold of Toggle over their
      edges in that order. */
  method VisibilityPass(faces: seq<Triangle>, q: Vec3) returns (kept: seq<Triangle>, hole: seq<Edge>)
    ensures kept == HiddenFaces(faces, q)
    ensures hole == ToggleAll(EdgesOf(VisibleFaces(faces, q)))
  {
    kept, hole := [], [];
    for i := 0 to |faces|
      invariant kept == HiddenFaces(faces[..i], q)
      invariant hole == ToggleAll(EdgesOf(VisibleFaces(faces[..i], q)))
    {
      var f := faces[i];
      VisibilityStep(faces, i, q);
      if Visible(f, q) {
        ToggleAllFace(EdgesOf(VisibleFaces(faces[..i], q)), f);
        hole := Toggle(hole, f.AB());
        hole := Toggle(hole, f.BC());
        hole := Toggle(hole, f.CA());
      } else {
        assert EdgesOf(VisibleFaces(faces[..i], q)) + [] == EdgesOf(VisibleFaces(faces[..i], q));
        kept := kept + [f];
      }
    }
    assert faces[..|faces|] == faces;
  }

  /** How the visible and hidden faces, and the visible edges, grow by one face. */
  lemma VisibilityStep(faces: seq<Triangle>, i: nat, q: Vec3)
    requires i < |faces|
    ensures var f := faces[i];
      && HiddenFaces(faces[..i + 1], q) == HiddenFaces(faces[..i], q) + (if Visible(f, q) then [] else [f])
      && VisibleFaces(faces[..i + 1], q) == VisibleFaces(faces[..i], q) + (if Visible(f, q) then [f] else [])
      && EdgesOf(VisibleFaces(faces[..i + 1], q))
         == EdgesOf(VisibleFaces(faces[..i], q)) + (if Visible(f, q) then FaceEdges(f) else [])
  {
    assert faces[..i + 1][..i] == faces[..i];
    var vs := VisibleFaces(faces[..i], q);
    if Visible(faces[i], q) {
      assert (vs + [faces[i]])[..|vs|] == vs;
    } else {
      assert vs + [] == vs;
    }
  }

  // ------------------------------------------------------------ re-triangulation

  /** Step 6 (lines 115-117): one face per hole edge, in hole order, with the new
      support point first and the hole edge as its middle edge BC. */
  function NewFaces(vertices: seq<SupportPoint>, sp: SupportPointRef, hole: seq<Edge>,
                    normalOf: NormalFn, distanceOf: DistanceFn): (r: seq<Triangle>)
    requires sp < |vertices|
    requires forall e | e in hole :: e.p1 < |vertices| && e.p2 < |vertices|
    ensures |r| == |hole|
    ensures forall k | 0 <= k < |r| :: r[k].a == sp && r[k].BC() == hole[k]
    ensures RefersTo(r, |vertices|)
  {
    seq(|hole|, k requires 0 <= k < |hole| => MakeFace(vertices, sp, hole[k].p1, hole[k].p2, normalOf, distanceOf))
  }

  /** The faces without the one at position i (std::vector::erase). */
  function Erase(faces: seq<Triangle>, i: nat): seq<Triangle>
    requires i < |faces|
  {
    faces[..i] + faces[i + 1..]
  }

  /** Steps 3-6 of one expansion: the support point along the closest face's normal
      is added, that face is erased, then the visible faces, and the hole is closed by
      new faces through the new point. */
  method Expand(vertices: seq<SupportPoint>, faces: seq<Triangle>, ci: nat, support: Vec3 -> SupportPoint,
                normalOf: NormalFn, distanceOf: DistanceFn)
    returns (vertices': seq<SupportPoint>, faces': seq<Triangle>, hole: seq<Edge>)
    requires ci < |faces| && RefersTo(faces, |vertices|)
    ensures vertices' == vertices + [support(faces[ci].normal)]
    ensures var q := vertices'[|vertices|].cso;
      && hole == ToggleAll(EdgesOf(VisibleFaces(Erase(faces, ci), q)))
      && (forall e | e in hole :: e.p1 < |vertices'| && e.p2 < |vertices'|)
      && faces' == HiddenFaces(Erase(faces, ci), q) + NewFaces(vertices', |vertices|, hole, normalOf, distanceOf)
    ensures RefersTo(faces', |vertices'|)
  {
    vertices' := vertices + [support(faces[ci].normal)];
    var sp := |vertices|;
    var rest := Erase(faces, ci);
    var kept;
    kept, hole := VisibilityPass(rest, vertices'[sp].cso);
    HoleEdgesFromFaces(rest, vertices'[sp].cso, hole, |vertices|);
    HiddenRefersTo(rest, vertices'[sp].cso, |vertices|);
    faces' := CloseHole(kept, vertices', sp, hole, normalOf, distanceOf);
  }

  /** Step 6 (lines 115-117): for each hole edge in turn, a face through the new
      support point is appended. */
  method CloseHole(kept: seq<Triangle>, vertices: seq<SupportPoint>, sp: SupportPointRef, hole: seq<Edge>,
                   normalOf: NormalFn, distanceOf: DistanceFn)
    returns (faces: seq<Triangle>)
    requires sp < |vertices|
    requires forall e | e in hole :: e.p1 < |vertices| && e.p2 < |vertices|
    ensures faces == kept + NewFaces(vertices, sp, hole, normalOf, distanceOf)
  {
    faces := kept;
    for k := 0 to |hole|
      invariant faces == kept + NewFaces(vertices, sp, hole[..k], normalOf, distanceOf)
    {
      assert hole[..k + 1] == hole[..k] + [hole[k]];
      faces := faces + [MakeFace(vertices, sp, hole[k].p1, hole[k].p2, normalOf, distanceOf)];
    }
    assert hole[..|hole|] == hole;
  }

  /** The faces kept by the visibility pass still refer to stored vertices. */
  lemma {:induction false} HiddenRefersTo(faces: seq<Triangle>, q: Vec3, n: nat)
    requires RefersTo(faces, n)
    ensures RefersTo(HiddenFaces(faces, q), n)
    decreases |faces|
  {
    if faces != [] {
      HiddenRefersTo(faces[..|faces| - 1], q, n);
    }
  }

  /** The visible faces are among the faces. */
  lemma {:induction false} VisibleAmongFaces(faces: seq<Triangle>, q: Vec3, f: Triangle)
    requires f in VisibleFaces(faces, q)
    ensures f in faces
    decreases |faces|
  {
    var init := faces[..|faces| - 1];
    if f in VisibleFaces(init, q) {
      VisibleAmongFaces(init, q, f);
      assert init <= faces;
    }
  }

  /** Every hole edge is an edge of a face, so it joins stored vertices. */
  lemma HoleEdgesFromFaces(faces: seq<Triangle>, q: Vec3, hole: seq<Edge>, n: nat)
    requires RefersTo(faces, n)
    requires HoleOf(hole, EdgesOf(VisibleFaces(faces, q)))
    ensures forall e | e in hole :: e.p1 < n && e.p2 < n
  {
    forall e | e in hole ensures e.p1 < n && e.p2 < n {
      HoleEdgeOccurs(hole, EdgesOf(VisibleFaces(faces, q)), e);
      EdgeOfSomeFace(VisibleFaces(faces, q), e);
      var k :| 0 <= k < |VisibleFaces(faces, q)| && e in FaceEdges(VisibleFaces(faces, q)[k]);
      VisibleAmongFaces(faces, q, VisibleFaces(faces, q)[k]);
    }
  }

  /** An edge in the hole occurred among the edges toggled. */
  lemma HoleEdgeOccurs(hole: seq<Edge>, edges: seq<Edge>, e: Edge)
    requires HoleOf(hole, edges) && e in hole
    ensures e in edges
  {
    assert multiset(hole)[e] > 0;
  }

  /** An edge of the faces is an edge of one of them. */
  lemma {:induction false} EdgeOfSomeFace(faces: seq<Triangle>, e: Edge)
    requires e in EdgesOf(faces)
    ensures exists k | 0 <= k < |faces| :: e in FaceEdges(faces[k])
    decreases |faces|
  {
    var init := faces[..|faces| - 1];
    if e !in FaceEdges(faces[|faces| - 1]) {
      EdgeOfSomeFace(init, e);
      var k :| 0 <= k < |init| && e in FaceEdges(init[k]);
      assert faces[k] == init[k];
    }
  }

  /** Position k of the erased sequence is position k or k + 1 of the original. */
  lemma EraseAt(faces: seq<Triangle>, i: nat, k: nat)
    requires i < |faces| && k < |faces| - 1
    ensures |Erase(faces, i)| == |faces| - 1
    ensures Erase(faces, i)[k] == if k < i then faces[k] else faces[k + 1]
  {
  }

  /** An edge of the hole left after erasing face ci belongs to a face other than ci. */
  lemma HoleEdgeOfOtherFace(faces: seq<Triangle>, ci: nat, q: Vec3, hole: seq<Edge>, e: Edge)
    requires ci < |faces| && e in hole
    requires HoleOf(hole, EdgesOf(VisibleFaces(Erase(faces, ci), q)))
    ensures exists j | 0 <= j < |faces| && j != ci :: e in FaceEdges(faces[j])
  {
    var rest := Erase(faces, ci);
    HoleEdgeOccurs(hole, EdgesOf(VisibleFaces(rest, q)), e);
    EdgeOfSomeFace(VisibleFaces(rest, q), e);
    var k :| 0 <= k < |VisibleFaces(rest, q)| && e in FaceEdges(VisibleFaces(rest, q)[k]);
    VisibleAmongFaces(rest, q, VisibleFaces(rest, q)[k]);
    var m :| 0 <= m < |rest| && rest[m] == VisibleFaces(rest, q)[k];
    EraseAt(faces, ci, m);
    var j := if m < ci then m else m + 1;
    assert e in FaceEdges(faces[j]);
  }

  /** The closest face is erased before the visibility pass: when its edges belong to
      no other face (in a closed mesh each directed edge belongs to one face), none of
      them can end in the hole. */
  lemma ErasedFaceEdgesNotInHole(faces: seq<Triangle>, ci: nat, q: Vec3, hole: seq<Edge>, e: Edge)
    requires ci < |faces| && e in FaceEdges(faces[ci])
    requires forall j | 0 <= j < |faces| && j != ci :: e !in FaceEdges(faces[j])
    requires HoleOf(hole, EdgesOf(VisibleFaces(Erase(faces, ci), q)))
    ensures e !in hole
  {
    if e in hole {
      HoleEdgeOfOtherFace(faces, ci, q, hole, e);
      assert false;
    }
  }

  // ------------------------------------------------------------ the search loop

  /** A polytope between two expansions: its support points and faces. */
  datatype Stage = Stage(vertices: seq<SupportPoint>, faces: seq<Triangle>)

  /** One expansion of the search: the face at `ci` is the first face of least
      distance in `s`, and `s'` is what Expand makes of `s` at that face, closing the
      hole `hole`. */
  ghost predicate Expanded(s: Stage, ci: nat, hole: seq<Edge>, s': Stage, support: Vec3 -> SupportPoint,
                           normalOf: NormalFn, distanceOf: DistanceFn)
  {
    && ci < |s.faces|
    && (forall j | 0 <= j < |s.faces| :: s.faces[ci].distance <= s.faces[j].distance)
    && (forall j | 0 <= j < ci :: s.faces[j].distance > s.faces[ci].distance)
    && s'.vertices == s.vertices + [support(s.faces[ci].normal)]
    && (forall e | e in hole :: e.p1 < |s'.vertices| && e.p2 < |s'.vertices|)
    && var q := s'.vertices[|s.vertices|].cso;
       && hole == ToggleAll(EdgesOf(VisibleFaces(Erase(s.faces, ci), q)))
       && s'.faces == HiddenFaces(Erase(s.faces, ci), q) + NewFaces(s'.vertices, |s.vertices|, hole, normalOf, distanceOf)
  }

  /** A trace of expansions stays one after one more expansion from its last stage. */
  lemma TraceGrows(stages: seq<Stage>, chosen: seq<nat>, holes: seq<seq<Edge>>, ci: nat, hole: seq<Edge>, s': Stage,
                   support: Vec3 -> SupportPoint, normalOf: NormalFn, distanceOf: DistanceFn)
    requires |stages| == |chosen| + 1 && |chosen| == |holes|
    requires forall k | 0 <= k < |chosen| :: Expanded(stages[k], chosen[k], holes[k], stages[k + 1], support, normalOf, distanceOf)
    requires Expanded(stages[|chosen|], ci, hole, s', support, normalOf, distanceOf)
    ensures var stages', chosen', holes' := stages + [s'], chosen + [ci], holes + [hole];
      forall k | 0 <= k < |chosen'| :: Expanded(stages'[k], chosen'[k], holes'[k], stages'[k + 1], support, normalOf, distanceOf)
  {
    var stages', chosen', holes' := stages + [s'], chosen + [ci], holes + [hole];
    forall k | 0 <= k < |chosen'|
      ensures Expanded(stages'[k], chosen'[k], holes'[k], stages'[k + 1], support, normalOf, distanceOf)
    {
      assert stages'[k] == stages[k] && chosen'[k] == (chosen + [ci])[k] && holes'[k] == (holes + [hole])[k];
      if k < |chosen| {
        assert stages'[k + 1] == stages[k + 1] && chosen'[k] == chosen[k] && holes'[k] == holes[k];
      }
    }
  }

  /** The closest distance the search compares with before expansion k: the float
      maximum before the first, then the distance of the face chosen at expansion k - 1. */
  ghost function PrevDist(stages: seq<Stage>, chosen: seq<nat>, k: nat): real
    requires k <= |chosen| < |stages|
    requires forall i | 0 <= i < |chosen| :: chosen[i] < |stages[i].faces|
  {
    if k == 0 then FloatMax else stages[k - 1].faces[chosen[k - 1]].distance
  }

  /** Extending a trace by one expansion keeps the distances compared before the
      earlier ones. */
  lemma PrevDistGrows(stages: seq<Stage>, chosen: seq<nat>, s': Stage, ci: nat, k: nat)
    requires k <= |chosen| < |stages|
    requires forall i | 0 <= i < |chosen| :: chosen[i] < |stages[i].faces|
    requires ci < |stages[|chosen|].faces|
    ensures forall i | 0 <= i < |chosen| + 1 :: (chosen + [ci])[i] < |(stages + [s'])[i].faces|
    ensures PrevDist(stages + [s'], chosen + [ci], k) == PrevDist(stages, chosen, k)
  {
    forall i | 0 <= i < |chosen| + 1
      ensures (chosen + [ci])[i] < |(stages + [s'])[i].faces|
    {
      assert (stages + [s'])[i] == stages[i];
    }
    if k > 0 {
      assert (stages + [s'])[k - 1] == stages[k - 1] && (chosen + [ci])[k - 1] == chosen[k - 1];
    }
  }

  /** An expansion taken because the stop test failed keeps every expansion of the
      trace tied to a failed stop test, and makes the chosen face's distance the one
      compared with next. */
  lemma FailedStopGrows(stages: seq<Stage>, chosen: seq<nat>, s': Stage, ci: nat)
    requires |chosen| < |stages|
    requires forall k | 0 <= k < |chosen| :: chosen[k] < |stages[k].faces|
    requires forall k | 0 <= k < |chosen| ::
      PrevDist(stages, chosen, k) - stages[k].faces[chosen[k]].distance > MinFDifference
    requires ci < |stages[|chosen|].faces|
    requires PrevDist(stages, chosen, |chosen|) - stages[|chosen|].faces[ci].distance > MinFDifference
    ensures forall k | 0 <= k < |chosen| + 1 :: (chosen + [ci])[k] < |(stages + [s'])[k].faces|
    ensures PrevDist(stages + [s'], chosen + [ci], |chosen| + 1) == stages[|chosen|].faces[ci].distance
    ensures forall k | 0 <= k < |chosen| + 1 ::
      PrevDist(stages + [s'], chosen + [ci], k) - (stages + [s'])[k].faces[(chosen + [ci])[k]].distance > MinFDifference
  {
    var stages', chosen' := stages + [s'], chosen + [ci];
    PrevDistGrows(stages, chosen, s', ci, 0);
    assert stages'[|chosen|] == stages[|chosen|] && chosen'[|chosen|] == ci;
    forall k | 0 <= k < |chosen| + 1
      ensures PrevDist(stages', chosen', k) - stages'[k].faces[chosen'[k]].distance > MinFDifference
    {
      PrevDistGrows(stages, chosen, s', ci, k);
      assert stages'[k] == stages[k];
      if k < |chosen| {
        assert chosen'[k] == chosen[k];
      }
    }
  }

  /** A search trace: stage k + 1 is stage k expanded at the face chosen[k], closing
      holes[k], and every expansion was taken because the stop test failed, that is the
      distance compared with before it exceeded the chosen face's distance by more than
      MinFDifference. */
  ghost predicate SearchTrace(stages: seq<Stage>, chosen: seq<nat>, holes: seq<seq<Edge>>,
                              support: Vec3 -> SupportPoint, normalOf: NormalFn, distanceOf: DistanceFn)
  {
    && |stages| == |chosen| + 1 && |chosen| == |holes|
    && (forall k | 0 <= k < |chosen| :: Expanded(stages[k], chosen[k], holes[k], stages[k + 1], support, normalOf, distanceOf))
    && (forall k | 0 <= k < |chosen| :: chosen[k] < |stages[k].faces|)
    && (forall k | 0 <= k < |chosen| ::
         PrevDist(stages, chosen, k) - stages[k].faces[chosen[k]].distance > MinFDifference)
  }

  /** One more expansion after a failed stop test extends a search trace, and the
      distance of the face it expanded is the one compared with next. */
  lemma SearchTraceGrows(stages: seq<Stage>, chosen: seq<nat>, holes: seq<seq<Edge>>, ci: nat, hole: seq<Edge>, s': Stage,
                         support: Vec3 -> SupportPoint, normalOf: NormalFn, distanceOf: DistanceFn)
    requires SearchTrace(stages, chosen, holes, support, normalOf, distanceOf)
    requires Expanded(stages[|chosen|], ci, hole, s', support, normalOf, distanceOf)
    requires PrevDist(stages, chosen, |chosen|) - stages[|chosen|].faces[ci].distance > MinFDifference
    ensures SearchTrace(stages + [s'], chosen + [ci], holes + [hole], support, normalOf, distanceOf)
    ensures PrevDist(stages + [s'], chosen + [ci], |chosen| + 1) == stages[|chosen|].faces[ci].distance
  {
    TraceGrows(stages, chosen, holes, ci, hole, s', support, normalOf, distanceOf);
    FailedStopGrows(stages, chosen, s', ci);
  }

  /** One pass of the search loop after a failed stop test: the polytope is expanded
      at the face ci and the trace grows by that expansion. */
  method SearchStep(vs: seq<SupportPoint>, fs: seq<Triangle>, ci: nat,
                    ghost stages: seq<Stage>, ghost chosen: seq<nat>, ghost holes: seq<seq<Edge>>,
                    support: Vec3 -> SupportPoint, normalOf: NormalFn, distanceOf: DistanceFn)
    returns (vs': seq<SupportPoint>, fs': seq<Triangle>,
             ghost stages': seq<Stage>, ghost chosen': seq<nat>, ghost holes': seq<seq<Edge>>)
    requires RefersTo(fs, |vs|) && ci < |fs|
    requires SearchTrace(stages, chosen, holes, support, normalOf, distanceOf) && stages[|chosen|] == Stage(vs, fs)
    requires forall j | 0 <= j < |fs| :: fs[ci].distance <= fs[j].distance
    requires forall j | 0 <= j < ci :: fs[j].distance > fs[ci].distance
    requires PrevDist(stages, chosen, |chosen|) - fs[ci].distance > MinFDifference
    ensures RefersTo(fs', |vs'|)
    ensures |vs'| == |vs| + 1 && vs'[..|vs|] == vs
    ensures SearchTrace(stages', chosen', holes', support, normalOf, distanceOf)
    ensures |chosen'| == |chosen| + 1 && stages'[..|stages|] == stages && stages'[|chosen'|] == Stage(vs', fs')
    ensures PrevDist(stages', chosen', |chosen'|) == fs[ci].distance
  {
    var hole;
    vs', fs', hole := Expand(vs, fs, ci, support, normalOf, distanceOf);
    assert Expanded(stages[|chosen|], ci, hole, Stage(vs', fs'), support, normalOf, distanceOf);
    SearchTraceGrows(stages, chosen, holes, ci, hole, Stage(vs', fs'), support, normalOf, distanceOf);
    stages', chosen', holes' := stages + [Stage(vs', fs')], chosen + [ci], holes + [hole];
    assert vs'[..|vs|] == vs;
  }

  /** The loop of getClosestFaceToOrigin on the polytope's vertices and faces: repeats
      face selection and expansion until the closest distance improves by at most
      MinFDifference. The `while (true)` loop runs at most `fuel` times here; `None`
      means the fuel ran out, or that no face was left (the source would then
      dereference the end iterator). `previous` is the distance the accepted one is
      compared with, the float maximum before any expansion. */
  method Search(vertices: seq<SupportPoint>, faces: seq<Triangle>, fuel: nat, support: Vec3 -> SupportPoint,
                normalOf: NormalFn, distanceOf: DistanceFn)
    returns (r: Option<nat>, dist: real, ghost previous: real, expansions: nat,
             vs: seq<SupportPoint>, fs: seq<Triangle>,
             ghost stages: seq<Stage>, ghost chosen: seq<nat>, ghost holes: seq<seq<Edge>>)
    requires RefersTo(faces, |vertices|)
    ensures RefersTo(fs, |vs|)
    ensures expansions <= fuel
    ensures |vs| == |vertices| + expansions && vs[..|vertices|] == vertices
    ensures SearchTrace(stages, chosen, holes, support, normalOf, distanceOf) && |chosen| == expansions
    ensures stages[0] == Stage(vertices, faces) && stages[expansions] == Stage(vs, fs)
    ensures r.Some? ==>
      && r.value < |fs|
      && (forall j | 0 <= j < |fs| :: dist <= fs[j].distance)
      && (dist < FloatMax ==> fs[r.value].distance == dist)
      && (dist < FloatMax ==> forall j | 0 <= j < r.value :: fs[j].distance > dist)
      && (dist == FloatMax ==> r.value == 0)
      && previous == PrevDist(stages, chosen, expansions)
      && previous - dist <= MinFDifference
    ensures r.Some? && dist < FloatMax - MinFDifference ==> expansions >= 1
    ensures r.None? ==> expansions == fuel || fs == []
  {
    var closestFDist := FloatMax;
    expansions := 0;
    vs, fs := vertices, faces;
    stages, chosen, holes := [Stage(vs, fs)], [], [];
    while expansions < fuel
      invariant RefersTo(fs, |vs|)
      invariant expansions <= fuel
      invariant |vs| == |vertices| + expansions && vs[..|vertices|] == vertices
      invariant closestFDist <= FloatMax
      invariant SearchTrace(stages, chosen, holes, support, normalOf, distanceOf) && |chosen| == expansions
      invariant stages[0] == Stage(vertices, faces) && stages[expansions] == Stage(vs, fs)
      invariant closestFDist == PrevDist(stages, chosen, expansions)
      decreases fuel - expansions
    {
      var ci, d2 := ClosestFace(fs);
      if |fs| == 0 {
        return None, d2, closestFDist, expansions, vs, fs, stages, chosen, holes;
      }
      if closestFDist - d2 <= MinFDifference {
        return Some(ci), d2, closestFDist, expansions, vs, fs, stages, chosen, holes;
      }
      vs, fs, stages, chosen, holes := SearchStep(vs, fs, ci, stages, chosen, holes, support, normalOf, distanceOf);
      closestFDist := d2;
      expansions := expansions + 1;
    }
    return None, closestFDist, closestFDist, expansions, vs, fs, stages, chosen, holes;
  }

  /** The part of the polytope the detector works on: its support points and faces
      (mVertices, mFaces). */
  class Polytope {
    var vertices: seq<SupportPoint>
    var faces: seq<Triangle>

    predicate Valid()
      reads this
    {
      RefersTo(faces, |vertices|)
    }

    constructor (vertices: seq<SupportPoint>, faces: seq<Triangle>)
      requires RefersTo(faces, |vertices|)
      ensures Valid() && this.vertices == vertices && this.faces == faces
    {
      this.vertices, this.faces := vertices, faces;
    }

    /** getClosestFaceToOrigin: the search loop run on mVertices and mFaces, which it
        leaves expanded; returns the position of the accepted face and its distance. */
    method GetClosestFaceToOrigin(fuel: nat, support: Vec3 -> SupportPoint,
                                  normalOf: NormalFn, distanceOf: DistanceFn)
      returns (r: Option<nat>, dist: real, ghost previous: real, expansions: nat,
               ghost stages: seq<Stage>, ghost chosen: seq<nat>, ghost holes: seq<seq<Edge>>)
      requires Valid()
      modifies this
      ensures Valid()
      ensures expansions <= fuel
      ensures |vertices| == |old(vertices)| + expansions && vertices[..|old(vertices)|] == old(vertices)
      ensures SearchTrace(stages, chosen, holes, support, normalOf, distanceOf) && |chosen| == expansions
      ensures stages[0] == Stage(old(vertices), old(faces)) && stages[expansions] == Stage(vertices, faces)
      ensures r.Some? ==>
        && r.value < |faces|
        && (forall j | 0 <= j < |faces| :: dist <= faces[j].distance)
        && (dist < FloatMax ==> faces[r.value].distance == dist)
        && (dist < FloatMax ==> forall j | 0 <= j < r.value :: faces[j].distance > dist)
        && (dist == FloatMax ==> r.value == 0)
        && previous == PrevDist(stages, chosen, expansions)
        && previous - dist <= MinFDifference
      ensures r.Some? && dist < FloatMax - MinFDifference ==> expansions >= 1
      ensures r.None? ==> expansions == fuel || faces == []
    {
      var vs, fs;
      r, dist, previous, expansions, vs, fs, stages, chosen, holes := Search(vertices, faces, fuel, support, normalOf, distanceOf);
      vertices, faces := vs, fs;
    }
  }

  // ------------------------------------------------------------ the contact

  /** projectPointOnTriangle (lines 126-145): with u = t1 - t0, v = t2 - t0,
      w = point - t0 and n = u x v, returns (gamma, beta, alpha) where
      gamma = ((u x w) . n) / (n . n), beta = ((w x v) . n) / (n . n) and
      alpha = 1 - gamma - beta. The source asserts every weight lies in [0, 1], which
      needs a triangle that is not degenerate. */
  function ProjectPointOnTriangle(point: Vec3, t0: Vec3, t1: Vec3, t2: Vec3): (w: Vec3)
    requires Dot(Cross(Sub(t1, t0), Sub(t2, t0)), Cross(Sub(t1, t0), Sub(t2, t0))) != 0.0
    ensures w.x + w.y + w.z == 1.0
  {
    var u, v, w := Sub(t1, t0), Sub(t2, t0), Sub(point, t0);
    var n := Cross(u, v);
    var gamma := Dot(Cross(u, w), n) / Dot(n, n);
    var beta := Dot(Cross(w, v), n) / Dot(n, n);
    Vec3(gamma, beta, 1.0 - gamma - beta)
  }

  /** The weights as calculate applies them (lines 38-40): the first weight to the
      first vertex (mAB.mP1), the second to the second, the third to the third. */
  function InterpolateAsWritten(w: Vec3, p0: Vec3, p1: Vec3, p2: Vec3): Vec3 {
    Add(Add(Scale(w.x, p0), Scale(w.y, p1)), Scale(w.z, p2))
  }

  /** The weights in the order projectPointOnTriangle returns them: (gamma, beta,
      alpha) belong to the third, second and first vertex. */
  function Interpolate(w: Vec3, p0: Vec3, p1: Vec3, p2: Vec3): Vec3 {
    Add(Add(Scale(w.z, p0), Scale(w.y, p1)), Scale(w.x, p2))
  }

  /** The weights name the point's position in the triangle's plane: for
      point = t0 + s u + t v + h n the weights are (t, s, 1 - t - s), whatever the
      offset h along the normal. */
  lemma ProjectionWeights(t0: Vec3, t1: Vec3, t2: Vec3, s: real, t: real, h: real)
    requires var n := Cross(Sub(t1, t0), Sub(t2, t0)); Dot(n, n) != 0.0
    ensures var u, v := Sub(t1, t0), Sub(t2, t0);
      var point := Add(Add(Add(t0, Scale(s, u)), Scale(t, v)), Scale(h, Cross(u, v)));
      ProjectPointOnTriangle(point, t0, t1, t2) == Vec3(t, s, 1.0 - t - s)
  {
    var u, v := Sub(t1, t0), Sub(t2, t0);
    var n := Cross(u, v);
    var nn := Dot(n, n);
    var point := Add(Add(Add(t0, Scale(s, u)), Scale(t, v)), Scale(h, n));
    var w := Sub(point, t0);
    assert w == Add(Add(Scale(s, u), Scale(t, v)), Scale(h, n));
    CrossWeights(u, v, s, t, h);
    assert Dot(Cross(u, w), n) == t * nn;
    assert Dot(Cross(w, v), n) == s * nn;
  }

  /** Interpolating the projection weights gives back the orthogonal projection of the
      point on the triangle's plane: for point = t0 + s u + t v + h n the result is
      t0 + s u + t v. */
  lemma ProjectionInterpolatesBack(t0: Vec3, t1: Vec3, t2: Vec3, s: real, t: real, h: real)
    requires var n := Cross(Sub(t1, t0), Sub(t2, t0)); Dot(n, n) != 0.0
    ensures var u, v := Sub(t1, t0), Sub(t2, t0);
      var point := Add(Add(Add(t0, Scale(s, u)), Scale(t, v)), Scale(h, Cross(u, v)));
      Interpolate(ProjectPointOnTriangle(point, t0, t1, t2), t0, t1, t2) == Add(Add(t0, Scale(s, u)), Scale(t, v))
  {
    ProjectionWeights(t0, t1, t2, s, t, h);
  }

  /** For w = s u + t v + h (u x v): (u x w) . n = t (n . n) and (w x v) . n = s (n . n). */
  lemma CrossWeights(u: Vec3, v: Vec3, s: real, t: real, h: real)
    ensures var n := Cross(u, v);
      var w := Add(Add(Scale(s, u), Scale(t, v)), Scale(h, n));
      && Dot(Cross(u, w), n) == t * Dot(n, n)
      && Dot(Cross(w, v), n) == s * Dot(n, n)
  {
    var n := Cross(u, v);
    var w := Add(Add(Scale(s, u), Scale(t, v)), Scale(h, n));
    CrossWeightsFirst(u, v, n, w, s, t, h);
    CrossWeightsSecond(u, v, n, w, s, t, h);
  }

  lemma CrossWeightsFirst(u: Vec3, v: Vec3, n: Vec3, w: Vec3, s: real, t: real, h: real)
    requires n == Cross(u, v) && w == Add(Add(Scale(s, u), Scale(t, v)), Scale(h, n))
    ensures Dot(Cross(u, w), n) == t * Dot(n, n)
  {
    var su, tv, hn := Scale(s, u), Scale(t, v), Scale(h, n);
    CrossAddRight(u, Add(su, tv), hn);
    CrossAddRight(u, su, tv);
    CrossScaleRight(u, s, u);
    CrossScaleRight(u, t, v);
    CrossScaleRight(u, h, n);
    assert Cross(u, u) == Zero;
    var c := Cross(u, n);
    assert Cross(u, w) == Add(Add(Scale(s, Zero), Scale(t, n)), Scale(h, c));
    DotAddScale(Scale(s, Zero), t, n, h, c, n);
    TripleProductZero(u, n);
    assert Dot(c, n) == 0.0;
  }

  lemma CrossWeightsSecond(u: Vec3, v: Vec3, n: Vec3, w: Vec3, s: real, t: real, h: real)
    requires n == Cross(u, v) && w == Add(Add(Scale(s, u), Scale(t, v)), Scale(h, n))
    ensures Dot(Cross(w, v), n) == s * Dot(n, n)
  {
    var su, tv, hn := Scale(s, u), Scale(t, v), Scale(h, n);
    CrossAddLeft(Add(su, tv), hn, v);
    CrossAddLeft(su, tv, v);
    CrossScaleLeft(s, u, v);
    CrossScaleLeft(t, v, v);
    CrossScaleLeft(h, n, v);
    assert Cross(v, v) == Zero;
    var c := Cross(n, v);
    assert Cross(w, v) == Add(Add(Scale(s, n), Scale(t, Zero)), Scale(h, c));
    DotAddScaleSecond(s, n, Scale(t, Zero), h, c, n);
    TripleProductZero(v, n);
    assert Dot(c, n) == 0.0;
  }

  lemma CrossAddRight(a: Vec3, b: Vec3, c: Vec3)
    ensures Cross(a, Add(b, c)) == Add(Cross(a, b), Cross(a, c))
  {
  }

  lemma CrossAddLeft(a: Vec3, b: Vec3, c: Vec3)
    ensures Cross(Add(a, b), c) == Add(Cross(a, c), Cross(b, c))
  {
  }

  lemma CrossScaleRight(a: Vec3, k: real, b: Vec3)
    ensures Cross(a, Scale(k, b)) == Scale(k, Cross(a, b))
  {
    ScaledDifference(a.y, b.z, a.z, b.y, k);
    ScaledDifference(a.z, b.x, a.x, b.z, k);
    ScaledDifference(a.x, b.y, a.y, b.x, k);
    assert Cross(a, Scale(k, b)) == Vec3(a.y * (k * b.z) - a.z * (k * b.y), a.z * (k * b.x) - a.x * (k * b.z),
                                         a.x * (k * b.y) - a.y * (k * b.x));
    assert Scale(k, Cross(a, b)) == Vec3(k * (a.y * b.z - a.z * b.y), k * (a.z * b.x - a.x * b.z),
                                         k * (a.x * b.y - a.y * b.x));
  }

  lemma CrossScaleLeft(k: real, a: Vec3, b: Vec3)
    ensures Cross(Scale(k, a), b) == Scale(k, Cross(a, b))
  {
    ScaledDifference(b.z, a.y, b.y, a.z, k);
    ScaledDifference(b.x, a.z, b.z, a.x, k);
    ScaledDifference(b.y, a.x, b.x, a.y, k);
    assert Cross(Scale(k, a), b) == Vec3(b.z * (k * a.y) - b.y * (k * a.z), b.x * (k * a.z) - b.z * (k * a.x),
                                         b.y * (k * a.x) - b.x * (k * a.y));
  }

  /** p (k q) - r (k t) == k (p q - r t), each product reordered explicitly. */
  lemma ScaledDifference(p: real, q: real, r: real, t: real, k: real)
    ensures p * (k * q) - r * (k * t) == k * (p * q - r * t)
    ensures (k * q) * p - (k * t) * r == k * (q * p - t * r)
  {
    calc {
      p * (k * q) - r * (k * t);
      (p * k) * q - (r * k) * t;
      (k * p) * q - (k * r) * t;
      k * (p * q) - k * (r * t);
      k * (p * q - r * t);
    }
  }

  /** (k p + z + m r) . n == k (p . n) + m (r . n) when z is the zero vector. */
  lemma DotAddScaleSecond(k: real, p: Vec3, z: Vec3, m: real, r: Vec3, n: Vec3)
    requires z == Vec3(0.0, 0.0, 0.0)
    ensures Dot(Add(Add(Scale(k, p), z), Scale(m, r)), n) == k * Dot(p, n) + m * Dot(r, n)
  {
  }

  /** (z + k p + m r) . n == k (p . n) + m (r . n) when z is the zero vector. */
  lemma DotAddScale(z: Vec3, k: real, p: Vec3, m: real, r: Vec3, n: Vec3)
    requires z == Vec3(0.0, 0.0, 0.0)
    ensures Dot(Add(Add(z, Scale(k, p)), Scale(m, r)), n) == k * Dot(p, n) + m * Dot(r, n)
  {
  }

  /** The order as written misplaces the point: on any triangle that is not
      degenerate, a point on the normal through the first vertex (the origin for the
      triangle (0,0,1), (1,0,1), (0,1,1), say) projects onto the first vertex, and the
      weights as calculate applies them give the third, a different point. */
  lemma AsWrittenMisplacesProjection(t0: Vec3, t1: Vec3, t2: Vec3, h: real)
    requires var n := Cross(Sub(t1, t0), Sub(t2, t0)); Dot(n, n) != 0.0
    ensures var point := Add(t0, Scale(h, Cross(Sub(t1, t0), Sub(t2, t0))));
      var w := ProjectPointOnTriangle(point, t0, t1, t2);
      && Interpolate(w, t0, t1, t2) == t0
      && InterpolateAsWritten(w, t0, t1, t2) == t2
      && t0 != t2
  {
    var u, v := Sub(t1, t0), Sub(t2, t0);
    var n := Cross(u, v);
    var point := Add(t0, Scale(h, n));
    assert Add(Add(Add(t0, Scale(0.0, u)), Scale(0.0, v)), Scale(h, n)) == point by {
      assert Scale(0.0, u) == Scale(0.0, v) == Zero;
    }
    ProjectionWeights(t0, t1, t2, 0.0, 0.0, h);
    var w := ProjectPointOnTriangle(point, t0, t1, t2);
    AtFirstVertex(w, t0, t1, t2);
  }

  /** The weights (0, 0, 1) pick the first vertex; as written they pick the third. */
  lemma AtFirstVertex(w: Vec3, p0: Vec3, p1: Vec3, p2: Vec3)
    requires w == Vec3(0.0, 0.0, 1.0)
    ensures Interpolate(w, p0, p1, p2) == p0
    ensures InterpolateAsWritten(w, p0, p1, p2) == p2
  {
    assert Scale(w.x, p2) == Scale(w.y, p1) == Scale(w.x, p0) == Zero;
    assert Scale(w.z, p0) == p0 && Scale(w.z, p2) == p2;
  }

  /** The contact EPA returns: penetration, normal, and the world and local position
      on each collider. */
  datatype Contact = Contact(penetration: real, normal: Vec3,
                             world0: Vec3, world1: Vec3, local0: Vec3, local1: Vec3)

  /** Component 0 of the interpolation as written, the other two left at 0 (the loop
      over j stops at 1, lines 44-51). */
  function FirstComponentOnly(w: Vec3, p0: Vec3, p1: Vec3, p2: Vec3): (r: Vec3)
    ensures r.y == 0.0 && r.z == 0.0
    ensures r.x == InterpolateAsWritten(w, p0, p1, p2).x
  {
    Vec3(w.x * p0.x + w.y * p1.x + w.z * p2.x, 0.0, 0.0)
  }

  /** calculate (lines 27-54) for an accepted face: the origin is projected on the
      face, the weights, applied as written, give the (normalised) contact normal and,
      in component 0 only, the four contact positions. */
  function Calculate(vertices: seq<SupportPoint>, face: Triangle, dist: real, normalize: Vec3 -> Vec3): (c: Contact)
    requires face.a < |vertices| && face.b < |vertices| && face.c < |vertices|
    requires var n := Cross(Sub(vertices[face.b].cso, vertices[face.a].cso), Sub(vertices[face.c].cso, vertices[face.a].cso));
      Dot(n, n) != 0.0
    ensures c.penetration == dist
    ensures var A, B, C := vertices[face.a], vertices[face.b], vertices[face.c];
      var w := ProjectPointOnTriangle(Zero, A.cso, B.cso, C.cso);
      && c.normal == normalize(InterpolateAsWritten(w, A.cso, B.cso, C.cso))
      && c.world0 == Vec3(InterpolateAsWritten(w, A.world0, B.world0, C.world0).x, 0.0, 0.0)
      && c.world1 == Vec3(InterpolateAsWritten(w, A.world1, B.world1, C.world1).x, 0.0, 0.0)
      && c.local0 == Vec3(InterpolateAsWritten(w, A.local0, B.local0, C.local0).x, 0.0, 0.0)
      && c.local1 == Vec3(InterpolateAsWritten(w, A.local1, B.local1, C.local1).x, 0.0, 0.0)
  {
    var A, B, C := vertices[face.a], vertices[face.b], vertices[face.c];
    var w := ProjectPointOnTriangle(Zero, A.cso, B.cso, C.cso);
    Contact(dist, normalize(InterpolateAsWritten(w, A.cso, B.cso, C.cso)),
            FirstComponentOnly(w, A.world0, B.world0, C.world0),
            FirstComponentOnly(w, A.world1, B.world1, C.world1),
            FirstComponentOnly(w, A.local0, B.local0, C.local0),
            FirstComponentOnly(w, A.local1, B.local1, C.local1))
  }

  /** calculate with each weight applied to the vertex it belongs to. */
  function CalculateIntended(vertices: seq<SupportPoint>, face: Triangle, dist: real, normalize: Vec3 -> Vec3): (c: Contact)
    requires face.a < |vertices| && face.b < |vertices| && face.c < |vertices|
    requires var n := Cross(Sub(vertices[face.b].cso, vertices[face.a].cso), Sub(vertices[face.c].cso, vertices[face.a].cso));
      Dot(n, n) != 0.0
    ensures c.penetration == dist
    ensures c.world0.y == 0.0 && c.world0.z == 0.0 && c.world1.y == 0.0 && c.world1.z == 0.0
    ensures c.local0.y == 0.0 && c.local0.z == 0.0 && c.local1.y == 0.0 && c.local1.z == 0.0
  {
    var A, B, C := vertices[face.a], vertices[face.b], vertices[face.c];
    var w := ProjectPointOnTriangle(Zero, A.cso, B.cso, C.cso);
    Contact(dist, normalize(Interpolate(w, A.cso, B.cso, C.cso)),
            Vec3(Interpolate(w, A.world0, B.world0, C.world0).x, 0.0, 0.0),
            Vec3(Interpolate(w, A.world1, B.world1, C.world1).x, 0.0, 0.0),
            Vec3(Interpolate(w, A.local0, B.local0, C.local0).x, 0.0, 0.0),
            Vec3(Interpolate(w, A.local1, B.local1, C.local1).x, 0.0, 0.0))
  }

  /** With the weights in their intended order, the contact normal is the direction of
      the origin's projection on the face's plane: when the origin is
      A + s (B - A) + t (C - A) + h n, the normal is normalize(A + s (B - A) + t (C - A)). */
  lemma IntendedNormalIsProjection(vertices: seq<SupportPoint>, face: Triangle, dist: real, normalize: Vec3 -> Vec3,
                                   s: real, t: real, h: real)
    requires face.a < |vertices| && face.b < |vertices| && face.c < |vertices|
    requires var n := Cross(Sub(vertices[face.b].cso, vertices[face.a].cso), Sub(vertices[face.c].cso, vertices[face.a].cso));
      Dot(n, n) != 0.0
    requires var A, B, C := vertices[face.a].cso, vertices[face.b].cso, vertices[face.c].cso;
      var u, v := Sub(B, A), Sub(C, A);
      Zero == Add(Add(Add(A, Scale(s, u)), Scale(t, v)), Scale(h, Cross(u, v)))
    ensures var A, B, C := vertices[face.a].cso, vertices[face.b].cso, vertices[face.c].cso;
      CalculateIntended(vertices, face, dist, normalize).normal
        == normalize(Add(Add(A, Scale(s, Sub(B, A))), Scale(t, Sub(C, A))))
  {
    var A, B, C := vertices[face.a].cso, vertices[face.b].cso, vertices[face.c].cso;
    ProjectionInterpolatesBack(A, B, C, s, t, h);
  }
}
