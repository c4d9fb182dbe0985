/** graphics::RendererTerrain (sombra-engine RendererTerrain.cpp): each frame the
    terrain's quadtree is walked, every leaf is submitted as one instance to one of
    nine patches chosen by which neighbours have a coarser level of detail, and every
    patch then draws its instances and forgets them.

    QuadTree.h is not part of this model: a node is modelled with the fields the
    renderer reads (its offset from the parent, whether it is a leaf, its LOD, the LODs
    of its four neighbours and its children). The vertex buffers, the GPU program and
    the draw call are left out; drawing is modelled by what it hands to the GPU. */
module TerrainRendering {
  import opened Geometry

  /** The nine patches: a full-resolution one and one per coarser side or corner. */
  datatype PatchKind =
    | Normal | Bottom | Top | Left | Right
    | BottomLeft | BottomRight | TopLeft | TopRight

  datatype NeighbourLods = NeighbourLods(bottom: int, top: int, left: int, right: int)

  datatype Node = Node(
    xzSeparation: Vec2,
    isLeaf: bool,
    lod: int,
    neighboursLods: NeighbourLods,
    children: seq<Node>)

  /** One submitted instance: the patch it goes to, the node's location and LOD. */
  datatype Instance = Instance(kind: PatchKind, location: Vec2, lod: int)

  function Plus(a: Vec2, b: Vec2): Vec2 {
    Vec2(a.x + b.x, a.z + b.z)
  }

  predicate IsCorner(k: PatchKind) {
    k == BottomLeft || k == BottomRight || k == TopLeft || k == TopRight
  }

  /** The patch a leaf of the given LOD goes to. A neighbour is coarser when its LOD is
      below the node's; Bottom is tested before Top and Left before Right, so a corner
      needs a coarser bottom or top neighbour together with a coarser left or right
      one, and only a leaf with no coarser neighbour goes to the normal patch. */
  function Classify(lod: int, n: NeighbourLods): (k: PatchKind)
    ensures k == Normal <==> n.bottom >= lod && n.top >= lod && n.left >= lod && n.right >= lod
    ensures IsCorner(k) <==> (n.bottom < lod || n.top < lod) && (n.left < lod || n.right < lod)
    ensures n.bottom < lod <==> k in {Bottom, BottomLeft, BottomRight}
    ensures n.left < lod && (n.bottom < lod || n.top < lod) <==> k in {BottomLeft, TopLeft}
    ensures n.left < lod && n.bottom >= lod && n.top >= lod <==> k == Left
  {
    if n.bottom < lod then
      if n.left < lod then BottomLeft
      else if n.right < lod then BottomRight
      else Bottom
    else if n.top < lod then
      if n.left < lod then TopLeft
      else if n.right < lod then TopRight
      else Top
    else if n.left < lod then Left
    else if n.right < lod then Right
    else Normal
  }

  /** The instances submitNode(node, parentLocation) submits, in order: one for a
      leaf, at the parent's location plus the node's offset, and otherwise those of
      its children, each placed relative to the node's own location. */
  function Submitted(node: Node, parentLocation: Vec2): seq<Instance>
    decreases node, 1
  {
    var location := Plus(parentLocation, node.xzSeparation);
    if node.isLeaf then [Instance(Classify(node.lod, node.neighboursLods), location, node.lod)]
    else SubmittedChildren(node, |node.children|, location)
  }

  /** The instances of the first n children of `node`, placed relative to `location`. */
  function SubmittedChildren(node: Node, n: nat, location: Vec2): seq<Instance>
    requires n <= |node.children|
    decreases node, 0, n
  {
    if n == 0 then [] else SubmittedChildren(node, n - 1, location) + Submitted(node.children[n - 1], location)
  }

  /** The number of leaves of a quadtree: an independent count to compare the
      submissions against. */
  function LeafCount(node: Node): nat
    decreases node, 1
  {
    if node.isLeaf then 1 else LeafCountChildren(node, |node.children|)
  }

  function LeafCountChildren(node: Node, n: nat): nat
    requires n <= |node.children|
    decreases node, 0, n
  {
    if n == 0 then 0 else LeafCountChildren(node, n - 1) + LeafCount(node.children[n - 1])
  }

  /** Every leaf is submitted exactly once and nothing else is. */
  lemma {:induction false} SubmittedCount(node: Node, parentLocation: Vec2)
    ensures |Submitted(node, parentLocation)| == LeafCount(node)
    decreases node, 1
  {
    if !node.isLeaf {
      SubmittedChildrenCount(node, |node.children|, Plus(parentLocation, node.xzSeparation));
    }
  }

  lemma {:induction false} SubmittedChildrenCount(node: Node, n: nat, location: Vec2)
    requires n <= |node.children|
    ensures |SubmittedChildren(node, n, location)| == LeafCountChildren(node, n)
    decreases node, 0, n
  {
    if n > 0 {
      SubmittedChildrenCount(node, n - 1, location);
      SubmittedCount(node.children[n - 1], location);
    }
  }

  /** A leaf goes to exactly one patch, the one Classify picks, at its own location. */
  lemma LeafSubmittedOnce(node: Node, parentLocation: Vec2)
    requires node.isLeaf
    ensures Submitted(node, parentLocation)
      == [Instance(Classify(node.lod, node.neighboursLods), Plus(parentLocation, node.xzSeparation), node.lod)]
  {
  }

  /** The instances that go to patch k, in submission order. */
  function For(k: PatchKind, s: seq<Instance>): (r: seq<Instance>)
    ensures |r| <= |s|
    ensures forall i :: 0 <= i < |r| ==> r[i].kind == k
  {
    if |s| == 0 then []
    else For(k, s[..|s| - 1]) + (if s[|s| - 1].kind == k then [s[|s| - 1]] else [])
  }

  /** Patch k receives every submission of its kind, as often as it was submitted, and
      nothing else. */
  lemma {:induction false} ForSelects(k: PatchKind, s: seq<Instance>)
    ensures forall x :: multiset(For(k, s))[x] == if x.kind == k then multiset(s)[x] else 0
  {
    if |s| > 0 {
      ForSelects(k, s[..|s| - 1]);
      assert s == s[..|s| - 1] + [s[|s| - 1]];
    }
  }

  lemma {:induction false} ForAppend(k: PatchKind, a: seq<Instance>, b: seq<Instance>)
    ensures For(k, a + b) == For(k, a) + For(k, b)
    decreases |b|
  {
    if |b| > 0 {
      var last := b[|b| - 1];
      assert (a + b)[..|a + b| - 1] == a + b[..|b| - 1];
      assert (a + b)[|a + b| - 1] == last;
      ForAppend(k, a, b[..|b| - 1]);
    } else {
      assert a + b == a;
    }
  }

  /** The locations and LODs a patch receives for a + b are those for a, then those
      for b. */
  lemma DrawnAppend(k: PatchKind, a: seq<Instance>, b: seq<Instance>)
    ensures Locations(For(k, a + b)) == Locations(For(k, a)) + Locations(For(k, b))
    ensures Lods(For(k, a + b)) == Lods(For(k, a)) + Lods(For(k, b))
  {
    ForAppend(k, a, b);
  }

  lemma HeldAppend<T>(held: seq<T>, a: seq<T>, b: seq<T>)
    ensures held + (a + b) == held + a + b
  {
  }

  /** One more child: a patch that held `heldLocations` and `heldLods` before the
      children receives what it got from the earlier children, then what it gets
      from this one. */
  lemma DrawnStep(k: PatchKind, node: Node, i: nat, location: Vec2, heldLocations: seq<Vec2>, heldLods: seq<int>)
    requires i < |node.children|
    ensures heldLocations + Locations(For(k, SubmittedChildren(node, i + 1, location)))
      == heldLocations + Locations(For(k, SubmittedChildren(node, i, location))) + Locations(For(k, Submitted(node.children[i], location)))
    ensures heldLods + Lods(For(k, SubmittedChildren(node, i + 1, location)))
      == heldLods + Lods(For(k, SubmittedChildren(node, i, location))) + Lods(For(k, Submitted(node.children[i], location)))
  {
    var earlier := SubmittedChildren(node, i, location);
    var child := Submitted(node.children[i], location);
    assert SubmittedChildren(node, i + 1, location) == earlier + child;
    DrawnAppend(k, earlier, child);
    HeldAppend(heldLocations, Locations(For(k, earlier)), Locations(For(k, child)));
    HeldAppend(heldLods, Lods(For(k, earlier)), Lods(For(k, child)));
  }

  /** The nine patches share out the submissions: their counts add up to the total. */
  lemma {:induction false} PatchesPartition(s: seq<Instance>)
    ensures |For(Normal, s)| + |For(Bottom, s)| + |For(Top, s)| + |For(Left, s)| + |For(Right, s)|
      + |For(BottomLeft, s)| + |For(BottomRight, s)| + |For(TopLeft, s)| + |For(TopRight, s)| == |s|
  {
    if |s| > 0 {
      PatchesPartition(s[..|s| - 1]);
    }
  }

  function Locations(s: seq<Instance>): (r: seq<Vec2>)
    ensures |r| == |s| && forall i :: 0 <= i < |s| ==> r[i] == s[i].location
  {
    seq(|s|, i requires 0 <= i < |s| => s[i].location)
  }

  function Lods(s: seq<Instance>): (r: seq<int>)
    ensures |r| == |s| && forall i :: 0 <= i < |s| ==> r[i] == s[i].lod
  {
    seq(|s|, i requires 0 <= i < |s| => s[i].lod)
  }

  /** RendererTerrain::Patch, without its vertex buffers: the instances submitted
      since the last draw, as a count and two parallel lists. */
  class Patch {
    /** Which of the nine patches this is; it tells them apart. */
    ghost const kind: PatchKind
    var instanceCount: nat
    var xzLocations: seq<Vec2>
    var lods: seq<int>

    /** The count and both lists always agree. */
    predicate Valid()
      reads this
    {
      instanceCount == |xzLocations| && instanceCount == |lods|
    }

    /** The patch of kind k, holding no instance. */
    ghost predicate EmptyOf(k: PatchKind)
      reads this
    {
      kind == k && instanceCount == 0 && |xzLocations| == 0 && |lods| == 0
    }

    constructor (ghost kind: PatchKind)
      ensures EmptyOf(kind)
    {
      this.kind := kind;
      instanceCount := 0;
      xzLocations := [];
      lods := [];
    }

    /** submitInstance: one more instance, its location and LOD appended. */
    method SubmitInstance(nodeLocation: Vec2, lod: int)
      requires Valid()
      modifies this
      ensures Valid()
      ensures instanceCount == old(instanceCount) + 1
      ensures xzLocations == old(xzLocations) + [nodeLocation] && lods == old(lods) + [lod]
    {
      instanceCount := instanceCount + 1;
      xzLocations := xzLocations + [nodeLocation];
      lods := lods + [lod];
    }

    /** drawInstances: hands the count and both lists to the draw call, then clears
        them. */
    method DrawInstances() returns (count: nat, locations: seq<Vec2>, drawnLods: seq<int>)
      requires Valid()
      modifies this
      ensures count == old(instanceCount) && locations == old(xzLocations) && drawnLods == old(lods)
      ensures Valid() && instanceCount == 0
    {
      count, locations, drawnLods := instanceCount, xzLocations, lods;
      instanceCount := 0;
      xzLocations := [];
      lods := [];
    }
  }

  /** The instances of a whole frame: those of the quadtree, its root at the origin. */
  function FrameInstances(root: Node): seq<Instance> {
    Submitted(root, Vec2(0.0, 0.0))
  }

  /** Over one frame the nine patches together receive one instance per leaf. */
  lemma FrameCoversLeaves(root: Node)
    ensures var s := FrameInstances(root);
      |For(Normal, s)| + |For(Bottom, s)| + |For(Top, s)| + |For(Left, s)| + |For(Right, s)|
      + |For(BottomLeft, s)| + |For(BottomRight, s)| + |For(TopLeft, s)| + |For(TopRight, s)| == LeafCount(root)
  {
    PatchesPartition(FrameInstances(root));
    SubmittedCount(root, Vec2(0.0, 0.0));
  }

  /** RendererTerrain without its GPU program: the nine patches, looked up by kind
      (the source holds them in nine members, mNormal to mTopRight). */
  class RendererTerrain {
    const normal: Patch
    const bottom: Patch
    const top: Patch
    const left: Patch
    const right: Patch
    const bottomLeft: Patch
    const bottomRight: Patch
    const topLeft: Patch
    const topRight: Patch

    /** The member holding the patch of kind k. */
    function PatchFor(k: PatchKind): Patch
      reads this
    {
      match k
      case Normal => normal
      case Bottom => bottom
      case Top => top
      case Left => left
      case Right => right
      case BottomLeft => bottomLeft
      case BottomRight => bottomRight
      case TopLeft => topLeft
      case TopRight => topRight
    }

    ghost function Patches(): set<object>
      reads this
    {
      {normal, bottom, top, left, right, bottomLeft, bottomRight, topLeft, topRight}
    }

    /** Nine distinct patches, each with its count and lists in agreement. */
    ghost predicate Valid()
      reads this, Patches()
    {
      forall k :: PatchFor(k).kind == k && PatchFor(k).Valid()
    }

    /** Between frames no patch holds an instance. */
    ghost predicate Idle()
      reads this, Patches()
    {
      forall k :: PatchFor(k).instanceCount == 0
    }

    constructor ()
      ensures Valid() && Idle()
    {
      normal := new Patch(Normal);
      bottom := new Patch(Bottom);
      top := new Patch(Top);
      left := new Patch(Left);
      right := new Patch(Right);
      bottomLeft := new Patch(BottomLeft);
      bottomRight := new Patch(BottomRight);
      topLeft := new Patch(TopLeft);
      topRight := new Patch(TopRight);
      new;
      EmptyPatchesAreIdle();
    }

    /** Nine patches that carry their own kinds and hold nothing form an idle
        renderer. */
    lemma EmptyPatchesAreIdle()
      requires normal.EmptyOf(Normal)
      requires bottom.EmptyOf(Bottom)
      requires top.EmptyOf(Top)
      requires left.EmptyOf(Left)
      requires right.EmptyOf(Right)
      requires bottomLeft.EmptyOf(BottomLeft)
      requires bottomRight.EmptyOf(BottomRight)
      requires topLeft.EmptyOf(TopLeft)
      requires topRight.EmptyOf(TopRight)
      ensures Valid() && Idle()
    {
      forall k ensures PatchFor(k).kind == k && PatchFor(k).Valid() && PatchFor(k).instanceCount == 0 {
        match k
        case Normal =>
        case Bottom =>
        case Top =>
        case Left =>
        case Right =>
        case BottomLeft =>
        case BottomRight =>
        case TopLeft =>
        case TopRight =>
      }
    }

    /** submitNode: every patch gains, in order, the instances of the subtree that
        go to it. */
    method SubmitNode(node: Node, parentLocation: Vec2)
      requires Valid()
      modifies Patches()
      ensures Valid()
      ensures forall k ::
                && PatchFor(k).xzLocations == old(PatchFor(k).xzLocations) + Locations(For(k, Submitted(node, parentLocation)))
                && PatchFor(k).lods == old(PatchFor(k).lods) + Lods(For(k, Submitted(node, parentLocation)))
      decreases node, 1
    {
      var nodeLocation := Plus(parentLocation, node.xzSeparation);
      if node.isLeaf {
        var kind := Classify(node.lod, node.neighboursLods);
        PatchFor(kind).SubmitInstance(nodeLocation, node.lod);
      } else {
        SubmitChildren(node, nodeLocation);
      }
    }

    /** The loop of submitNode over the children of an inner node. */
    method SubmitChildren(node: Node, nodeLocation: Vec2)
      requires Valid()
      modifies Patches()
      ensures Valid()
      ensures forall k ::
                && PatchFor(k).xzLocations
                   == old(PatchFor(k).xzLocations) + Locations(For(k, SubmittedChildren(node, |node.children|, nodeLocation)))
                && PatchFor(k).lods
                   == old(PatchFor(k).lods) + Lods(For(k, SubmittedChildren(node, |node.children|, nodeLocation)))
      decreases node, 0
    {
      for i := 0 to |node.children|
        invariant Valid()
        invariant forall k ::
                    && PatchFor(k).xzLocations == old(PatchFor(k).xzLocations) + Locations(For(k, SubmittedChildren(node, i, nodeLocation)))
                    && PatchFor(k).lods == old(PatchFor(k).lods) + Lods(For(k, SubmittedChildren(node, i, nodeLocation)))
      {
        SubmitNode(node.children[i], nodeLocation);
        forall k: PatchKind
          ensures PatchFor(k).xzLocations
                  == old(PatchFor(k).xzLocations) + Locations(For(k, SubmittedChildren(node, i + 1, nodeLocation)))
          ensures PatchFor(k).lods == old(PatchFor(k).lods) + Lods(For(k, SubmittedChildren(node, i + 1, nodeLocation)))
        {
          DrawnStep(k, node, i, nodeLocation, old(PatchFor(k).xzLocations), old(PatchFor(k).lods));
        }
      }
    }
  }
}
