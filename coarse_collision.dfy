/** collision::CoarseCollisionDetector (sombra-engine CoarseCollisionDetector.cpp):
    the broad phase. Colliders are submitted together with their AABB into two
    queues kept in lockstep; getIntersectingColliders drains both queues and returns
    the set of collider pairs whose AABBs overlap, the earlier-submitted collider
    first. */
module CoarseCollision {
  import opened Geometry
  import opened Manifolds

  type ColliderPair = (ColliderId, ColliderId)

  /** The pairs of distinct submission positions i < j whose boxes overlap. */
  ghost predicate OverlapPair(colliders: seq<ColliderId>, aabbs: seq<Aabb>, p: ColliderPair)
    requires |colliders| == |aabbs|
  {
    exists i, j :: 0 <= i < j < |colliders| && Overlaps(aabbs[i], aabbs[j]) && p == (colliders[i], colliders[j])
  }

  /** The loop of getIntersectingColliders (lines 17-26) on the two queues: while
      the queues are not empty, the front collider is paired with every later one
      whose box overlaps its own, and both fronts are popped. */
  method IntersectingPairs(colliders: seq<ColliderId>, aabbs: seq<Aabb>) returns (ret: set<ColliderPair>)
    requires |colliders| == |aabbs|
    ensures forall i, j :: 0 <= i < j < |colliders| && Overlaps(aabbs[i], aabbs[j]) ==>
      (colliders[i], colliders[j]) in ret
    ensures forall p :: p in ret ==> OverlapPair(colliders, aabbs, p)
  {
    ret := {};
    var cs, bs := colliders, aabbs;
    ghost var k := 0;
    while |bs| > 0
      invariant k <= |colliders| && cs == colliders[k..] && bs == aabbs[k..]
      invariant forall i, j :: 0 <= i < k && i < j < |colliders| && Overlaps(aabbs[i], aabbs[j]) ==>
        (colliders[i], colliders[j]) in ret
      invariant forall p :: p in ret ==> OverlapPair(colliders, aabbs, p)
      decreases |bs|
    {
      ghost var before := ret;
      for i := 1 to |bs|
        invariant before <= ret
        invariant forall j :: 1 <= j < i && Overlaps(bs[0], bs[j]) ==> (cs[0], cs[j]) in ret
        invariant forall p :: p in ret ==> OverlapPair(colliders, aabbs, p)
      {
        if Overlaps(bs[0], bs[i]) {
          assert bs[0] == aabbs[k] && bs[i] == aabbs[k + i];
          assert cs[0] == colliders[k] && cs[i] == colliders[k + i];
          ret := ret + {(cs[0], cs[i])};
        }
      }
      forall i, j | 0 <= i < k + 1 && i < j < |colliders| && Overlaps(aabbs[i], aabbs[j])
        ensures (colliders[i], colliders[j]) in ret
      {
        if i == k {
          assert bs[j - k] == aabbs[j] && cs[j - k] == colliders[j];
        }
      }
      bs, cs := bs[1..], cs[1..];
      k := k + 1;
    }
  }

  class CoarseCollisionDetector {
    /** The submitted colliders and their AABBs, in submission order. */
    var colliders: seq<ColliderId>
    var aabbs: seq<Aabb>

    /** Both queues advance in lockstep. */
    predicate Valid()
      reads this
    {
      |colliders| == |aabbs|
    }

    constructor ()
      ensures Valid() && colliders == [] && aabbs == []
    {
      colliders, aabbs := [], [];
    }

    /** submit: appends the collider and its AABB (the result of
        collider->getAABB(), a parameter here). */
    method Submit(collider: ColliderId, aabb: Aabb)
      requires Valid()
      modifies this
      ensures Valid()
      ensures colliders == old(colliders) + [collider] && aabbs == old(aabbs) + [aabb]
    {
      colliders := colliders + [collider];
      aabbs := aabbs + [aabb];
    }

    /** getIntersectingColliders: every pair of submissions i < j with overlapping
        boxes is reported, nothing else is, and both queues are left empty. */
    method GetIntersectingColliders() returns (ret: set<ColliderPair>)
      requires Valid()
      modifies this
      ensures Valid() && colliders == [] && aabbs == []
      ensures forall i, j :: 0 <= i < j < |old(colliders)| && Overlaps(old(aabbs)[i], old(aabbs)[j]) ==>
        (old(colliders)[i], old(colliders)[j]) in ret
      ensures forall p :: p in ret ==> OverlapPair(old(colliders), old(aabbs), p)
    {
      ret := IntersectingPairs(colliders, aabbs);
      colliders, aabbs := [], [];
    }
  }
}
