/** collision::CollisionWorld (sombra-engine CollisionWorld.cpp): the list of colliders,
    the map from collider pairs to their manifolds, and the list of manifolds touched by
    the last update. An update erases last update's Disjoint manifolds from the map,
    runs the broad phase over every collider, and then, for each overlapping pair,
    re-collides the stored manifold (looked up as (a, b) and then as (b, a)) or creates
    one that is kept only when the fine detector reports an intersection.

    Pointers into the map (the elements of mManifolds) are the map keys here, and the
    fine detector is the one modelled in FineCollision, fed by the per-collider
    information `infoOf` and the per-pair narrow-phase outcomes `narrowOf`. */
module CollisionWorlds {
  import opened Geometry
  import opened Wrappers
  import opened Manifolds
  import opened FineCollision
  import opened CoarseCollision
  import opened SeqUtils

  function Rev(p: ColliderPair): ColliderPair {
    (p.1, p.0)
  }

  /** A stored manifold is the one between the two colliders of its key, in order. */
  predicate Keyed(k: ColliderPair, m: Manifold) {
    m.collider0 == Some(k.0) && m.collider1 == Some(k.1) && Manifolds.Valid(m)
  }

  predicate WellKeyed(mm: map<ColliderPair, Manifold>) {
    forall k | k in mm :: Keyed(k, mm[k])
  }

  /** The key under which `update` finds the manifold of `p`: (a, b) first, then (b, a). */
  function FindKey(mm: map<ColliderPair, Manifold>, p: ColliderPair): (r: Option<ColliderPair>)
    ensures r.Some? ==> r.value in mm && (r.value == p || r.value == Rev(p))
    ensures r.None? <==> p !in mm && Rev(p) !in mm
  {
    if p in mm then Some(p) else if Rev(p) in mm then Some(Rev(p)) else None
  }

  /** The lookup is order-blind: both orders of a pair find a manifold or neither does,
      and they find the same one unless the map holds both orders. */
  lemma FindKeyEitherOrder(mm: map<ColliderPair, Manifold>, p: ColliderPair)
    ensures FindKey(mm, p).Some? <==> FindKey(mm, Rev(p)).Some?
    ensures !(p in mm && Rev(p) in mm) ==> FindKey(mm, p) == FindKey(mm, Rev(p))
  {
    assert Rev(Rev(p)) == p;
  }

  /** The Intersecting flag the fine detector leaves on a manifold between two
      non-null colliders: the narrow-phase verdict when either collider was updated,
      otherwise the flag it had. */
  predicate IntersectsNow(info0: ColliderInfo, info1: ColliderInfo, narrow: NarrowPhase, was: bool) {
    if info0.updated || info1.updated then Detects(info0, info1, narrow) else was
  }

  /** Re-colliding a manifold whose colliders did not change gives the same flag. */
  lemma IntersectsNowIdempotent(info0: ColliderInfo, info1: ColliderInfo, narrow: NarrowPhase, was: bool)
    ensures IntersectsNow(info0, info1, narrow, IntersectsNow(info0, info1, narrow, was))
         == IntersectsNow(info0, info1, narrow, was)
  {
  }

  /** mFineCollisionDetector.collide on the manifold stored under `k`. */
  method CollideStored(d: Detector, infoOf: ColliderId -> ColliderInfo,
                       narrowOf: ColliderPair -> NarrowPhase, k: ColliderPair, m: Manifold)
    returns (hit: bool, r: Manifold)
    requires Keyed(k, m)
    ensures Keyed(k, r)
    ensures hit == r.state.intersecting
    ensures hit == IntersectsNow(infoOf(k.0), infoOf(k.1), narrowOf(k), m.state.intersecting)
  {
    hit, r := Collide(d, m, infoOf(k.0), infoOf(k.1), narrowOf(k));
  }

  // ------------------------------------------------------------ cleaning

  /** The map once the manifolds listed by the previous update that are Disjoint have
      been erased. */
  ghost function Cleaned(map0: map<ColliderPair, Manifold>, listed: seq<ColliderPair>): map<ColliderPair, Manifold> {
    map k | k in map0 && !(k in listed && !map0[k].state.intersecting) :: map0[k]
  }

  /** Listing a manifold again changes nothing: the cleaned map depends only on which
      keys are listed, not on how often. A collider added twice makes update list the
      same manifold twice, and the clean loop then meets a key it already erased. */
  lemma CleanedIgnoresRepeats(map0: map<ColliderPair, Manifold>, listed: seq<ColliderPair>,
                              again: seq<ColliderPair>)
    requires forall k | k in again :: k in listed
    ensures Cleaned(map0, listed + again) == Cleaned(map0, listed)
  {
    forall k
      ensures k in listed + again <==> k in listed
    {
      if k in again {
        assert k in listed;
      }
    }
  }

  /** The clean loop of update (lines 30-37): each listed manifold that is Disjoint is
      erased by its colliders' pair. A key already erased (the pointer would dangle)
      is skipped. */
  method CleanDisjoint(map0: map<ColliderPair, Manifold>, listed: seq<ColliderPair>)
    returns (map1: map<ColliderPair, Manifold>)
    requires WellKeyed(map0)
    ensures map1 == Cleaned(map0, listed)
    ensures WellKeyed(map1)
  {
    map1 := map0;
    for i := 0 to |listed|
      invariant forall k :: k in map1 <==> k in map0 && !(k in listed[..i] && !map0[k].state.intersecting)
      invariant forall k | k in map1 :: map1[k] == map0[k]
    {
      var k := listed[i];
      assert listed[..i + 1] == listed[..i] + [k];
      if k in map1 && !map1[k].state.intersecting {
        var key := (map1[k].collider0.value, map1[k].collider1.value);
        assert key == k;
        map1 := map1 - {key};
      }
    }
    assert listed[..|listed|] == listed;
  }

  // ------------------------------------------------------------ narrow phase

  /** What the narrow-phase loop leaves behind, whatever order it visits `pairs` in:
      stored manifolds stay stored; a new key is a pair the detector reports as
      intersecting; an entry not listed is untouched; every listed entry belongs to a
      pair (in either order) and carries the detector's flag; and every pair had its
      manifold listed, unless it had none and the detector reports no intersection. */
  ghost predicate Narrowed(infoOf: ColliderId -> ColliderInfo, narrowOf: ColliderPair -> NarrowPhase,
                           map0: map<ColliderPair, Manifold>, pairs: set<ColliderPair>,
                           map1: map<ColliderPair, Manifold>, listed: seq<ColliderPair>)
  {
    && WellKeyed(map1)
    && (forall k | k in map0 :: k in map1)
    && (forall k | k in map1 && k !in map0 ::
          k in pairs && k in listed && IntersectsNow(infoOf(k.0), infoOf(k.1), narrowOf(k), false))
    && (forall k | k in map1 && k !in listed :: k in map0 && map1[k] == map0[k])
    && (forall k | k in listed ::
          && k in map1
          && (k in pairs || Rev(k) in pairs)
          && map1[k].state.intersecting
             == IntersectsNow(infoOf(k.0), infoOf(k.1), narrowOf(k), k in map0 && map0[k].state.intersecting))
    && (forall p | p in pairs ::
          || p in listed || Rev(p) in listed
          || (p !in map0 && Rev(p) !in map0 && !IntersectsNow(infoOf(p.0), infoOf(p.1), narrowOf(p), false)))
  }

  /** The narrow-phase loop of update (lines 47-71), visiting the pairs of the set in
      an order left open. */
  method NarrowPass(d: Detector, infoOf: ColliderId -> ColliderInfo, narrowOf: ColliderPair -> NarrowPhase,
                    map0: map<ColliderPair, Manifold>, pairs: set<ColliderPair>)
    returns (map1: map<ColliderPair, Manifold>, listed: seq<ColliderPair>)
    requires WellKeyed(map0)
    ensures Narrowed(infoOf, narrowOf, map0, pairs, map1, listed)
  {
    map1, listed := map0, [];
    var rest := pairs;
    ghost var done: set<ColliderPair> := {};
    while rest != {}
      invariant done + rest == pairs
      invariant Narrowed(infoOf, narrowOf, map0, done, map1, listed)
      decreases rest
    {
      var p :| p in rest;
      map1, listed := NarrowPair(d, infoOf, narrowOf, map0, done, map1, listed, p);
      rest := rest - {p};
      done := done + {p};
    }
  }

  /** One pass of the narrow-phase loop for pair p: a stored manifold (under p or
      its reverse) is re-collided and listed; otherwise a new manifold is collided
      and stored and listed only when the detector reports an intersection. */
  method NarrowPair(d: Detector, infoOf: ColliderId -> ColliderInfo, narrowOf: ColliderPair -> NarrowPhase,
                    ghost map0: map<ColliderPair, Manifold>, ghost done: set<ColliderPair>,
                    map1: map<ColliderPair, Manifold>, listed: seq<ColliderPair>, p: ColliderPair)
    returns (map2: map<ColliderPair, Manifold>, listed2: seq<ColliderPair>)
    requires Narrowed(infoOf, narrowOf, map0, done, map1, listed)
    ensures Narrowed(infoOf, narrowOf, map0, done + {p}, map2, listed2)
  {
    var found := FindKey(map1, p);
    if found.Some? {
      var key := found.value;
      var _, r := CollideStored(d, infoOf, narrowOf, key, map1[key]);
      NarrowStepStored(infoOf, narrowOf, map0, done, map1, listed, p, key, r);
      map2, listed2 := map1[key := r], listed + [key];
    } else {
      var hit, r := CollideStored(d, infoOf, narrowOf, p, NewManifold(Some(p.0), Some(p.1)));
      if hit {
        NarrowStepCreated(infoOf, narrowOf, map0, done, map1, listed, p, r);
        map2, listed2 := map1[p := r], listed + [p];
      } else {
        NarrowStepMissed(infoOf, narrowOf, map0, done, map1, listed, p);
        map2, listed2 := map1, listed;
      }
    }
  }

  /** A pair whose manifold is stored: the re-collided manifold replaces it and its
      key is listed. */
  lemma NarrowStepStored(infoOf: ColliderId -> ColliderInfo, narrowOf: ColliderPair -> NarrowPhase,
                         map0: map<ColliderPair, Manifold>, done: set<ColliderPair>,
                         map1: map<ColliderPair, Manifold>, listed: seq<ColliderPair>,
                         p: ColliderPair, key: ColliderPair, r: Manifold)
    requires Narrowed(infoOf, narrowOf, map0, done, map1, listed)
    requires FindKey(map1, p) == Some(key)
    requires Keyed(key, r)
    requires r.state.intersecting == IntersectsNow(infoOf(key.0), infoOf(key.1), narrowOf(key), map1[key].state.intersecting)
    ensures Narrowed(infoOf, narrowOf, map0, done + {p}, map1[key := r], listed + [key])
  {
    IntersectsNowIdempotent(infoOf(key.0), infoOf(key.1), narrowOf(key), key in map0 && map0[key].state.intersecting);
    assert key == p || key == Rev(p);
    assert Rev(Rev(p)) == p;
  }

  /** A pair without a manifold that the detector reports as intersecting: the new
      manifold is stored under the pair and listed. */
  lemma NarrowStepCreated(infoOf: ColliderId -> ColliderInfo, narrowOf: ColliderPair -> NarrowPhase,
                          map0: map<ColliderPair, Manifold>, done: set<ColliderPair>,
                          map1: map<ColliderPair, Manifold>, listed: seq<ColliderPair>,
                          p: ColliderPair, r: Manifold)
    requires Narrowed(infoOf, narrowOf, map0, done, map1, listed)
    requires p !in map1 && Rev(p) !in map1
    requires Keyed(p, r)
    requires r.state.intersecting && IntersectsNow(infoOf(p.0), infoOf(p.1), narrowOf(p), false)
    ensures Narrowed(infoOf, narrowOf, map0, done + {p}, map1[p := r], listed + [p])
  {
  }

  /** A pair without a manifold that the detector reports as disjoint: nothing changes. */
  lemma NarrowStepMissed(infoOf: ColliderId -> ColliderInfo, narrowOf: ColliderPair -> NarrowPhase,
                         map0: map<ColliderPair, Manifold>, done: set<ColliderPair>,
                         map1: map<ColliderPair, Manifold>, listed: seq<ColliderPair>,
                         p: ColliderPair)
    requires Narrowed(infoOf, narrowOf, map0, done, map1, listed)
    requires p !in map1 && Rev(p) !in map1
    requires !IntersectsNow(infoOf(p.0), infoOf(p.1), narrowOf(p), false)
    ensures Narrowed(infoOf, narrowOf, map0, done + {p}, map1, listed)
  {
    assert p !in map0 && Rev(p) !in map0;
  }

  // ------------------------------------------------------------ broad phase input

  /** The AABB of every listed collider, in list order, as submitted to the broad phase. */
  ghost function Boxes(colliders: seq<ColliderId>, aabbOf: ColliderId -> Aabb): (r: seq<Aabb>)
    ensures |r| == |colliders|
  {
    seq(|colliders|, i requires 0 <= i < |colliders| => aabbOf(colliders[i]))
  }

  /** The pairs the broad phase reports for a collider list: positions i < j whose
      boxes overlap. */
  ghost function OverlappingPairs(colliders: seq<ColliderId>, aabbOf: ColliderId -> Aabb): set<ColliderPair> {
    var boxes := Boxes(colliders, aabbOf);
    set i, j | 0 <= i < j < |colliders| && Overlaps(boxes[i], boxes[j]) :: (colliders[i], colliders[j])
  }

  class CollisionWorld {
    /** mColliders, without null entries. */
    var colliders: seq<ColliderId>
    /** mMapCollidersManifolds. */
    var manifoldMap: map<ColliderPair, Manifold>
    /** mManifolds: the keys of the manifolds the last update collided. */
    var manifolds: seq<ColliderPair>
    const coarse: CoarseCollisionDetector

    /** Every stored manifold is between the colliders of its key, every listed key is
        stored, and the broad-phase queues are empty between updates. */
    predicate Valid()
      reads this, coarse
    {
      && coarse.Valid() && coarse.colliders == []
      && WellKeyed(manifoldMap)
      && (forall k | k in manifolds :: k in manifoldMap)
    }

    constructor ()
      ensures Valid()
      ensures colliders == [] && manifoldMap == map[] && manifolds == []
    {
      colliders, manifoldMap, manifolds := [], map[], [];
      coarse := new CoarseCollisionDetector();
    }

    /** addCollider: a null collider is ignored, any other is appended. */
    method AddCollider(collider: ColliderRef)
      requires Valid()
      modifies this
      ensures Valid()
      ensures colliders == if collider.None? then old(colliders) else old(colliders) + [collider.value]
      ensures manifoldMap == old(manifoldMap) && manifolds == old(manifolds)
    {
      if collider.None? {
        return;
      }
      colliders := colliders + [collider.value];
    }

    /** removeCollider: every occurrence goes, the others keep their order. */
    method RemoveCollider(collider: ColliderId)
      requires Valid()
      modifies this
      ensures Valid()
      ensures colliders == RemoveAll(old(colliders), collider)
      ensures manifoldMap == old(manifoldMap) && manifolds == old(manifolds)
    {
      colliders := RemoveAll(colliders, collider);
    }

    /** update: clean, broad phase, narrow phase. The map afterwards is the cleaned
        map as narrowed by the pairs the broad phase reports for the current colliders,
        and the manifold list is rebuilt from empty. */
    method Update(d: Detector, infoOf: ColliderId -> ColliderInfo, aabbOf: ColliderId -> Aabb,
                  narrowOf: ColliderPair -> NarrowPhase)
      requires Valid()
      modifies this, coarse
      ensures Valid()
      ensures colliders == old(colliders)
      ensures Narrowed(infoOf, narrowOf, Cleaned(old(manifoldMap), old(manifolds)),
                       OverlappingPairs(colliders, aabbOf), manifoldMap, manifolds)
    {
      var cleaned := CleanDisjoint(manifoldMap, manifolds);

      for i := 0 to |colliders|
        modifies coarse
        invariant coarse.Valid()
        invariant coarse.colliders == colliders[..i]
        invariant forall j | 0 <= j < i :: coarse.aabbs[j] == aabbOf(colliders[j])
      {
        coarse.Submit(colliders[i], aabbOf(colliders[i]));
      }
      assert coarse.colliders == colliders;
      assert coarse.aabbs == Boxes(colliders, aabbOf);
      var pairs := coarse.GetIntersectingColliders();
      PairsAreOverlapping(colliders, aabbOf, pairs);

      var map1, listed := NarrowPass(d, infoOf, narrowOf, cleaned, pairs);
      manifoldMap, manifolds := map1, listed;
    }
  }

  /** The broad phase's two guarantees pin its result down to OverlappingPairs. */
  lemma PairsAreOverlapping(colliders: seq<ColliderId>, aabbOf: ColliderId -> Aabb, pairs: set<ColliderPair>)
    requires forall i, j :: 0 <= i < j < |colliders| && Overlaps(Boxes(colliders, aabbOf)[i], Boxes(colliders, aabbOf)[j]) ==>
      (colliders[i], colliders[j]) in pairs
    requires forall p :: p in pairs ==> OverlapPair(colliders, Boxes(colliders, aabbOf), p)
    ensures pairs == OverlappingPairs(colliders, aabbOf)
  {
    var boxes := Boxes(colliders, aabbOf);
    forall p | p in pairs ensures p in OverlappingPairs(colliders, aabbOf) {
      var i, j :| 0 <= i < j < |colliders| && Overlaps(boxes[i], boxes[j]) && p == (colliders[i], colliders[j]);
    }
  }

  /** Adding a collider that was not listed and then removing it restores the list. */
  lemma AddThenRemove(colliders: seq<ColliderId>, c: ColliderId)
    requires c !in colliders
    ensures RemoveAll(colliders + [c], c) == colliders
  {
    RemoveAllConcat(colliders, [c], c);
    RemoveAllAbsent(colliders, c);
    assert RemoveAll([c], c) == [];
  }
}
