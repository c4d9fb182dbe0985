/** collision::FineCollisionDetector (sombra-engine FineCollisionDetector.cpp): the
    narrow phase that keeps a manifold's contacts up to date. GJK and EPA are not part
    of this model: their outcomes are inputs (`None` when GJK finds no intersection or
    EPA fails, the filled contact otherwise). A manifold is passed in and the updated
    manifold is returned, in place of the `Manifold&` the source mutates. */
module FineCollision {
  import opened Geometry
  import opened Wrappers
  import opened Manifolds

  /** The detector's configuration: mContactSeparation, glm::length, and the two
      closest-point helpers of MathUtils.h (utils::getClosestPointInEdge,
      getClosestPointInPlane), which have no body in the source. */
  datatype Detector = Detector(
    contactSeparation: real,
    length: LengthFn,
    closestPointInEdge: (Vec3, Vec3, Vec3) -> Vec3,
    closestPointInPlane: (Vec3, Vec3, Vec3, Vec3) -> Vec3)

  /** What the dispatcher in `collide` needs to know about one collider: whether it
      moved since the last update, whether it is convex (otherwise concave), and its
      transforms matrix applied to a local point. */
  datatype ColliderInfo = ColliderInfo(
    updated: bool,
    convex: bool,
    transforms: Vec3 -> Vec3)

  /** The GJK/EPA outcomes for every path `collide` may take: the single convex pair,
      the parts of a concave collider overlapping a convex one (already in the argument
      order `convexFirst` selects), and the part pairs of two concave colliders. */
  datatype NarrowPhase = NarrowPhase(
    gjkCollides: bool,
    epaContact: Option<Contact>,
    convexConcaveParts: seq<Option<Contact>>,
    concaveParts: seq<seq<Option<Contact>>>)

  // ---------------------------------------------------------------- isClose

  /** Both world positions of `c` lie within the contact separation of `other`'s. */
  predicate CloseTo(d: Detector, c: Contact, other: Contact) {
    && d.length(Sub(c.worldPosition0, other.worldPosition0)) < d.contactSeparation
    && d.length(Sub(c.worldPosition1, other.worldPosition1)) < d.contactSeparation
  }

  /** std::any_of over a range of contacts. */
  function AnyClose(d: Detector, c: Contact, range: seq<Contact>): (r: bool)
    ensures r <==> exists i :: 0 <= i < |range| && CloseTo(d, c, range[i])
  {
    if range == [] then false
    else
      assert forall i :: 1 <= i < |range| ==> range[i] == range[1..][i - 1];
      CloseTo(d, c, range[0]) || AnyClose(d, c, range[1..])
  }

  /** isClose: false without contacts; otherwise any_of over [&contacts[0],
      &contacts[n-1]), a range that stops before the last stored contact. */
  function IsClose(d: Detector, c: Contact, contacts: seq<Contact>): (r: bool)
    ensures r <==> |contacts| > 0 && exists i :: 0 <= i < |contacts| - 1 && CloseTo(d, c, contacts[i])
  {
    |contacts| > 0 && AnyClose(d, c, contacts[..|contacts| - 1])
  }

  /** The last stored contact never influences isClose. */
  lemma IsCloseIgnoresLast(d: Detector, c: Contact, prefix: seq<Contact>, x: Contact, y: Contact)
    ensures IsClose(d, c, prefix + [x]) == IsClose(d, c, prefix + [y])
  {
    assert forall i :: 0 <= i < |prefix| ==> (prefix + [x])[i] == prefix[i] == (prefix + [y])[i];
  }

  /** Consequently a contact is not "close" to a manifold whose only contact is
      itself, although it is close to that contact. */
  lemma IsCloseMissesSoleContact(d: Detector, c: Contact)
    requires d.contactSeparation > 0.0 && d.length(Zero) == 0.0
    ensures CloseTo(d, c, c) && !IsClose(d, c, [c])
  {
    assert Sub(c.worldPosition0, c.worldPosition0) == Zero;
    assert Sub(c.worldPosition1, c.worldPosition1) == Zero;
    assert [c][..0] == [];
  }

  // ------------------------------------------------------ limitManifoldContacts

  /** std::max_element with `<`: the first position holding a maximal key. */
  function FirstMax(keys: seq<real>): (r: nat)
    requires |keys| > 0
    ensures r < |keys|
    ensures forall j :: 0 <= j < |keys| ==> keys[j] <= keys[r]
    ensures forall j :: 0 <= j < r ==> keys[j] < keys[r]
    decreases |keys|
  {
    if |keys| == 1 then 0
    else
      var p := FirstMax(keys[..|keys| - 1]);
      if keys[p] < keys[|keys| - 1] then |keys| - 1 else p
  }

  function Penetrations(cs: seq<Contact>): (keys: seq<real>)
    ensures |keys| == |cs|
  {
    seq(|cs|, i requires 0 <= i < |cs| => cs[i].penetration)
  }

  /** Distance of each first world position to `p`. */
  function DistancesTo(d: Detector, cs: seq<Contact>, p: Vec3): (keys: seq<real>)
    ensures |keys| == |cs|
  {
    seq(|cs|, i requires 0 <= i < |cs| => d.length(Sub(cs[i].worldPosition0, p)))
  }

  function DistancesToEdge(d: Detector, cs: seq<Contact>, a: Vec3, b: Vec3): (keys: seq<real>)
    ensures |keys| == |cs|
  {
    seq(|cs|, i requires 0 <= i < |cs| =>
      d.length(Sub(cs[i].worldPosition0, d.closestPointInEdge(cs[i].worldPosition0, a, b))))
  }

  function DistancesToPlane(d: Detector, cs: seq<Contact>, a: Vec3, b: Vec3, c: Vec3): (keys: seq<real>)
    ensures |keys| == |cs|
  {
    seq(|cs|, i requires 0 <= i < |cs| =>
      d.length(Sub(cs[i].worldPosition0, d.closestPointInPlane(cs[i].worldPosition0, a, b, c))))
  }

  /** limitManifoldContacts: picks 4 of the 5 candidates, by position (the source
      returns pointers to them). The first has maximal penetration, the second is the
      farthest from the first, the third the farthest from the edge between them and
      the fourth the farthest from the plane through the three; each is the earliest
      such candidate, and repeats are possible. */
  function LimitManifoldContacts(d: Detector, five: seq<Contact>): (picked: seq<nat>)
    requires |five| == 5
    ensures |picked| == 4 && forall k :: 0 <= k < 4 ==> picked[k] < 5
    ensures forall j :: 0 <= j < 5 ==> five[j].penetration <= five[picked[0]].penetration
    ensures forall j :: 0 <= j < picked[0] ==> five[j].penetration < five[picked[0]].penetration
    ensures forall j :: 0 <= j < 5 ==>
      d.length(Sub(five[j].worldPosition0, five[picked[0]].worldPosition0))
        <= d.length(Sub(five[picked[1]].worldPosition0, five[picked[0]].worldPosition0))
    ensures forall j :: 0 <= j < picked[1] ==>
      d.length(Sub(five[j].worldPosition0, five[picked[0]].worldPosition0))
        < d.length(Sub(five[picked[1]].worldPosition0, five[picked[0]].worldPosition0))
    ensures var a := five[picked[0]].worldPosition0; var b := five[picked[1]].worldPosition0;
      && (forall j :: 0 <= j < 5 ==>
            DistancesToEdge(d, five, a, b)[j] <= DistancesToEdge(d, five, a, b)[picked[2]])
      && (forall j :: 0 <= j < picked[2] ==>
            DistancesToEdge(d, five, a, b)[j] < DistancesToEdge(d, five, a, b)[picked[2]])
    ensures var a := five[picked[0]].worldPosition0; var b := five[picked[1]].worldPosition0;
      var c := five[picked[2]].worldPosition0;
      && (forall j :: 0 <= j < 5 ==>
            DistancesToPlane(d, five, a, b, c)[j] <= DistancesToPlane(d, five, a, b, c)[picked[3]])
      && (forall j :: 0 <= j < picked[3] ==>
            DistancesToPlane(d, five, a, b, c)[j] < DistancesToPlane(d, five, a, b, c)[picked[3]])
  {
    var c1 := FirstMax(Penetrations(five));
    assert forall j :: 0 <= j < 5 ==> Penetrations(five)[j] == five[j].penetration;
    var c2 := FirstMax(DistancesTo(d, five, five[c1].worldPosition0));
    assert forall j :: 0 <= j < 5 ==>
      DistancesTo(d, five, five[c1].worldPosition0)[j] == d.length(Sub(five[j].worldPosition0, five[c1].worldPosition0));
    var c3 := FirstMax(DistancesToEdge(d, five, five[c1].worldPosition0, five[c2].worldPosition0));
    var c4 := FirstMax(DistancesToPlane(d, five, five[c1].worldPosition0,
                                        five[c2].worldPosition0, five[c3].worldPosition0));
    [c1, c2, c3, c4]
  }

  /** The contacts the picked positions designate, read all at once. */
  function Picked(five: seq<Contact>, picked: seq<nat>): (r: seq<Contact>)
    requires |picked| == 4 && forall k :: 0 <= k < 4 ==> picked[k] < |five|
    ensures |r| == 4 && forall x | x in r :: x in five
  {
    seq(4, k requires 0 <= k < 4 => five[picked[k]])
  }

  // ---------------------------------------------------------------- addContact

  /** addContact: a contact close to a stored one (in the sense of isClose) is
      dropped; otherwise it is appended when there is room, or the 4 slots are
      overwritten with the selection from the 4 stored contacts and the new one; in
      both of those cases Updated is set. The slots are filled from a snapshot of the
      candidates (see `AddContactAsWritten` for the copy the source performs). */
  method AddContact(d: Detector, c: Contact, m: Manifold) returns (r: Manifold)
    requires Valid(m)
    ensures Valid(r) && r.collider0 == m.collider0 && r.collider1 == m.collider1
    ensures r.state.intersecting == m.state.intersecting
    ensures IsClose(d, c, m.contacts) ==> r == m
    ensures !IsClose(d, c, m.contacts) ==> r.state.updated
    ensures !IsClose(d, c, m.contacts) && |m.contacts| < MaxContacts ==>
      r.contacts == m.contacts + [c]
    ensures !IsClose(d, c, m.contacts) && |m.contacts| == MaxContacts ==>
      r.contacts == Picked(m.contacts + [c], LimitManifoldContacts(d, m.contacts + [c]))
    ensures m.state.updated ==> r.state.updated
    ensures forall x | x in r.contacts :: x in m.contacts || x == c
  {
    r := m;
    if !IsClose(d, c, m.contacts) {
      if |m.contacts| < MaxContacts {
        r := r.(contacts := r.contacts + [c]);
      } else {
        var candidates := m.contacts + [c];
        var picked := LimitManifoldContacts(d, candidates);
        var slots := m.contacts;
        for i := 0 to |slots|
          invariant |slots| == MaxContacts
          invariant forall k :: 0 <= k < i ==> slots[k] == candidates[picked[k]]
        {
          slots := slots[i := candidates[picked[i]]];
        }
        assert slots == Picked(candidates, picked);
        r := r.(contacts := slots);
      }
      r := r.(state := r.state.(updated := true));
    }
  }

  /** The copy loop of addContact as written: slot i receives *limited[i], but the
      pointers in `limited` designate the slots being overwritten, so a read of slot j
      after step j sees the value written there, not the original candidate. */
  function AliasedCopy(slots: seq<Contact>, extra: Contact, picked: seq<nat>, i: nat): (r: seq<Contact>)
    requires i <= |slots| <= |picked|
    requires forall k :: 0 <= k < |picked| ==> picked[k] <= |slots|
    ensures |r| == |slots| && r[..i] == slots[..i]
    decreases |slots| - i
  {
    if i == |slots| then slots
    else AliasedCopy(slots[i := (slots + [extra])[picked[i]]], extra, picked, i + 1)
  }

  /** Whatever the aliased copy leaves in a slot was a stored contact or the new one. */
  lemma {:induction false} AliasedCopyDrawsFrom(slots: seq<Contact>, extra: Contact, picked: seq<nat>, i: nat)
    requires i <= |slots| <= |picked|
    requires forall k :: 0 <= k < |picked| ==> picked[k] <= |slots|
    ensures forall x | x in AliasedCopy(slots, extra, picked, i) :: x in slots || x == extra
    decreases |slots| - i
  {
    if i < |slots| {
      var next := slots[i := (slots + [extra])[picked[i]]];
      AliasedCopyDrawsFrom(next, extra, picked, i + 1);
      forall x | x in next
        ensures x in slots || x == extra
      {
        var k :| 0 <= k < |next| && next[k] == x;
        if k != i {
          assert x == slots[k];
        }
      }
    }
  }

  /** The manifold addContact leaves, with the source's aliased copy loop. */
  function AddedAsWritten(d: Detector, c: Contact, m: Manifold): (r: Manifold)
    requires Valid(m)
    ensures Valid(r) && r.collider0 == m.collider0 && r.collider1 == m.collider1
    ensures r.state.intersecting == m.state.intersecting
  {
    if IsClose(d, c, m.contacts) then m
    else if |m.contacts| < MaxContacts then
      m.(contacts := m.contacts + [c], state := m.state.(updated := true))
    else
      m.(contacts := AliasedCopy(m.contacts, c, LimitManifoldContacts(d, m.contacts + [c]), 0),
         state := m.state.(updated := true))
  }

  /** addContact with the source's copy loop; this is the step the collide paths use. */
  method AddContactAsWritten(d: Detector, c: Contact, m: Manifold) returns (r: Manifold)
    requires Valid(m)
    ensures r == AddedAsWritten(d, c, m)
    ensures Valid(r) && r.collider0 == m.collider0 && r.collider1 == m.collider1
    ensures r.state.intersecting == m.state.intersecting
    ensures IsClose(d, c, m.contacts) ==> r == m
    ensures !IsClose(d, c, m.contacts) && |m.contacts| < MaxContacts ==>
      r.contacts == m.contacts + [c] && r.state.updated
    ensures !IsClose(d, c, m.contacts) && |m.contacts| == MaxContacts ==>
      r.contacts == AliasedCopy(m.contacts, c, LimitManifoldContacts(d, m.contacts + [c]), 0)
      && r.state.updated
    ensures m.state.updated ==> r.state.updated
    ensures forall x | x in r.contacts :: x in m.contacts || x == c
  {
    r := m;
    if !IsClose(d, c, m.contacts) {
      if |m.contacts| < MaxContacts {
        r := r.(contacts := r.contacts + [c]);
      } else {
        var picked := LimitManifoldContacts(d, m.contacts + [c]);
        var slots := m.contacts;
        for i := 0 to |slots|
          invariant |slots| == MaxContacts
          invariant AliasedCopy(slots, c, picked, i) == AliasedCopy(m.contacts, c, picked, 0)
        {
          slots := slots[i := (slots + [c])[picked[i]]];
        }
        AliasedCopyDrawsFrom(m.contacts, c, picked, 0);
        r := r.(contacts := slots);
      }
      r := r.(state := r.state.(updated := true));
    }
  }

  /** When candidate 3 is strictly the deepest and candidate 0 strictly the farthest
      from it, the selection starts with positions 3 and 0. */
  lemma LimitPicksDeepestThenFarthest(d: Detector, five: seq<Contact>)
    requires |five| == 5
    requires forall j :: 0 <= j < 5 && j != 3 ==> five[j].penetration < five[3].penetration
    requires forall j :: 1 <= j < 5 ==>
      d.length(Sub(five[j].worldPosition0, five[3].worldPosition0))
        < d.length(Sub(five[0].worldPosition0, five[3].worldPosition0))
    ensures LimitManifoldContacts(d, five)[0] == 3 && LimitManifoldContacts(d, five)[1] == 0
  {
  }

  /** In that situation the source's copy puts contact 3 in slot 1, where the
      selection asks for contact 0: slot 0 has already been overwritten with contact 3
      when slot 1 is copied from it. */
  lemma {:induction false} AliasedCopyLosesContact(d: Detector, stored: seq<Contact>, c: Contact)
    requires |stored| == 4 && stored[0] != stored[3]
    requires forall j :: 0 <= j < 5 && j != 3 ==> (stored + [c])[j].penetration < stored[3].penetration
    requires forall j :: 1 <= j < 5 ==>
      d.length(Sub((stored + [c])[j].worldPosition0, stored[3].worldPosition0))
        < d.length(Sub(stored[0].worldPosition0, stored[3].worldPosition0))
    ensures var picked := LimitManifoldContacts(d, stored + [c]);
      && Picked(stored + [c], picked)[1] == stored[0]
      && AliasedCopy(stored, c, picked, 0)[1] == stored[3] != stored[0]
  {
    var five := stored + [c];
    LimitPicksDeepestThenFarthest(d, five);
    var picked := LimitManifoldContacts(d, five);
    var s1 := stored[0 := stored[3]];
    var s2 := s1[1 := s1[0]];
    assert AliasedCopy(stored, c, picked, 0) == AliasedCopy(s1, c, picked, 1);
    assert AliasedCopy(s1, c, picked, 1) == AliasedCopy(s2, c, picked, 2);
    assert AliasedCopy(s2, c, picked, 2)[..2] == s2[..2];
  }

  /** The x-axis configuration: four stored contacts at x = 0, 1, 2, 3, the last
      with the deepest penetration, and a new contact at x = 1.5. */
  function SegmentCandidates(): (five: seq<Contact>)
    ensures |five| == 5
  {
    [OnAxis(0.0, 0.0), OnAxis(0.0, 1.0), OnAxis(0.0, 2.0), OnAxis(1.0, 3.0), OnAxis(0.5, 1.5)]
  }

  /** The x-axis configuration meets the conditions above for any glm::length, which
      on the x axis is the absolute value of the x component. */
  lemma SegmentMeetsConditions(length: LengthFn)
    requires forall v: Vec3 | v.y == 0.0 && v.z == 0.0 :: length(v) == Abs(v.x)
    ensures var five := SegmentCandidates();
      && five[0] != five[3]
      && (forall j :: 0 <= j < 5 && j != 3 ==> five[j].penetration < five[3].penetration)
      && (forall j :: 1 <= j < 5 ==>
            length(Sub(five[j].worldPosition0, five[3].worldPosition0))
              < length(Sub(five[0].worldPosition0, five[3].worldPosition0)))
  {
    var five := SegmentCandidates();
    var p3 := Vec3(3.0, 0.0, 0.0);
    var distances := [3.0, 2.0, 1.0, 0.0, 1.5];
    forall j | 0 <= j < 5
      ensures length(Sub(five[j].worldPosition0, p3)) == distances[j]
    {
      var x := five[j].worldPosition0.x;
      assert Sub(five[j].worldPosition0, p3) == Vec3(x - 3.0, 0.0, 0.0);
    }
  }

  /** A contact whose two world positions are (x, 0, 0). */
  function OnAxis(penetration: real, x: real): (c: Contact)
    ensures c.worldPosition0 == c.worldPosition1 == Vec3(x, 0.0, 0.0)
  {
    Contact(penetration, Vec3(x, 0.0, 0.0), Vec3(x, 0.0, 0.0), Zero, Zero, Zero)
  }

  // ------------------------------------------------------- removeInvalidContacts

  /** A stored contact whose local positions, moved by the colliders' current
      transforms, have drifted from its world positions by at least the separation. */
  predicate Drifted(d: Detector, t0: Vec3 -> Vec3, t1: Vec3 -> Vec3, c: Contact) {
    || d.length(Sub(c.worldPosition0, t0(c.localPosition0))) >= d.contactSeparation
    || d.length(Sub(c.worldPosition1, t1(c.localPosition1))) >= d.contactSeparation
  }

  /** std::swap of position i with the back, done only when i is not the back. */
  ghost function SwappedWithBack<T>(s: seq<T>, i: nat): (r: seq<T>)
    requires i < |s|
    ensures |r| == |s| && r[|s| - 1] == s[i] && r[..i] == s[..i] && multiset(r) == multiset(s)
  {
    if i + 1 < |s| then s[i := s[|s| - 1]][|s| - 1 := s[i]] else s
  }

  /** The walk removeInvalidContacts performs from position i: a drifted contact is
      swapped with the back and popped and the same position is examined again;
      otherwise the walk moves on. */
  ghost function Prune(d: Detector, t0: Vec3 -> Vec3, t1: Vec3 -> Vec3, cs: seq<Contact>, i: nat): (r: seq<Contact>)
    requires i <= |cs|
    ensures |r| <= |cs|
    decreases |cs| - i
  {
    if i == |cs| then cs
    else if Drifted(d, t0, t1, cs[i]) then Prune(d, t0, t1, SwappedWithBack(cs, i)[..|cs| - 1], i)
    else Prune(d, t0, t1, cs, i + 1)
  }

  /** The walk keeps exactly the contacts that did not drift, each with its
      multiplicity, provided the positions before i have not drifted. */
  lemma {:induction false} PruneKeepsUndrifted(d: Detector, t0: Vec3 -> Vec3, t1: Vec3 -> Vec3, cs: seq<Contact>, i: nat)
    requires i <= |cs|
    requires forall k :: 0 <= k < i ==> !Drifted(d, t0, t1, cs[k])
    ensures forall c :: multiset(Prune(d, t0, t1, cs, i))[c] == if Drifted(d, t0, t1, c) then 0 else multiset(cs)[c]
    decreases |cs| - i
  {
    if i == |cs| {
      forall c | Drifted(d, t0, t1, c)
        ensures multiset(cs)[c] == 0
      {
        assert c !in cs;
      }
    } else if Drifted(d, t0, t1, cs[i]) {
      var swapped := SwappedWithBack(cs, i);
      var rest := swapped[..|cs| - 1];
      assert swapped == rest + [cs[i]];
      assert multiset(rest) + multiset{cs[i]} == multiset(cs);
      assert forall k :: 0 <= k < i ==> rest[k] == swapped[..i][k];
      PruneKeepsUndrifted(d, t0, t1, rest, i);
    } else {
      PruneKeepsUndrifted(d, t0, t1, cs, i + 1);
    }
  }

  /** The walk shortens the sequence exactly when a contact from position i on has
      drifted. */
  lemma {:induction false} PruneShortensIffDrifted(d: Detector, t0: Vec3 -> Vec3, t1: Vec3 -> Vec3, cs: seq<Contact>, i: nat)
    requires i <= |cs|
    ensures |Prune(d, t0, t1, cs, i)| < |cs| <==> exists k :: i <= k < |cs| && Drifted(d, t0, t1, cs[k])
    decreases |cs| - i
  {
    if i < |cs| && !Drifted(d, t0, t1, cs[i]) {
      PruneShortensIffDrifted(d, t0, t1, cs, i + 1);
      assert forall k :: i <= k < |cs| && Drifted(d, t0, t1, cs[k]) ==> i + 1 <= k;
    }
  }

  /** removeInvalidContacts: walks the contacts, replacing a drifted one by the last
      (swap and pop) and re-examining the same position, and sets Updated whenever it
      removes one. The survivors are exactly the contacts that did not drift, each
      with its multiplicity; their order is not kept. */
  method RemoveInvalidContacts(d: Detector, t0: Vec3 -> Vec3, t1: Vec3 -> Vec3, m: Manifold)
    returns (r: Manifold)
    requires Valid(m)
    ensures r == Pruned(d, t0, t1, m)
    ensures Valid(r) && r.collider0 == m.collider0 && r.collider1 == m.collider1
    ensures r.state.intersecting == m.state.intersecting
    ensures forall c :: multiset(r.contacts)[c] == if Drifted(d, t0, t1, c) then 0 else multiset(m.contacts)[c]
    ensures forall c | c in r.contacts :: c in m.contacts && !Drifted(d, t0, t1, c)
    ensures r.state.updated <==>
      m.state.updated || exists i :: 0 <= i < |m.contacts| && Drifted(d, t0, t1, m.contacts[i])
  {
    var contacts := m.contacts;
    var updated := m.state.updated;
    var i := 0;
    while i < |contacts|
      invariant 0 <= i <= |contacts| <= |m.contacts|
      invariant Prune(d, t0, t1, contacts, i) == Prune(d, t0, t1, m.contacts, 0)
      invariant updated <==> m.state.updated || |contacts| < |m.contacts|
      decreases |contacts| - i
    {
      if Drifted(d, t0, t1, contacts[i]) {
        var last := |contacts| - 1;
        ghost var before := contacts;
        if i + 1 < |contacts| {
          contacts := contacts[i := contacts[last]][last := contacts[i]];
        }
        assert contacts == SwappedWithBack(before, i);
        contacts := contacts[..last];
        assert Prune(d, t0, t1, before, i) == Prune(d, t0, t1, contacts, i);
        updated := true;
      } else {
        i := i + 1;
      }
    }
    PruneSurvivors(d, t0, t1, m.contacts);
    r := m.(contacts := contacts, state := m.state.(updated := updated));
  }

  /** The manifold removeInvalidContacts leaves: the walk's survivors, with Updated
      set when the walk removed a contact. */
  ghost function Pruned(d: Detector, t0: Vec3 -> Vec3, t1: Vec3 -> Vec3, m: Manifold): (r: Manifold)
    requires Valid(m)
    ensures Valid(r) && r.collider0 == m.collider0 && r.collider1 == m.collider1
    ensures r.state.intersecting == m.state.intersecting
  {
    var kept := Prune(d, t0, t1, m.contacts, 0);
    m.(contacts := kept, state := m.state.(updated := m.state.updated || |kept| < |m.contacts|))
  }

  /** What the whole walk leaves: the undrifted contacts with their multiplicities,
      shorter than before exactly when one drifted. */
  lemma PruneSurvivors(d: Detector, t0: Vec3 -> Vec3, t1: Vec3 -> Vec3, cs: seq<Contact>)
    ensures var r := Prune(d, t0, t1, cs, 0);
      && (forall c :: multiset(r)[c] == if Drifted(d, t0, t1, c) then 0 else multiset(cs)[c])
      && (forall c | c in r :: c in cs && !Drifted(d, t0, t1, c))
      && (|r| < |cs| <==> exists i :: 0 <= i < |cs| && Drifted(d, t0, t1, cs[i]))
  {
    var r := Prune(d, t0, t1, cs, 0);
    PruneKeepsUndrifted(d, t0, t1, cs, 0);
    PruneShortensIffDrifted(d, t0, t1, cs, 0);
    forall c | c in r
      ensures c in cs && !Drifted(d, t0, t1, c)
    {
      assert multiset(r)[c] > 0;
    }
  }

  // --------------------------------------------------------------- collide*

  /** Some part yields a contact. */
  predicate SomeContact(parts: seq<Option<Contact>>) {
    exists i :: 0 <= i < |parts| && parts[i].Some?
  }

  /** Some pair of parts yields a contact. */
  predicate SomePairContact(parts: seq<seq<Option<Contact>>>) {
    exists i :: 0 <= i < |parts| && SomeContact(parts[i])
  }

  /** The contact appears among the outcomes. */
  predicate Produced(parts: seq<Option<Contact>>, x: Contact) {
    exists i :: 0 <= i < |parts| && parts[i] == Some(x)
  }

  /** The contact appears among the outcomes of some row. */
  predicate ProducedIn(parts: seq<seq<Option<Contact>>>, x: Contact) {
    exists i :: 0 <= i < |parts| && Produced(parts[i], x)
  }

  /** Taking one more row adds exactly that row's outcomes. */
  lemma RowAppended(parts: seq<seq<Option<Contact>>>, i: nat)
    requires i < |parts|
    ensures SomePairContact(parts[..i + 1]) <==> SomePairContact(parts[..i]) || SomeContact(parts[i])
    ensures forall x :: ProducedIn(parts[..i + 1], x) <==> ProducedIn(parts[..i], x) || Produced(parts[i], x)
  {
    assert forall k :: 0 <= k < i ==> parts[..i + 1][k] == parts[..i][k];
    assert parts[..i + 1][i] == parts[i];
  }

  /** The state a failed detection leaves: no contacts, Intersecting reset, Updated set. */
  function Disjoint(m: Manifold): (r: Manifold)
    ensures Valid(r) && r.contacts == [] && !r.state.intersecting && r.state.updated
    ensures r.collider0 == m.collider0 && r.collider1 == m.collider1
  {
    m.(contacts := [], state := State(false, true))
  }

  /** The state the collide paths leave after adding contacts: a manifold not yet in
      the Intersecting state enters it, which sets Updated. */
  function Entered(m: Manifold): (r: Manifold)
    ensures r.state.intersecting && r.contacts == m.contacts
    ensures r.collider0 == m.collider0 && r.collider1 == m.collider1
    ensures !m.state.intersecting ==> r.state.updated
    ensures m.state.intersecting ==> r == m
  {
    if m.state.intersecting then m else m.(state := State(true, true))
  }

  /** The outcomes of the parts, processed in order: before the first new contact
      the stale contacts are pruned (`pruned` records that this has happened), and
      every new contact goes through addContact as written. */
  ghost function AddFound(d: Detector, t0: Vec3 -> Vec3, t1: Vec3 -> Vec3,
                          parts: seq<Option<Contact>>, m: Manifold, pruned: bool): (r: Manifold)
    requires Valid(m)
    ensures Valid(r) && r.collider0 == m.collider0 && r.collider1 == m.collider1
    ensures r.state.intersecting == m.state.intersecting
    decreases |parts|
  {
    if parts == [] then m
    else if parts[0].None? then AddFound(d, t0, t1, parts[1..], m, pruned)
    else
      var base := if pruned then m else Pruned(d, t0, t1, m);
      AddFound(d, t0, t1, parts[1..], AddedAsWritten(d, parts[0].value, base), true)
  }

  /** The part pairs of two concave colliders, row after row. */
  function Concat(parts: seq<seq<Option<Contact>>>): seq<Option<Contact>> {
    if parts == [] then [] else parts[0] + Concat(parts[1..])
  }

  /** collideConvex: GJK then EPA; a failure of either clears the manifold; otherwise
      the stale contacts are pruned, the new one is added, and the manifold enters the
      Intersecting state (setting Updated) if it was not in it. */
  method CollideConvex(d: Detector, t0: Vec3 -> Vec3, t1: Vec3 -> Vec3,
                       gjkCollides: bool, epaContact: Option<Contact>, m: Manifold)
    returns (intersecting: bool, r: Manifold)
    requires Valid(m)
    ensures Valid(r) && r.collider0 == m.collider0 && r.collider1 == m.collider1
    ensures intersecting <==> gjkCollides && epaContact.Some?
    ensures r.state.intersecting == intersecting
    ensures !intersecting ==> r == Disjoint(m)
    ensures intersecting ==> r == Entered(AddedAsWritten(d, epaContact.value, Pruned(d, t0, t1, m)))
    ensures intersecting && !m.state.intersecting ==> r.state.updated
    ensures m.state.updated ==> r.state.updated
    ensures forall x | x in r.contacts :: x in m.contacts || Some(x) == epaContact
  {
    if !gjkCollides {
      return false, Disjoint(m);
    }
    if epaContact.None? {
      return false, Disjoint(m);
    }
    r := RemoveInvalidContacts(d, t0, t1, m);
    r := AddContactAsWritten(d, epaContact.value, r);
    if !r.state.intersecting {
      r := r.(state := State(true, true));
    }
    intersecting := true;
  }

  /** The step both part loops take for one outcome: a new contact first prunes the
      stale contacts when none was added yet (`prunedNow` says whether it did), then
      goes through addContact as written. `rest` is the outcomes still to come. */
  method AddPart(d: Detector, t0: Vec3 -> Vec3, t1: Vec3 -> Vec3, part: Option<Contact>,
                 m: Manifold, pruned: bool, ghost rest: seq<Option<Contact>>)
    returns (r: Manifold, ghost prunedNow: bool)
    requires Valid(m)
    ensures Valid(r) && r.collider0 == m.collider0 && r.collider1 == m.collider1
    ensures r.state.intersecting == m.state.intersecting
    ensures m.state.updated ==> r.state.updated
    ensures forall x | x in r.contacts :: x in m.contacts || Some(x) == part
    ensures prunedNow <==> part.Some? && !pruned
    ensures AddFound(d, t0, t1, [part] + rest, m, pruned) == AddFound(d, t0, t1, rest, r, pruned || part.Some?)
  {
    assert ([part] + rest)[1..] == rest;
    r, prunedNow := m, false;
    if part.Some? {
      if !pruned {
        r := RemoveInvalidContacts(d, t0, t1, r);
        prunedNow := true;
      }
      r := AddContactAsWritten(d, part.value, r);
    }
  }

  /** collideConvexConcave: every overlapping part of the concave collider is tested;
      the stale contacts are pruned once, just before the first new contact is added.
      Without any new contact the manifold is cleared. `prunes` counts the calls of
      removeInvalidContacts. */
  method CollideConvexConcave(d: Detector, t0: Vec3 -> Vec3, t1: Vec3 -> Vec3,
                              parts: seq<Option<Contact>>, m: Manifold)
    returns (intersecting: bool, r: Manifold, ghost prunes: nat)
    requires Valid(m)
    ensures Valid(r) && r.collider0 == m.collider0 && r.collider1 == m.collider1
    ensures intersecting <==> SomeContact(parts)
    ensures r.state.intersecting == intersecting
    ensures !intersecting ==> r == Disjoint(m)
    ensures intersecting ==> r == Entered(AddFound(d, t0, t1, parts, m, false))
    ensures intersecting && !m.state.intersecting ==> r.state.updated
    ensures m.state.updated ==> r.state.updated
    ensures forall x | x in r.contacts :: x in m.contacts || Produced(parts, x)
    ensures prunes == if intersecting then 1 else 0
  {
    var found: bool;
    assert parts + [] == parts;
    r, found, prunes := AddOutcomes(d, t0, t1, parts, m, false, []);
    if !found {
      return false, Disjoint(m), prunes;
    }
    if !r.state.intersecting {
      r := r.(state := State(true, true));
    }
    intersecting := true;
  }

  /** One more outcome adds at most that outcome's contact. */
  lemma OutcomeAppended(row: seq<Option<Contact>>, j: nat)
    requires j < |row|
    ensures SomeContact(row[..j + 1]) <==> SomeContact(row[..j]) || row[j].Some?
    ensures forall x :: Produced(row[..j + 1], x) <==> Produced(row[..j], x) || row[j] == Some(x)
  {
    assert forall k :: 0 <= k < j ==> row[..j + 1][k] == row[..j][k];
    assert row[..j + 1][j] == row[j];
  }

  /** A loop over outcomes, each taken by `AddPart`: the whole loop of
      collideConvexConcave, and the inner loop of collideConcave over one row of part
      pairs. `found` says whether the outcomes yielded a contact (nNewContacts > 0),
      `prunesNow` counts the prunes performed, and `rest` is the outcomes still to come
      after these. */
  method AddOutcomes(d: Detector, t0: Vec3 -> Vec3, t1: Vec3 -> Vec3, row: seq<Option<Contact>>,
                m: Manifold, pruned: bool, ghost rest: seq<Option<Contact>>)
    returns (r: Manifold, found: bool, ghost prunesNow: nat)
    requires Valid(m)
    ensures Valid(r) && r.collider0 == m.collider0 && r.collider1 == m.collider1
    ensures r.state.intersecting == m.state.intersecting
    ensures m.state.updated ==> r.state.updated
    ensures found <==> SomeContact(row)
    ensures forall x | x in r.contacts :: x in m.contacts || Produced(row, x)
    ensures prunesNow == if !pruned && found then 1 else 0
    ensures AddFound(d, t0, t1, row + rest, m, pruned) == AddFound(d, t0, t1, rest, r, pruned || found)
  {
    r, found, prunesNow := m, false, 0;
    for j := 0 to |row|
      invariant Valid(r) && r.collider0 == m.collider0 && r.collider1 == m.collider1
      invariant r.state.intersecting == m.state.intersecting
      invariant m.state.updated ==> r.state.updated
      invariant found <==> SomeContact(row[..j])
      invariant prunesNow == if !pruned && found then 1 else 0
      invariant forall x | x in r.contacts :: x in m.contacts || Produced(row[..j], x)
      invariant AddFound(d, t0, t1, row[j..] + rest, r, pruned || found) == AddFound(d, t0, t1, row + rest, m, pruned)
    {
      assert [row[j]] + (row[j + 1..] + rest) == row[j..] + rest;
      ghost var prunedNow: bool;
      r, prunedNow := AddPart(d, t0, t1, row[j], r, pruned || found, row[j + 1..] + rest);
      if row[j].Some? {
        found := true;
      }
      if prunedNow {
        prunesNow := prunesNow + 1;
      }
      OutcomeAppended(row, j);
    }
    assert row[..|row|] == row;
    assert row[|row|..] + rest == rest;
  }

  /** collideConcave: every overlapping part of the first collider against every
      overlapping part of the second, with the same pruning and state rules as
      collideConvexConcave. */
  method CollideConcave(d: Detector, t0: Vec3 -> Vec3, t1: Vec3 -> Vec3,
                        parts: seq<seq<Option<Contact>>>, m: Manifold)
    returns (intersecting: bool, r: Manifold, ghost prunes: nat)
    requires Valid(m)
    ensures Valid(r) && r.collider0 == m.collider0 && r.collider1 == m.collider1
    ensures intersecting <==> SomePairContact(parts)
    ensures r.state.intersecting == intersecting
    ensures !intersecting ==> r == Disjoint(m)
    ensures intersecting ==> r == Entered(AddFound(d, t0, t1, Concat(parts), m, false))
    ensures intersecting && !m.state.intersecting ==> r.state.updated
    ensures m.state.updated ==> r.state.updated
    ensures forall x | x in r.contacts :: x in m.contacts || ProducedIn(parts, x)
    ensures prunes == if intersecting then 1 else 0
  {
    var newContacts := 0;
    prunes := 0;
    r := m;
    for i := 0 to |parts|
      invariant Valid(r) && r.collider0 == m.collider0 && r.collider1 == m.collider1
      invariant r.state.intersecting == m.state.intersecting
      invariant m.state.updated ==> r.state.updated
      invariant newContacts > 0 <==> SomePairContact(parts[..i])
      invariant prunes == if newContacts > 0 then 1 else 0
      invariant forall x | x in r.contacts :: x in m.contacts || ProducedIn(parts[..i], x)
      invariant AddFound(d, t0, t1, Concat(parts[i..]), r, newContacts > 0) == AddFound(d, t0, t1, Concat(parts), m, false)
    {
      ghost var rest := Concat(parts[i + 1..]);
      assert parts[i..][1..] == parts[i + 1..];
      assert parts[i] + rest == Concat(parts[i..]);
      var found: bool;
      ghost var prunesNow: nat;
      r, found, prunesNow := AddOutcomes(d, t0, t1, parts[i], r, newContacts > 0, rest);
      if found {
        newContacts := newContacts + 1;
      }
      prunes := prunes + prunesNow;
      RowAppended(parts, i);
    }
    assert parts[..|parts|] == parts;
    assert parts[|parts|..] == [];
    if newContacts == 0 {
      return false, Disjoint(m), prunes;
    }
    if !r.state.intersecting {
      r := r.(state := State(true, true));
    }
    intersecting := true;
  }

  /** The dispatch of `collide` on the colliders' kinds: what detection reports. */
  predicate Detects(info0: ColliderInfo, info1: ColliderInfo, narrow: NarrowPhase) {
    if info0.convex && info1.convex then narrow.gjkCollides && narrow.epaContact.Some?
    else if info0.convex || info1.convex then SomeContact(narrow.convexConcaveParts)
    else SomePairContact(narrow.concaveParts)
  }

  /** The contact is one the narrow phase chosen by the colliders' kinds produced. */
  predicate Found(info0: ColliderInfo, info1: ColliderInfo, narrow: NarrowPhase, x: Contact) {
    if info0.convex && info1.convex then narrow.epaContact == Some(x)
    else if info0.convex || info1.convex then Produced(narrow.convexConcaveParts, x)
    else ProducedIn(narrow.concaveParts, x)
  }

  /** The manifold the path chosen by the colliders' kinds leaves. */
  ghost function Collided(d: Detector, m: Manifold, info0: ColliderInfo, info1: ColliderInfo,
                          narrow: NarrowPhase): (r: Manifold)
    requires Valid(m)
    ensures Valid(r) && r.collider0 == m.collider0 && r.collider1 == m.collider1
    ensures r.state.intersecting <==> Detects(info0, info1, narrow)
  {
    var t0, t1 := info0.transforms, info1.transforms;
    if !Detects(info0, info1, narrow) then Disjoint(m)
    else if info0.convex && info1.convex then
      Entered(AddedAsWritten(d, narrow.epaContact.value, Pruned(d, t0, t1, m)))
    else if info0.convex || info1.convex then
      Entered(AddFound(d, t0, t1, narrow.convexConcaveParts, m, false))
    else
      Entered(AddFound(d, t0, t1, Concat(narrow.concaveParts), m, false))
  }

  /** collide: false for a null collider, the current Intersecting flag when neither
      collider was updated, and otherwise the result of the path chosen by the
      colliders' kinds (convex-concave in either order). */
  method Collide(d: Detector, m: Manifold, info0: ColliderInfo, info1: ColliderInfo, narrow: NarrowPhase)
    returns (intersecting: bool, r: Manifold)
    requires Valid(m)
    ensures Valid(r) && r.collider0 == m.collider0 && r.collider1 == m.collider1
    ensures m.collider0.None? || m.collider1.None? ==> !intersecting && r == m
    ensures m.collider0.Some? && m.collider1.Some? && !info0.updated && !info1.updated ==>
      intersecting == m.state.intersecting && r == m
    ensures m.collider0.Some? && m.collider1.Some? && (info0.updated || info1.updated) ==>
      && r.state.intersecting == intersecting
      && (intersecting <==> Detects(info0, info1, narrow))
      && r == Collided(d, m, info0, info1, narrow)
      && (!intersecting ==> r == Disjoint(m))
      && (intersecting && !m.state.intersecting ==> r.state.updated)
      && (m.state.updated ==> r.state.updated)
      && (forall x | x in r.contacts :: x in m.contacts || Found(info0, info1, narrow, x))
  {
    if m.collider0.None? || m.collider1.None? {
      return false, m;
    }
    if !info0.updated && !info1.updated {
      return m.state.intersecting, m;
    }
    var t0, t1 := info0.transforms, info1.transforms;
    ghost var prunes: nat;
    if info0.convex {
      if info1.convex {
        intersecting, r := CollideConvex(d, t0, t1, narrow.gjkCollides, narrow.epaContact, m);
      } else {
        intersecting, r, prunes := CollideConvexConcave(d, t0, t1, narrow.convexConcaveParts, m);
      }
    } else {
      if info1.convex {
        intersecting, r, prunes := CollideConvexConcave(d, t0, t1, narrow.convexConcaveParts, m);
      } else {
        intersecting, r, prunes := CollideConcave(d, t0, t1, narrow.concaveParts, m);
      }
    }
  }
}
