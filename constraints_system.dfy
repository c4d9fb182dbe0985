/** app::ConstraintsSystem (sombra-engine ConstraintsSystem.cpp): keeps, for every
    intersecting manifold, one ContactConstraints (a normal constraint and two
    friction constraints) per contact, registering them with the constraint manager
    and deregistering them as contacts come and go. The manager is reduced here to
    the multiset of constraints registered with it: addConstraint adds one copy and
    removeConstraint takes one copy away when there is one. Each ContactConstraints
    gets a fresh id standing for the address of its three constraints. */
module ConstraintsSystems {
  import opened Geometry
  import opened Wrappers
  import opened Manifolds

  /** The constants of ConstraintsSystem.h. */
  const CollisionBeta: real := 0.1
  const CollisionRestitutionFactor: real := 0.2
  const CollisionSlopPenetration: real := 0.005
  const CollisionSlopRestitution: real := 0.5
  const FrictionGravityAcceleration: real := 9.8

  type EntityId = nat
  type ManifoldId = nat

  /** What the system reads of a rigid body: its configuration and position. */
  datatype BodyData = BodyData(invertedMass: NonNegReal, frictionCoefficient: real, position: Vec3)

  datatype NormalConstraint = NormalConstraint(
    beta: real, restitutionFactor: real, slopPenetration: real, slopRestitution: real,
    normal: Vec3, r1: Vec3, r2: Vec3)

  /** A friction constraint; `mass` is the last argument given to
      calculateConstraintBounds, None before the first call. */
  datatype FrictionConstraint = FrictionConstraint(
    gravityAcceleration: real, frictionCoefficient: real,
    tangent: Vec3, r1: Vec3, r2: Vec3, mass: Option<real>)

  datatype ContactConstraints = ContactConstraints(
    id: nat, normal: NormalConstraint, friction0: FrictionConstraint, friction1: FrictionConstraint)

  /** One of the three constraints of the ContactConstraints with a given id, as
      registered with the constraint manager. */
  datatype ConstraintRef = NormalOf(id: nat) | FrictionOf(id: nat, k: nat)

  /** The ContactConstraints emplaced for a new contact (lines 135-144). */
  function NewContactConstraints(id: nat, mu: real): (c: ContactConstraints)
    ensures c.id == id && c.friction0.mass == None && c.friction1.mass == None
    ensures c.normal.beta == CollisionBeta && c.normal.restitutionFactor == CollisionRestitutionFactor
    ensures c.normal.slopPenetration == CollisionSlopPenetration
    ensures c.normal.slopRestitution == CollisionSlopRestitution
    ensures c.friction0.gravityAcceleration == FrictionGravityAcceleration == c.friction1.gravityAcceleration
    ensures c.friction0.frictionCoefficient == mu == c.friction1.frictionCoefficient
  {
    ContactConstraints(id,
      NormalConstraint(CollisionBeta, CollisionRestitutionFactor, CollisionSlopPenetration,
                       CollisionSlopRestitution, Zero, Zero, Zero),
      FrictionConstraint(FrictionGravityAcceleration, mu, Zero, Zero, Zero, None),
      FrictionConstraint(FrictionGravityAcceleration, mu, Zero, Zero, Zero, None))
  }

  /** The entries the growing loop of handleIntersectingManifold appends while
      the next id runs from `lo` up to `hi`. */
  function FreshEntries(lo: nat, hi: nat, mu: real): (r: seq<ContactConstraints>)
    requires lo <= hi
    ensures |r| == hi - lo
    ensures forall j :: 0 <= j < |r| ==> r[j] == NewContactConstraints(lo + j, mu)
    decreases hi - lo
  {
    if hi == lo then [] else FreshEntries(lo, hi - 1, mu) + [NewContactConstraints(hi - 1, mu)]
  }

  /** The constraints registered for the entries with ids `lo` up to `hi`. */
  function FreshRefs(lo: nat, hi: nat): multiset<ConstraintRef>
    requires lo <= hi
    decreases hi - lo
  {
    if hi == lo then multiset{}
    else FreshRefs(lo, hi - 1) + multiset{NormalOf(hi - 1), FrictionOf(hi - 1, 0), FrictionOf(hi - 1, 1)}
  }

  /** The three constraints a ContactConstraints registers. */
  function Refs(c: ContactConstraints): multiset<ConstraintRef> {
    multiset{NormalOf(c.id), FrictionOf(c.id, 0), FrictionOf(c.id, 1)}
  }

  /** The constraints a sequence of ContactConstraints registers. */
  function AllRefs(cs: seq<ContactConstraints>): (r: multiset<ConstraintRef>)
    ensures |r| == 3 * |cs|
  {
    if cs == [] then multiset{} else AllRefs(cs[..|cs| - 1]) + Refs(cs[|cs| - 1])
  }

  lemma {:induction false} AllRefsConcat(a: seq<ContactConstraints>, b: seq<ContactConstraints>)
    ensures AllRefs(a + b) == AllRefs(a) + AllRefs(b)
    decreases |b|
  {
    if b == [] {
      assert a + b == a;
    } else {
      assert (a + b)[..|a + b| - 1] == a + b[..|b| - 1];
      AllRefsConcat(a, b[..|b| - 1]);
    }
  }

  /** Appending one entry registers its three constraints. */
  lemma AllRefsSnoc(cs: seq<ContactConstraints>, c: ContactConstraints)
    ensures AllRefs(cs + [c]) == AllRefs(cs) + Refs(c)
  {
    assert (cs + [c])[..|cs|] == cs;
  }

  /** Peeling the first entry off a suffix of `cs`. */
  lemma AllRefsSuffix(cs: seq<ContactConstraints>, n: nat)
    requires 0 < n <= |cs|
    ensures AllRefs(cs[n - 1..]) == Refs(cs[n - 1]) + AllRefs(cs[n..])
  {
    assert cs[n - 1..] == [cs[n - 1]] + cs[n..];
    AllRefsConcat([cs[n - 1]], cs[n..]);
    assert [cs[n - 1]][..0] == [];
  }

  /** A constraint is registered by an entry of `cs` exactly when its id is that
      entry's id. */
  lemma RefsMembers(c: ContactConstraints, r: ConstraintRef)
    ensures r in Refs(c) <==> c.id == r.id && (r.NormalOf? || r.k < 2)
  {
    if r.FrictionOf? && r.k < 2 && c.id == r.id {
      assert r == FrictionOf(c.id, r.k);
    }
  }

  lemma {:induction false} AllRefsMembers(cs: seq<ContactConstraints>, r: ConstraintRef)
    ensures r in AllRefs(cs) <==>
      exists j :: 0 <= j < |cs| && cs[j].id == r.id && (r.NormalOf? || r.k < 2)
  {
    if cs != [] {
      var init, last := cs[..|cs| - 1], cs[|cs| - 1];
      AllRefsMembers(init, r);
      RefsMembers(last, r);
      assert AllRefs(cs) == AllRefs(init) + Refs(last);
      if r in AllRefs(cs) {
        if r in AllRefs(init) {
          var j :| 0 <= j < |init| && init[j].id == r.id && (r.NormalOf? || r.k < 2);
          assert cs[j] == init[j];
        } else {
          assert r in Refs(last);
        }
      }
      if exists j :: 0 <= j < |cs| && cs[j].id == r.id && (r.NormalOf? || r.k < 2) {
        var j :| 0 <= j < |cs| && cs[j].id == r.id && (r.NormalOf? || r.k < 2);
        if j < |init| {
          assert init[j] == cs[j];
          assert r in AllRefs(init);
        } else {
          assert r in Refs(last);
        }
      }
    }
  }

  /** The index of the smallest-magnitude component of n, the first one on ties
      (std::min_element with absCompare, line 194). */
  function MinAbsAxis(n: Vec3): (i: nat)
    ensures i < 3
    ensures forall j :: 0 <= j < 3 ==> Abs(Component(n, i)) <= Abs(Component(n, j))
    ensures forall j :: 0 <= j < i ==> Abs(Component(n, j)) > Abs(Component(n, i))
  {
    var s := if Abs(n.y) < Abs(n.x) then 1 else 0;
    if Abs(n.z) < Abs(Component(n, s)) then 2 else s
  }

  /** The unit vector along axis i. */
  function Axis(i: nat): Vec3
    requires i < 3
  {
    if i == 0 then Vec3(1.0, 0.0, 0.0) else if i == 1 then Vec3(0.0, 1.0, 0.0) else Vec3(0.0, 0.0, 1.0)
  }

  /** The constraint data of lines 188-205 for one contact: the lever arms from
      both centres of mass and two tangents built from the helper axis; glm's
      normalize is the parameter `normalize`. */
  predicate DataMatches(c: ContactConstraints, contact: Contact, rb1: BodyData, rb2: BodyData,
                        normalize: Vec3 -> Vec3)
  {
    var r1 := Sub(contact.worldPosition0, rb1.position);
    var r2 := Sub(contact.worldPosition1, rb2.position);
    var t1 := normalize(Cross(contact.normal, Axis(MinAbsAxis(contact.normal))));
    var t2 := normalize(Cross(contact.normal, t1));
    && c.normal.normal == contact.normal && c.normal.r1 == r1 && c.normal.r2 == r2
    && c.friction0.tangent == t1 && c.friction0.r1 == r1 && c.friction0.r2 == r2
    && c.friction1.tangent == t2 && c.friction1.r1 == r1 && c.friction1.r2 == r2
  }

  /** The same ContactConstraints with its three constraints' data set for a contact. */
  function SetData(c: ContactConstraints, contact: Contact, rb1: BodyData, rb2: BodyData,
                   normalize: Vec3 -> Vec3): (r: ContactConstraints)
    ensures DataMatches(r, contact, rb1, rb2, normalize)
    ensures r.id == c.id && r.friction0.mass == c.friction0.mass && r.friction1.mass == c.friction1.mass
    ensures r.friction0.frictionCoefficient == c.friction0.frictionCoefficient
    ensures r.friction1.frictionCoefficient == c.friction1.frictionCoefficient
  {
    var r1 := Sub(contact.worldPosition0, rb1.position);
    var r2 := Sub(contact.worldPosition1, rb2.position);
    var t1 := normalize(Cross(contact.normal, Axis(MinAbsAxis(contact.normal))));
    var t2 := normalize(Cross(contact.normal, t1));
    c.(normal := c.normal.(normal := contact.normal, r1 := r1, r2 := r2),
       friction0 := c.friction0.(tangent := t1, r1 := r1, r2 := r2),
       friction1 := c.friction1.(tangent := t2, r1 := r1, r2 := r2))
  }

  /** Both friction constraints' bounds recomputed for a mass (lines 175-176). */
  function SetMass(c: ContactConstraints, mass: real): (r: ContactConstraints)
    ensures r.id == c.id && r.friction0.mass == Some(mass) && r.friction1.mass == Some(mass)
    ensures r.friction0.frictionCoefficient == c.friction0.frictionCoefficient
    ensures r.friction1.frictionCoefficient == c.friction1.frictionCoefficient
  {
    c.(friction0 := c.friction0.(mass := Some(mass)), friction1 := c.friction1.(mass := Some(mass)))
  }

  /** The entries of a manifold, empty when it has none (what operator[] yields). */
  function EntriesOf(map0: map<ManifoldId, seq<ContactConstraints>>, m: ManifoldId): seq<ContactConstraints> {
    if m in map0 then map0[m] else []
  }

  /** Where each id lives: the manifold and the position of its entry. */
  type Owners = map<int, (int, int)>

  /** Entry j of manifold m has an id below nextId, recorded as living there, and
      its three constraints are registered. */
  ghost predicate EntryTracked(mc: map<ManifoldId, seq<ContactConstraints>>, registered: multiset<ConstraintRef>,
                               nextId: nat, owner: Owners, m: ManifoldId, j: nat)
    requires m in mc && j < |mc[m]|
  {
    var e := mc[m][j];
    e.id < nextId && IsRegistered(e, registered) && e.id in owner && owner[e.id] == (m, j)
  }

  /** The three constraints of `c` are registered. */
  predicate IsRegistered(c: ContactConstraints, registered: multiset<ConstraintRef>) {
    NormalOf(c.id) in registered && FrictionOf(c.id, 0) in registered && FrictionOf(c.id, 1) in registered
  }

  lemma RegisteredRefs(c: ContactConstraints, registered: multiset<ConstraintRef>)
    requires IsRegistered(c, registered)
    ensures Refs(c) <= registered
  {
  }

  /** The system's invariant on its values: every manifold holds at most
      kMaxContacts entries and every entry is tracked; as `owner` maps an id to a
      single place, no two entries share an id. */
  ghost predicate Tracked(mc: map<ManifoldId, seq<ContactConstraints>>, registered: multiset<ConstraintRef>,
                          nextId: nat, owner: Owners)
  {
    && (forall m :: m in mc ==> |mc[m]| <= MaxContacts)
    && (forall m, j :: m in mc && 0 <= j < |mc[m]| ==> EntryTracked(mc, registered, nextId, owner, m, j))
  }

  /** Two tracked entries with the same id are the same entry. */
  lemma SameIdSamePlace(mc: map<ManifoldId, seq<ContactConstraints>>, registered: multiset<ConstraintRef>,
                        nextId: nat, owner: Owners, m1: ManifoldId, j1: nat, m2: ManifoldId, j2: nat)
    requires Tracked(mc, registered, nextId, owner)
    requires m1 in mc && j1 < |mc[m1]| && m2 in mc && j2 < |mc[m2]|
    ensures mc[m1][j1].id == mc[m2][j2].id ==> m1 == m2 && j1 == j2
  {
    assert EntryTracked(mc, registered, nextId, owner, m1, j1);
    assert EntryTracked(mc, registered, nextId, owner, m2, j2);
  }

  /** Appending an entry with the fresh id and registering its constraints keeps
      the invariant. */
  lemma GrowKeeps(mc: map<ManifoldId, seq<ContactConstraints>>, cs: seq<ContactConstraints>,
                  registered: multiset<ConstraintRef>, nextId: nat, owner: Owners,
                  m: ManifoldId, c: ContactConstraints)
    requires Tracked(mc[m := cs], registered, nextId, owner) && |cs| < MaxContacts && c.id == nextId
    ensures Tracked(mc[m := cs + [c]], registered + Refs(c), nextId + 1, owner[nextId := (m, |cs|)])
  {
    var mc0: map<ManifoldId, seq<ContactConstraints>> := mc[m := cs];
    var mc': map<ManifoldId, seq<ContactConstraints>> := mc[m := cs + [c]];
    var owner' := owner[nextId := (m, |cs|)];
    var registered', nextId' := registered + Refs(c), nextId + 1;
    forall m1 | m1 in mc'
      ensures |mc'[m1]| <= MaxContacts
    {
      assert m1 in mc0 && (m1 != m ==> mc'[m1] == mc0[m1]);
    }
    forall m1: ManifoldId, j1: nat | m1 in mc' && j1 < |mc'[m1]|
      ensures EntryTracked(mc', registered', nextId', owner', m1, j1)
    {
      if m1 != m || j1 < |cs| {
        assert mc'[m1][j1] == mc0[m1][j1];
        assert EntryTracked(mc0, registered, nextId, owner, m1, j1);
      }
    }
  }

  /** operator[] inserting an empty entry list keeps the invariant. */
  lemma InsertKeeps(mc: map<ManifoldId, seq<ContactConstraints>>, registered: multiset<ConstraintRef>,
                    nextId: nat, owner: Owners, m: ManifoldId)
    requires Tracked(mc, registered, nextId, owner)
    ensures Tracked(mc[m := EntriesOf(mc, m)], registered, nextId, owner)
  {
    var mc': map<ManifoldId, seq<ContactConstraints>> := mc[m := EntriesOf(mc, m)];
    forall m1: ManifoldId, j1: nat | m1 in mc' && j1 < |mc'[m1]|
      ensures EntryTracked(mc', registered, nextId, owner, m1, j1)
    {
      assert EntryTracked(mc, registered, nextId, owner, m1, j1);
    }
  }

  /** Popping a manifold's last entry and deregistering its constraints keeps the
      invariant, since no other entry shares its id. */
  lemma PopKeeps(mc: map<ManifoldId, seq<ContactConstraints>>, cs: seq<ContactConstraints>,
                 registered: multiset<ConstraintRef>, nextId: nat, owner: Owners, m: ManifoldId)
    requires Tracked(mc[m := cs], registered, nextId, owner) && |cs| > 0
    ensures Refs(cs[|cs| - 1]) <= registered
    ensures Tracked(mc[m := cs[..|cs| - 1]], registered - Refs(cs[|cs| - 1]), nextId, owner)
  {
    var last := cs[|cs| - 1];
    var mc0: map<ManifoldId, seq<ContactConstraints>> := mc[m := cs];
    assert EntryTracked(mc0, registered, nextId, owner, m, |cs| - 1);
    RegisteredRefs(last, registered);
    var mc': map<ManifoldId, seq<ContactConstraints>> := mc[m := cs[..|cs| - 1]];
    var registered' := registered - Refs(last);
    forall m1 | m1 in mc'
      ensures |mc'[m1]| <= MaxContacts
    {
      assert m1 in mc0 && (m1 != m ==> mc'[m1] == mc0[m1]);
    }
    forall m1: ManifoldId, j1: nat | m1 in mc' && j1 < |mc'[m1]|
      ensures EntryTracked(mc', registered', nextId, owner, m1, j1)
    {
      assert mc'[m1][j1] == mc0[m1][j1];
      assert EntryTracked(mc0, registered, nextId, owner, m1, j1);
      assert mc0[m1][j1].id != last.id;
    }
  }

  /** Where the growing loop records the entries with ids `lo` up to `hi` that it
      appends hi manifold m after its first n0 entries. */
  ghost function FreshOwners(own0: Owners, lo: nat, hi: nat, m: ManifoldId, n0: nat): Owners
    requires lo <= hi
    decreases hi - lo
  {
    if hi == lo then own0 else FreshOwners(own0, lo, hi - 1, m, n0)[hi - 1 := (m, n0 + (hi - 1 - lo))]
  }

  /** Appending the entry with id `next` extends the fresh entries by one. */
  lemma FreshEntriesStep(cs0: seq<ContactConstraints>, lo: nat, next: nat, mu: real)
    requires lo <= next
    ensures cs0 + FreshEntries(lo, next + 1, mu) == (cs0 + FreshEntries(lo, next, mu)) + [NewContactConstraints(next, mu)]
  {
    var added := FreshEntries(lo, next, mu);
    var c := NewContactConstraints(next, mu);
    assert FreshEntries(lo, next + 1, mu) == added + [c];
    assert cs0 + (added + [c]) == (cs0 + added) + [c];
  }

  /** Registering the constraints of the entry with id `next` extends the fresh
      registrations by one entry's worth. */
  lemma FreshRefsStep(reg0: multiset<ConstraintRef>, lo: nat, next: nat, mu: real)
    requires lo <= next
    ensures reg0 + FreshRefs(lo, next + 1) == (reg0 + FreshRefs(lo, next)) + Refs(NewContactConstraints(next, mu))
  {
  }

  /** Appending the entries with ids `lo` up to `hi` to manifold m and registering
      their constraints keeps the invariant, provided the manifold stays within
      kMaxContacts. */
  lemma {:induction false} GrowManyKeeps(mc: map<ManifoldId, seq<ContactConstraints>>, cs0: seq<ContactConstraints>,
                                         reg0: multiset<ConstraintRef>, own0: Owners,
                                         m: ManifoldId, lo: nat, hi: nat, mu: real)
    requires Tracked(mc[m := cs0], reg0, lo, own0) && lo <= hi && |cs0| + (hi - lo) <= MaxContacts
    ensures Tracked(mc[m := cs0 + FreshEntries(lo, hi, mu)], reg0 + FreshRefs(lo, hi),
                    hi, FreshOwners(own0, lo, hi, m, |cs0|))
    decreases hi - lo
  {
    if hi == lo {
      assert cs0 + [] == cs0;
      assert reg0 + multiset{} == reg0;
    } else {
      var k := hi - 1;
      assert hi == k + 1;
      var c := NewContactConstraints(k, mu);
      GrowManyKeeps(mc, cs0, reg0, own0, m, lo, k, mu);
      GrowStep(cs0, reg0, own0, m, lo, k, mu);
      GrowKeeps(mc, cs0 + FreshEntries(lo, k, mu), reg0 + FreshRefs(lo, k), k,
                FreshOwners(own0, lo, k, m, |cs0|), m, c);
    }
  }

  /** What one more fresh entry adds: the entry itself, its three registrations and
      the record of where it lives. */
  lemma GrowStep(cs0: seq<ContactConstraints>, reg0: multiset<ConstraintRef>, own0: Owners,
                 m: ManifoldId, lo: nat, k: nat, mu: real)
    requires lo <= k
    ensures (cs0 + FreshEntries(lo, k, mu)) + [NewContactConstraints(k, mu)] == cs0 + FreshEntries(lo, k + 1, mu)
    ensures (reg0 + FreshRefs(lo, k)) + Refs(NewContactConstraints(k, mu)) == reg0 + FreshRefs(lo, k + 1)
    ensures FreshOwners(own0, lo, k, m, |cs0|)[k := (m, |cs0 + FreshEntries(lo, k, mu)|)]
            == FreshOwners(own0, lo, k + 1, m, |cs0|)
  {
    FreshEntriesStep(cs0, lo, k, mu);
    FreshRefsStep(reg0, lo, k, mu);
  }

  /** Popping the entries of manifold m down to `count` and deregistering their
      constraints keeps the invariant; every constraint popped was registered, so
      deregistration takes exactly those away. */
  lemma {:induction false} ShrinkManyKeeps(mc: map<ManifoldId, seq<ContactConstraints>>, cs0: seq<ContactConstraints>,
                                           reg0: multiset<ConstraintRef>, nextId: nat, owner: Owners,
                                           m: ManifoldId, count: nat)
    requires Tracked(mc[m := cs0], reg0, nextId, owner) && count <= |cs0|
    ensures AllRefs(cs0[count..]) <= reg0
    ensures Tracked(mc[m := cs0[..count]], reg0 - AllRefs(cs0[count..]), nextId, owner)
    decreases |cs0| - count
  {
    if count == |cs0| {
      assert cs0[..count] == cs0;
      assert cs0[count..] == [];
      assert reg0 - multiset{} == reg0;
    } else {
      ShrinkManyKeeps(mc, cs0, reg0, nextId, owner, m, count + 1);
      var rest := reg0 - AllRefs(cs0[count + 1..]);
      assert cs0[..count + 1][..count] == cs0[..count];
      PopKeeps(mc, cs0[..count + 1], rest, nextId, owner, m);
      DeregisterBefore(reg0, cs0, count + 1);
      AllRefsSuffix(cs0, count + 1);
      SuffixRegistered(reg0, AllRefs(cs0[count + 1..]), Refs(cs0[count]));
    }
  }

  /** How the ids and registrations of a manifold's entries `cs0` relate to
      those of `cs` after handleIntersectingManifold: either new entries were
      appended with the ids from `next0` on and their constraints registered, or
      entries were popped and their constraints deregistered; the entries kept
      keep their ids. */
  predicate IdsAccounted(cs0: seq<ContactConstraints>, reg0: multiset<ConstraintRef>, next0: nat,
                         cs: seq<ContactConstraints>, reg: multiset<ConstraintRef>, next: nat)
  {
    if |cs| > |cs0| then
      && next == next0 + (|cs| - |cs0|) && reg == reg0 + FreshRefs(next0, next)
      && forall j :: 0 <= j < |cs| ==> cs[j].id == (if j < |cs0| then cs0[j].id else next0 + (j - |cs0|))
    else
      && next == next0 && reg == reg0 - AllRefs(cs0[|cs|..])
      && forall j :: 0 <= j < |cs| ==> cs[j].id == cs0[j].id
  }

  /** handleIntersectingManifold keeps the invariant; everything it deregisters
      was registered. */
  lemma SyncKeeps(mc: map<ManifoldId, seq<ContactConstraints>>, reg0: multiset<ConstraintRef>,
                  next0: nat, own0: Owners, m: ManifoldId,
                  cs: seq<ContactConstraints>, reg: multiset<ConstraintRef>, next: nat)
    requires Tracked(mc, reg0, next0, own0) && |cs| <= MaxContacts
    requires IdsAccounted(EntriesOf(mc, m), reg0, next0, cs, reg, next)
    ensures |cs| < |EntriesOf(mc, m)| ==> AllRefs(EntriesOf(mc, m)[|cs|..]) <= reg0
    ensures Tracked(mc[m := cs], reg, next, FreshOwners(own0, next0, next, m, |EntriesOf(mc, m)|))
  {
    var cs0 := EntriesOf(mc, m);
    InsertKeeps(mc, reg0, next0, own0, m);
    if |cs| > |cs0| {
      GrowManyKeeps(mc, cs0, reg0, own0, m, next0, next, 0.0);
      var grown := cs0 + FreshEntries(next0, next, 0.0);
      forall j | 0 <= j < |cs|
        ensures cs[j].id == grown[j].id
      {
        if j >= |cs0| {
          assert grown[j] == FreshEntries(next0, next, 0.0)[j - |cs0|];
        }
      }
      SameIdsKeep(mc, grown, cs, reg, next, FreshOwners(own0, next0, next, m, |cs0|), m);
    } else {
      ShrinkManyKeeps(mc, cs0, reg0, next0, own0, m, |cs|);
      SameIdsKeep(mc, cs0[..|cs|], cs, reg, next, own0, m);
    }
  }

  /** Multiset bookkeeping for ShrinkManyKeeps. */
  lemma SuffixRegistered(reg0: multiset<ConstraintRef>, a: multiset<ConstraintRef>, b: multiset<ConstraintRef>)
    requires a <= reg0 && b <= reg0 - a
    ensures b + a <= reg0
  {
    forall r: ConstraintRef
      ensures (b + a)[r] <= reg0[r]
    {
      assert b[r] <= (reg0 - a)[r];
    }
  }

  /** Replacing a manifold's entries by entries with the same ids keeps the
      invariant. */
  lemma SameIdsKeep(mc: map<ManifoldId, seq<ContactConstraints>>, cs: seq<ContactConstraints>,
                    cs': seq<ContactConstraints>, registered: multiset<ConstraintRef>,
                    nextId: nat, owner: Owners, m: ManifoldId)
    requires Tracked(mc[m := cs], registered, nextId, owner) && |cs'| == |cs|
    requires forall j :: 0 <= j < |cs| ==> cs'[j].id == cs[j].id
    ensures Tracked(mc[m := cs'], registered, nextId, owner)
  {
    var mc0: map<ManifoldId, seq<ContactConstraints>> := mc[m := cs];
    var mc': map<ManifoldId, seq<ContactConstraints>> := mc[m := cs'];
    forall m1 | m1 in mc'
      ensures |mc'[m1]| <= MaxContacts
    {
      assert m1 in mc0 && (m1 != m ==> mc'[m1] == mc0[m1]);
    }
    forall m1: ManifoldId, j1: nat | m1 in mc' && j1 < |mc'[m1]|
      ensures EntryTracked(mc', registered, nextId, owner, m1, j1)
    {
      assert EntryTracked(mc0, registered, nextId, owner, m1, j1);
    }
  }

  /** Every constraint a manifold's entries registered is registered, with its
      multiplicity. */
  lemma EntriesRegistered(mc: map<ManifoldId, seq<ContactConstraints>>, registered: multiset<ConstraintRef>,
                          nextId: nat, owner: Owners, m: ManifoldId)
    requires Tracked(mc, registered, nextId, owner) && m in mc
    ensures AllRefs(mc[m]) <= registered
  {
    assert mc[m := mc[m]] == mc;
    assert mc[m][0..] == mc[m];
    ShrinkManyKeeps(mc, mc[m], registered, nextId, owner, m, 0);
  }

  /** Erasing a manifold and deregistering all its constraints keeps the invariant. */
  lemma EraseKeeps(mc: map<ManifoldId, seq<ContactConstraints>>, registered: multiset<ConstraintRef>,
                   nextId: nat, owner: Owners, m: ManifoldId)
    requires Tracked(mc, registered, nextId, owner) && m in mc
    ensures Tracked(mc - {m}, registered - AllRefs(mc[m]), nextId, owner)
  {
    var mc': map<ManifoldId, seq<ContactConstraints>> := mc - {m};
    var registered' := registered - AllRefs(mc[m]);
    forall m1: ManifoldId, j1: nat | m1 in mc' && j1 < |mc'[m1]|
      ensures EntryTracked(mc', registered', nextId, owner, m1, j1)
    {
      var e := mc[m1][j1];
      assert EntryTracked(mc, registered, nextId, owner, m1, j1);
      forall r | r in Refs(e)
        ensures r !in AllRefs(mc[m])
      {
        AllRefsMembers(mc[m], r);
        if r in AllRefs(mc[m]) {
          var j :| 0 <= j < |mc[m]| && mc[m][j].id == r.id && (r.NormalOf? || r.k < 2);
          SameIdSamePlace(mc, registered, nextId, owner, m1, j1, m, j);
        }
      }
    }
  }

  /** The growing loop of handleIntersectingManifold (lines 134-151) on the
      entries `cs0` of manifold m: one new ContactConstraints per missing contact,
      numbered from `next0`, each registering its normal constraint and its two
      friction constraints with the manager (`reg0`). */
  method GrowEntries(cs0: seq<ContactConstraints>, reg0: multiset<ConstraintRef>, next0: nat, count: nat, mu: real)
    returns (cs: seq<ContactConstraints>, reg: multiset<ConstraintRef>, next: nat)
    requires |cs0| <= count
    ensures next == next0 + (count - |cs0|)
    ensures cs == cs0 + FreshEntries(next0, next, mu) && reg == reg0 + FreshRefs(next0, next)
  {
    var n0 := |cs0|;
    cs, reg, next := cs0, reg0, next0;
    assert cs0 + [] == cs0;
    for i := n0 to count
      invariant i == n0 + (next - next0) && next0 <= next
      invariant cs == cs0 + FreshEntries(next0, next, mu)
      invariant reg == reg0 + FreshRefs(next0, next)
    {
      var c := NewContactConstraints(next, mu);
      FreshEntriesStep(cs0, next0, next, mu);
      FreshRefsStep(reg0, next0, next, mu);
      cs := cs + [c];
      // addConstraint of the normal and both friction constraints
      reg := reg + Refs(c);
      next := next + 1;
    }
  }

  /** The shrinking loop of handleIntersectingManifold (lines 155-163) on the
      entries `cs0` of manifold m: the last ContactConstraints is popped while there
      are more than `count`, each deregistering the three constraints it registered. */
  method ShrinkEntries(cs0: seq<ContactConstraints>, reg0: multiset<ConstraintRef>, count: nat)
    returns (cs: seq<ContactConstraints>, reg: multiset<ConstraintRef>)
    requires count <= |cs0|
    ensures cs == cs0[..count] && reg == reg0 - AllRefs(cs0[count..])
  {
    cs, reg := cs0, reg0;
    ghost var popped: seq<ContactConstraints> := [];
    assert cs + popped == cs0;
    while |cs| > count
      invariant count <= |cs| && cs + popped == cs0
      invariant reg == reg0 - AllRefs(popped)
    {
      var last := cs[|cs| - 1];
      PopSplit(cs, popped);
      PopRefsStep(reg0, last, popped);
      // removeConstraint of the normal and both friction constraints
      reg := reg - Refs(last);
      popped := [last] + popped;
      cs := cs[..|cs| - 1];
    }
    assert cs == cs0[..count] && popped == cs0[count..];
  }

  /** Moving the last entry of `cs` to the front of `popped` keeps their
      concatenation. */
  lemma PopSplit(cs: seq<ContactConstraints>, popped: seq<ContactConstraints>)
    requires |cs| > 0
    ensures cs[..|cs| - 1] + ([cs[|cs| - 1]] + popped) == cs + popped
  {
    assert cs == cs[..|cs| - 1] + [cs[|cs| - 1]];
  }

  /** Deregistering one more popped entry. */
  lemma PopRefsStep(reg0: multiset<ConstraintRef>, c: ContactConstraints, popped: seq<ContactConstraints>)
    ensures reg0 - AllRefs(popped) - Refs(c) == reg0 - AllRefs([c] + popped)
  {
    AllRefsConcat([c], popped);
    assert [c][..0] == [];
    var a := AllRefs(popped);
    forall r: ConstraintRef
      ensures (reg0 - a - Refs(c))[r] == (reg0 - (Refs(c) + a))[r]
    {
    }
  }

  /** Deregistering the entry just before a deregistered suffix of `cs0` extends
      that suffix by one. */
  lemma DeregisterBefore(reg0: multiset<ConstraintRef>, cs0: seq<ContactConstraints>, n: nat)
    requires 0 < n <= |cs0|
    ensures reg0 - AllRefs(cs0[n..]) - Refs(cs0[n - 1]) == reg0 - AllRefs(cs0[n - 1..])
  {
    AllRefsSuffix(cs0, n);
    var a, c := AllRefs(cs0[n..]), Refs(cs0[n - 1]);
    forall r: ConstraintRef
      ensures (reg0 - a - c)[r] == (reg0 - (c + a))[r]
    {
    }
  }

  /** The loop of handleDisjointManifold (lines 218-222): each entry, first to
      last, deregisters its normal constraint and its two friction constraints. */
  method DeregisterAll(cs: seq<ContactConstraints>, reg0: multiset<ConstraintRef>)
    returns (reg: multiset<ConstraintRef>)
    ensures reg == reg0 - AllRefs(cs)
  {
    reg := reg0;
    for j := 0 to |cs|
      invariant reg == reg0 - AllRefs(cs[..j])
    {
      DeregisterStep(reg0, cs, j);
      // removeConstraint of the normal and both friction constraints
      reg := reg - multiset{NormalOf(cs[j].id)} - multiset{FrictionOf(cs[j].id, 0)} - multiset{FrictionOf(cs[j].id, 1)};
    }
    assert cs[..|cs|] == cs;
  }

  /** Deregistering entry j's three constraints, one at a time. */
  lemma DeregisterStep(reg0: multiset<ConstraintRef>, cs: seq<ContactConstraints>, j: nat)
    requires j < |cs|
    ensures reg0 - AllRefs(cs[..j]) - multiset{NormalOf(cs[j].id)} - multiset{FrictionOf(cs[j].id, 0)}
            - multiset{FrictionOf(cs[j].id, 1)} == reg0 - AllRefs(cs[..j + 1])
  {
    var c := cs[j];
    assert cs[..j + 1] == cs[..j] + [c];
    AllRefsSnoc(cs[..j], c);
    var lhs := reg0 - AllRefs(cs[..j]) - multiset{NormalOf(c.id)} - multiset{FrictionOf(c.id, 0)}
               - multiset{FrictionOf(c.id, 1)};
    forall r: ConstraintRef
      ensures lhs[r] == (reg0 - AllRefs(cs[..j + 1]))[r]
    {
    }
  }

  /** The friction mass loop of handleIntersectingManifold (lines 174-177): both
      friction constraints of every entry get their bounds recomputed for the
      same mass. */
  method SetMasses(cs0: seq<ContactConstraints>, perContactMass: real) returns (cs: seq<ContactConstraints>)
    ensures |cs| == |cs0|
    ensures forall j :: 0 <= j < |cs| ==> cs[j] == SetMass(cs0[j], perContactMass)
  {
    cs := cs0;
    for j := 0 to |cs|
      invariant |cs| == |cs0|
      invariant forall k :: 0 <= k < j ==> cs[k] == SetMass(cs0[k], perContactMass)
      invariant forall k :: j <= k < |cs| ==> cs[k] == cs0[k]
    {
      cs := cs[j := SetMass(cs[j], perContactMass)];
    }
  }

  /** The data loop of handleIntersectingManifold (lines 183-211): entry i gets
      the normal, lever arms and tangents of contact i. */
  method SetAllData(cs0: seq<ContactConstraints>, contacts: seq<Contact>, rb1: BodyData, rb2: BodyData,
                    normalize: Vec3 -> Vec3) returns (cs: seq<ContactConstraints>)
    requires |cs0| == |contacts|
    ensures |cs| == |contacts|
    ensures forall i :: 0 <= i < |cs| ==> cs[i] == SetData(cs0[i], contacts[i], rb1, rb2, normalize)
  {
    cs := cs0;
    for i := 0 to |contacts|
      invariant |cs| == |contacts|
      invariant forall k :: 0 <= k < i ==> cs[k] == SetData(cs0[k], contacts[k], rb1, rb2, normalize)
      invariant forall k :: i <= k < |cs| ==> cs[k] == cs0[k]
    {
      cs := cs[i := SetData(cs[i], contacts[i], rb1, rb2, normalize)];
    }
  }

  /** The friction coefficient of new friction constraints (line 130): the root
      mean square of both bodies' coefficients; std::sqrt is the parameter `sqrt`. */
  function FrictionMu(rb1: BodyData, rb2: BodyData, sqrt: real -> real): real {
    sqrt((rb1.frictionCoefficient * rb1.frictionCoefficient
          + rb2.frictionCoefficient * rb2.frictionCoefficient) / 2.0)
  }

  /** What handleIntersectingManifold does to a manifold's entries `cs0`, the
      registered constraints `reg0` and the next id `next0`, yielding `cs`, `reg`
      and `next`: one entry per contact; the entries kept keep their ids; missing
      entries are new, numbered from next0, with the combined friction coefficient,
      and register their constraints; extra entries are popped and deregister
      theirs; when the count changed every entry's friction mass is the averaged
      mass split over the contacts, otherwise the masses are kept; and every
      entry carries its contact's data. */
  predicate Synchronized(cs0: seq<ContactConstraints>, reg0: multiset<ConstraintRef>, next0: nat,
                         contacts: seq<Contact>, rb1: BodyData, rb2: BodyData,
                         sqrt: real -> real, normalize: Vec3 -> Vec3,
                         cs: seq<ContactConstraints>, reg: multiset<ConstraintRef>, next: nat)
    requires rb1.invertedMass > 0.0 || rb2.invertedMass > 0.0
  {
    var n0 := |cs0|;
    && |cs| == |contacts|
    && (forall j :: 0 <= j < |cs| && j < n0 ==> cs[j].id == cs0[j].id)
    && (|cs| > n0 ==>
          && next == next0 + (|cs| - n0)
          && reg == reg0 + FreshRefs(next0, next)
          && forall j :: n0 <= j < |cs| ==>
               && cs[j].id == next0 + (j - n0)
               && cs[j].friction0.frictionCoefficient == FrictionMu(rb1, rb2, sqrt)
               && cs[j].friction1.frictionCoefficient == FrictionMu(rb1, rb2, sqrt))
    && (|cs| < n0 ==> next == next0 && reg == reg0 - AllRefs(cs0[|cs|..]))
    && (|cs| == n0 ==> next == next0 && reg == reg0)
    && (forall j :: 0 <= j < |cs| ==>
          if |cs| != n0 then
            var perContactMass := 2.0 / (rb1.invertedMass + rb2.invertedMass) / (|cs| as real);
            cs[j].friction0.mass == Some(perContactMass) && cs[j].friction1.mass == Some(perContactMass)
          else
            cs[j].friction0.mass == cs0[j].friction0.mass && cs[j].friction1.mass == cs0[j].friction1.mass)
    && (forall j :: 0 <= j < |cs| ==> DataMatches(cs[j], contacts[j], rb1, rb2, normalize))
  }

  /** The effect of the resizing part of handleIntersectingManifold (lines
      127-167) on `cs0`, `reg0` and `next0`: `count` entries, the first ones kept,
      the new ones fresh with friction coefficient `mu` and registered, the
      popped ones deregistered. */
  predicate Resized(cs0: seq<ContactConstraints>, reg0: multiset<ConstraintRef>, next0: nat, count: nat, mu: real,
                    cs: seq<ContactConstraints>, reg: multiset<ConstraintRef>, next: nat)
  {
    && |cs| == count
    && (forall j :: 0 <= j < count && j < |cs0| ==> cs[j] == cs0[j])
    && (count > |cs0| ==>
          && next == next0 + (count - |cs0|) && reg == reg0 + FreshRefs(next0, next)
          && forall j :: |cs0| <= j < count ==> cs[j] == NewContactConstraints(next0 + (j - |cs0|), mu))
    && (count < |cs0| ==> next == next0 && reg == reg0 - AllRefs(cs0[count..]))
    && (count == |cs0| ==> next == next0 && reg == reg0)
  }

  /** Lines 127-167 of handleIntersectingManifold: grow or shrink the entries to
      `count`; `changed` is updateFrictionMasses. */
  method Resize(cs0: seq<ContactConstraints>, reg0: multiset<ConstraintRef>, next0: nat, count: nat,
                rb1: BodyData, rb2: BodyData, sqrt: real -> real)
    returns (cs: seq<ContactConstraints>, reg: multiset<ConstraintRef>, next: nat, changed: bool)
    ensures changed <==> count != |cs0|
    ensures Resized(cs0, reg0, next0, count, FrictionMu(rb1, rb2, sqrt), cs, reg, next)
  {
    cs, reg, next := cs0, reg0, next0;
    changed := true;
    if count > |cs0| {
      var mu := FrictionMu(rb1, rb2, sqrt);
      cs, reg, next := GrowEntries(cs0, reg0, next0, count, mu);
      forall j | |cs0| <= j < count
        ensures cs[j] == NewContactConstraints(next0 + (j - |cs0|), mu)
      {
        assert cs[j] == FreshEntries(next0, next, mu)[j - |cs0|];
      }
    } else if count < |cs0| {
      cs, reg := ShrinkEntries(cs0, reg0, count);
    } else {
      changed := false;
    }
  }

  /** The body of handleIntersectingManifold (lines 127-211) on the manifold's
      entries, the registered constraints and the next id. */
  method Synchronize(cs0: seq<ContactConstraints>, reg0: multiset<ConstraintRef>, next0: nat,
                     contacts: seq<Contact>, rb1: BodyData, rb2: BodyData,
                     sqrt: real -> real, normalize: Vec3 -> Vec3)
    returns (cs: seq<ContactConstraints>, reg: multiset<ConstraintRef>, next: nat)
    requires rb1.invertedMass > 0.0 || rb2.invertedMass > 0.0
    ensures Synchronized(cs0, reg0, next0, contacts, rb1, rb2, sqrt, normalize, cs, reg, next)
    ensures IdsAccounted(cs0, reg0, next0, cs, reg, next)
  {
    var sized, updateFrictionMasses;
    sized, reg, next, updateFrictionMasses := Resize(cs0, reg0, next0, |contacts|, rb1, rb2, sqrt);
    var massed := sized;
    if updateFrictionMasses && |contacts| > 0 {
      // with no contacts the loop over the entries has nothing to update
      var averageMass := 2.0 / (rb1.invertedMass + rb2.invertedMass);
      var perContactMass := averageMass / (|sized| as real);
      massed := SetMasses(sized, perContactMass);
    }
    cs := SetAllData(massed, contacts, rb1, rb2, normalize);
    SynchronizedFromStages(cs0, reg0, next0, contacts, rb1, rb2, sqrt, normalize, sized, massed, cs, reg, next);
  }

  /** The three stages of handleIntersectingManifold together meet Synchronized. */
  lemma SynchronizedFromStages(cs0: seq<ContactConstraints>, reg0: multiset<ConstraintRef>, next0: nat,
                               contacts: seq<Contact>, rb1: BodyData, rb2: BodyData,
                               sqrt: real -> real, normalize: Vec3 -> Vec3,
                               sized: seq<ContactConstraints>, massed: seq<ContactConstraints>,
                               cs: seq<ContactConstraints>, reg: multiset<ConstraintRef>, next: nat)
    requires rb1.invertedMass > 0.0 || rb2.invertedMass > 0.0
    requires Resized(cs0, reg0, next0, |contacts|, FrictionMu(rb1, rb2, sqrt), sized, reg, next)
    requires |massed| == |sized|
    requires forall j :: 0 <= j < |sized| ==>
      massed[j] == if |contacts| != |cs0|
                   then SetMass(sized[j], 2.0 / (rb1.invertedMass + rb2.invertedMass) / (|sized| as real))
                   else sized[j]
    requires |cs| == |massed| && forall j :: 0 <= j < |cs| ==> cs[j] == SetData(massed[j], contacts[j], rb1, rb2, normalize)
    ensures Synchronized(cs0, reg0, next0, contacts, rb1, rb2, sqrt, normalize, cs, reg, next)
    ensures IdsAccounted(cs0, reg0, next0, cs, reg, next)
  {
  }

  /** The guards of onCollisionEvent (lines 91, 94, 95): both entities and the
      manifold present, both entities with a rigid body, one of finite mass. */
  predicate Handled(entity1: Option<EntityId>, entity2: Option<EntityId>,
                    manifold: Option<(ManifoldId, Manifold)>, bodies: map<EntityId, BodyData>)
  {
    && entity1.Some? && entity2.Some? && manifold.Some?
    && entity1.value in bodies && entity2.value in bodies
    && (bodies[entity1.value].invertedMass > 0.0 || bodies[entity2.value].invertedMass > 0.0)
  }

  class ConstraintsSystem {
    var manifoldConstraints: map<ManifoldId, seq<ContactConstraints>>
    /** The constraints registered with the constraint manager. */
    var registered: multiset<ConstraintRef>
    /** The next fresh ContactConstraints id. */
    var nextId: nat
    ghost var owner: Owners

    ghost predicate Valid()
      reads this
    {
      Tracked(manifoldConstraints, registered, nextId, owner)
    }

    constructor ()
      ensures Valid() && manifoldConstraints == map[] && registered == multiset{}
    {
      manifoldConstraints, registered, nextId := map[], multiset{}, 0;
      owner := map[];
    }

    /** handleIntersectingManifold: the manifold's entries (an empty list inserted
        by operator[] when it has none) are synchronised with its contacts as
        Synchronized states, and the invariant is kept. */
    method HandleIntersectingManifold(rb1: BodyData, rb2: BodyData, m: ManifoldId, contacts: seq<Contact>,
                                      sqrt: real -> real, normalize: Vec3 -> Vec3)
      requires Valid() && |contacts| <= MaxContacts
      requires rb1.invertedMass > 0.0 || rb2.invertedMass > 0.0
      modifies this
      ensures Valid() && m in manifoldConstraints
      ensures manifoldConstraints == old(manifoldConstraints)[m := manifoldConstraints[m]]
      ensures Synchronized(EntriesOf(old(manifoldConstraints), m), old(registered), old(nextId),
                           contacts, rb1, rb2, sqrt, normalize, manifoldConstraints[m], registered, nextId)
      ensures var old0 := EntriesOf(old(manifoldConstraints), m);
        |contacts| < |old0| ==> AllRefs(old0[|contacts|..]) <= old(registered)
    {
      // operator[] inserts an empty entry list for a new manifold
      var cs, reg, next := Synchronize(EntriesOf(manifoldConstraints, m), registered, nextId,
                                       contacts, rb1, rb2, sqrt, normalize);
      SyncKeeps(manifoldConstraints, registered, nextId, owner, m, cs, reg, next);
      owner := FreshOwners(owner, nextId, next, m, |EntriesOf(manifoldConstraints, m)|);
      manifoldConstraints, registered, nextId := manifoldConstraints[m := cs], reg, next;
    }

    /** handleDisjointManifold: every constraint of the manifold is deregistered and
        its entry erased; nothing happens when it has none. */
    method HandleDisjointManifold(m: ManifoldId)
      requires Valid()
      modifies this
      ensures Valid() && m !in manifoldConstraints && nextId == old(nextId)
      ensures manifoldConstraints == old(manifoldConstraints) - {m}
      ensures var old0 := EntriesOf(old(manifoldConstraints), m);
        AllRefs(old0) <= old(registered) && registered == old(registered) - AllRefs(old0)
      ensures m !in old(manifoldConstraints) ==> registered == old(registered)
    {
      if m !in manifoldConstraints {
        assert manifoldConstraints == manifoldConstraints - {m};
        assert registered - multiset{} == registered;
        return;
      }
      var cs := manifoldConstraints[m];
      EntriesRegistered(manifoldConstraints, registered, nextId, owner, m);
      EraseKeeps(manifoldConstraints, registered, nextId, owner, m);
      registered := DeregisterAll(cs, registered);
      manifoldConstraints := manifoldConstraints - {m};
    }

    /** onCollisionEvent: an event with a null entity or manifold, an entity
        without a rigid body, or two bodies of infinite mass is ignored; otherwise
        an intersecting manifold gets its constraints synchronised with its contacts
        and a disjoint one loses them all. */
    method OnCollisionEvent(entity1: Option<EntityId>, entity2: Option<EntityId>,
                            manifold: Option<(ManifoldId, Manifold)>, bodies: map<EntityId, BodyData>,
                            sqrt: real -> real, normalize: Vec3 -> Vec3)
      requires Valid()
      requires manifold.Some? ==> Manifolds.Valid(manifold.value.1)
      modifies this
      ensures Valid()
      ensures Handled(entity1, entity2, manifold, bodies) ==>
        var (m, data) := manifold.value;
        var rb1, rb2 := bodies[entity1.value], bodies[entity2.value];
        var entries := EntriesOf(old(manifoldConstraints), m);
        if data.state.intersecting then
          && m in manifoldConstraints && |manifoldConstraints[m]| == |data.contacts|
          && manifoldConstraints == old(manifoldConstraints)[m := manifoldConstraints[m]]
          && Synchronized(entries, old(registered), old(nextId), data.contacts, rb1, rb2, sqrt, normalize,
                          manifoldConstraints[m], registered, nextId)
        else
          && m !in manifoldConstraints && manifoldConstraints == old(manifoldConstraints) - {m}
          && registered == old(registered) - AllRefs(entries) && nextId == old(nextId)
      ensures !Handled(entity1, entity2, manifold, bodies) ==>
        manifoldConstraints == old(manifoldConstraints) && registered == old(registered)
    {
      if entity1.Some? && entity2.Some? && manifold.Some? {
        if entity1.value in bodies && entity2.value in bodies {
          var rb1, rb2 := bodies[entity1.value], bodies[entity2.value];
          if rb1.invertedMass > 0.0 || rb2.invertedMass > 0.0 {
            var (m, data) := manifold.value;
            if data.state.intersecting {
              HandleIntersectingManifold(rb1, rb2, m, data.contacts, sqrt, normalize);
            } else {
              HandleDisjointManifold(m);
            }
          }
        }
      }
    }
  }
}
