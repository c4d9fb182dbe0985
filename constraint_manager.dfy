/** physics::ConstraintManager (sombra ConstraintManager.cpp): the registry of
    constraints that the solver iterates over. It keeps four parallel vectors: the
    tracked rigid bodies (each at most once), the constraints, each constraint's pair
    of body slots and each constraint's accumulated impulse lambda. Removing a body
    slot shifts every stored slot above it down by one. Of the solver, only the
    index and flag bookkeeping and the clamp of lambda are modelled; the impulse
    change each Gauss-Seidel step computes is an input. */
module ConstraintManagers {
  import opened Wrappers

  /** The state flags of a rigid body that the manager reads or writes
      (RigidBodyState::Sleeping, Integrated and ConstraintsSolved). */
  class RigidBody {
    var sleeping: bool
    var integrated: bool
    var constraintsSolved: bool

    constructor (sleeping: bool, integrated: bool)
      ensures this.sleeping == sleeping && this.integrated == integrated
      ensures !constraintsSolved
    {
      this.sleeping := sleeping;
      this.integrated := integrated;
      constraintsSolved := false;
    }
  }

  /** A constraint between two rigid bodies (getRigidBody(0), getRigidBody(1)) with
      the bounds of its impulse (getConstraintBounds). */
  class Constraint {
    const body0: RigidBody
    const body1: RigidBody
    var lambdaMin: real
    var lambdaMax: real

    constructor (body0: RigidBody, body1: RigidBody, lambdaMin: real, lambdaMax: real)
      ensures this.body0 == body0 && this.body1 == body1
      ensures this.lambdaMin == lambdaMin && this.lambdaMax == lambdaMax
    {
      this.body0 := body0;
      this.body1 := body1;
      this.lambdaMin := lambdaMin;
      this.lambdaMax := lambdaMax;
    }
  }

  /** An entry of mConstraintRBMap: the slots of a constraint's two bodies. */
  datatype IndexPair = IndexPair(first: nat, second: nat)

  // ------------------------------------------------------------ sequences

  predicate Distinct<T(==)>(s: seq<T>) {
    forall i, j :: 0 <= i < j < |s| ==> s[i] != s[j]
  }

  /** vector::erase of one position. */
  function RemoveAt<T>(s: seq<T>, i: nat): seq<T>
    requires i < |s|
  {
    s[..i] + s[i + 1..]
  }

  /** The position std::find returns for an element that is present. */
  function IndexOf<T(==)>(s: seq<T>, x: T): (i: nat)
    requires x in s
    ensures i < |s| && s[i] == x
    ensures forall j :: 0 <= j < i ==> s[j] != x
  {
    if s[0] == x then 0 else 1 + IndexOf(s[1..], x)
  }

  /** std::find: the first position holding x, or |s| when there is none. */
  method Find<T(==)>(s: seq<T>, x: T) returns (i: nat)
    ensures i <= |s|
    ensures i == |s| <==> x !in s
    ensures i < |s| ==> i == IndexOf(s, x)
  {
    i := 0;
    while i < |s| && s[i] != x
      invariant i <= |s|
      invariant forall j :: 0 <= j < i ==> s[j] != x
    {
      i := i + 1;
    }
    if i < |s| {
      IndexOfIsFirst(s, x, i);
    }
  }

  lemma IndexOfIsFirst<T>(s: seq<T>, x: T, i: nat)
    requires i < |s| && s[i] == x
    requires forall j :: 0 <= j < i ==> s[j] != x
    ensures IndexOf(s, x) == i
  {
  }

  lemma RemoveAtIndex<T>(s: seq<T>, i: nat, j: nat)
    requires i < |s| && j < |s| - 1
    ensures RemoveAt(s, i)[j] == if j < i then s[j] else s[j + 1]
  {
  }

  lemma RemoveAtMembers<T>(s: seq<T>, i: nat)
    requires i < |s| && Distinct(s)
    ensures Distinct(RemoveAt(s, i))
    ensures forall x :: x in RemoveAt(s, i) <==> x in s && x != s[i]
  {
    var r := RemoveAt(s, i);
    forall a, b | 0 <= a < b < |r|
      ensures r[a] != r[b]
    {
      RemoveAtIndex(s, i, a);
      RemoveAtIndex(s, i, b);
    }
    forall x
      ensures x in r <==> x in s && x != s[i]
    {
      if x in r {
        var a :| 0 <= a < |r| && r[a] == x;
        RemoveAtIndex(s, i, a);
      }
      if x in s && x != s[i] {
        var a :| 0 <= a < |s| && s[a] == x;
        if a < i {
          RemoveAtIndex(s, i, a);
        } else {
          RemoveAtIndex(s, i, a - 1);
        }
      }
    }
  }

  // ------------------------------------------------------------ slots

  predicate Mentions(p: IndexPair, k: nat) {
    p.first == k || p.second == k
  }

  /** How many entries mention slot k, each entry counted once: the `count` that
      tryRemoveRigidBody's predicate increments. */
  function CountMentions(pairs: seq<IndexPair>, k: nat): (n: nat)
    ensures n <= |pairs|
    ensures n == 0 <==> forall j :: 0 <= j < |pairs| ==> !Mentions(pairs[j], k)
  {
    if pairs == [] then 0
    else
      var init := pairs[..|pairs| - 1];
      assert forall j :: 0 <= j < |init| ==> init[j] == pairs[j];
      CountMentions(init, k) + (if Mentions(pairs[|pairs| - 1], k) then 1 else 0)
  }

  lemma {:induction false} CountMentionsPrefix(pairs: seq<IndexPair>, k: nat, i: nat)
    requires i <= |pairs|
    ensures CountMentions(pairs[..i], k) <= CountMentions(pairs, k)
    decreases |pairs|
  {
    if i == |pairs| {
      assert pairs[..i] == pairs;
    } else {
      var init := pairs[..|pairs| - 1];
      assert init[..i] == pairs[..i];
      CountMentionsPrefix(init, k, i);
    }
  }

  /** The slot is used by at most one entry exactly when no entry other than a
      given mentioning one mentions it. */
  lemma {:induction false} SoleUser(pairs: seq<IndexPair>, ci: nat, k: nat)
    requires ci < |pairs| && Mentions(pairs[ci], k)
    ensures CountMentions(pairs, k) <= 1 <==>
      forall j :: 0 <= j < |pairs| && j != ci ==> !Mentions(pairs[j], k)
    decreases |pairs|
  {
    var last := |pairs| - 1;
    var init := pairs[..last];
    assert forall j :: 0 <= j < last ==> init[j] == pairs[j];
    if ci < last {
      SoleUser(init, ci, k);
    }
  }

  function Shift(v: nat, k: nat): nat {
    if v > k then v - 1 else v
  }

  /** The loop of tryRemoveRigidBody after erasing slot k: every stored slot above k
      moves down by one. */
  function ShiftDown(pairs: seq<IndexPair>, k: nat): seq<IndexPair> {
    seq(|pairs|, j requires 0 <= j < |pairs| =>
      IndexPair(Shift(pairs[j].first, k), Shift(pairs[j].second, k)))
  }

  /** After erasing slot k, every other slot still designates the same element. */
  lemma RemoveAtShift<T>(s: seq<T>, k: nat, v: nat)
    requires k < |s| && v < |s| && v != k
    ensures Shift(v, k) < |s| - 1 && RemoveAt(s, k)[Shift(v, k)] == s[v]
  {
    RemoveAtIndex(s, k, Shift(v, k));
  }

  // ------------------------------------------------------------ the invariant

  predicate Uses(c: Constraint, b: RigidBody) {
    c.body0 == b || c.body1 == b
  }

  predicate UsedBy(cs: seq<Constraint>, b: RigidBody) {
    exists j :: 0 <= j < |cs| && Uses(cs[j], b)
  }

  /** The other body of a constraint using rb. */
  function Partner(c: Constraint, rb: RigidBody): RigidBody {
    if c.body0 == rb then c.body1 else c.body0
  }

  /** The bodies sharing a constraint with rb. */
  function Partners(cs: seq<Constraint>, rb: RigidBody): set<RigidBody> {
    set j | 0 <= j < |cs| && Uses(cs[j], rb) :: Partner(cs[j], rb)
  }

  predicate ProperPairs(cs: seq<Constraint>) {
    forall j :: 0 <= j < |cs| ==> cs[j].body0 != cs[j].body1
  }

  /** Entry j of the slot map designates the two bodies of constraint j. */
  predicate EntryOk(bodies: seq<RigidBody>, cs: seq<Constraint>, pairs: seq<IndexPair>, j: nat)
    requires j < |cs| && j < |pairs|
  {
    && pairs[j].first < |bodies| && pairs[j].second < |bodies|
    && bodies[pairs[j].first] == cs[j].body0
    && bodies[pairs[j].second] == cs[j].body1
  }

  /** The slot map is right for every entry except `skip` (-1 for none), no body is
      tracked twice, and every tracked body other than those in `spare` is used. */
  predicate Tracks(bodies: seq<RigidBody>, cs: seq<Constraint>, pairs: seq<IndexPair>,
                   skip: int, spare: set<RigidBody>)
    requires |pairs| == |cs|
  {
    && (forall j :: 0 <= j < |cs| && j != skip ==> EntryOk(bodies, cs, pairs, j))
    && Distinct(bodies)
    && (forall b :: b in bodies ==> b in spare || UsedBy(cs, b))
  }

  /** The manager's invariant on its four vectors: equal lengths, every stored slot
      in range and designating the constraint's body, no duplicate and no unused
      body. */
  predicate Consistent(bodies: seq<RigidBody>, cs: seq<Constraint>, pairs: seq<IndexPair>,
                       lambdas: seq<real>)
  {
    && |pairs| == |cs| && |lambdas| == |cs|
    && ProperPairs(cs)
    && Tracks(bodies, cs, pairs, -1, {})
  }

  /** With a right entry and no duplicates, mentioning a slot and using its body are
      the same thing. */
  lemma MentionsIffUses(bodies: seq<RigidBody>, cs: seq<Constraint>, pairs: seq<IndexPair>,
                        j: nat, k: nat)
    requires j < |cs| && j < |pairs| && k < |bodies|
    requires EntryOk(bodies, cs, pairs, j) && Distinct(bodies)
    ensures Mentions(pairs[j], k) <==> Uses(cs[j], bodies[k])
  {
  }

  /** Erasing slot k and shifting the map keeps every entry that does not mention k
      right. */
  lemma DropUnusedSlot(bodies: seq<RigidBody>, cs: seq<Constraint>, pairs: seq<IndexPair>,
                       skip: int, spare: set<RigidBody>, k: nat)
    requires |pairs| == |cs| && k < |bodies|
    requires Tracks(bodies, cs, pairs, skip, spare)
    requires forall j :: 0 <= j < |pairs| && j != skip ==> !Mentions(pairs[j], k)
    ensures Tracks(RemoveAt(bodies, k), cs, ShiftDown(pairs, k), skip, spare)
  {
    var bodies', pairs' := RemoveAt(bodies, k), ShiftDown(pairs, k);
    forall j | 0 <= j < |cs| && j != skip
      ensures EntryOk(bodies', cs, pairs', j)
    {
      assert EntryOk(bodies, cs, pairs, j);
      RemoveAtShift(bodies, k, pairs[j].first);
      RemoveAtShift(bodies, k, pairs[j].second);
    }
    RemoveAtMembers(bodies, k);
  }

  /** Erasing entry ci of the three parallel vectors keeps the tracking right when
      every still tracked body of the erased constraint has another user. */
  lemma EraseEntry(bodies: seq<RigidBody>, cs: seq<Constraint>, pairs: seq<IndexPair>,
                   ci: nat, spare: set<RigidBody>)
    requires |pairs| == |cs| && ci < |cs|
    requires Tracks(bodies, cs, pairs, ci, spare)
    requires forall b :: b in bodies && Uses(cs[ci], b) ==>
      b in spare || exists j :: 0 <= j < |cs| && j != ci && Uses(cs[j], b)
    ensures Tracks(bodies, RemoveAt(cs, ci), RemoveAt(pairs, ci), -1, spare)
  {
    var cs', pairs' := RemoveAt(cs, ci), RemoveAt(pairs, ci);
    forall j | 0 <= j < |cs'|
      ensures EntryOk(bodies, cs', pairs', j)
    {
      RemoveAtIndex(cs, ci, j);
      RemoveAtIndex(pairs, ci, j);
      if j < ci {
        assert EntryOk(bodies, cs, pairs, j);
      } else {
        assert EntryOk(bodies, cs, pairs, j + 1);
      }
    }
    forall b | b in bodies && b !in spare
      ensures UsedBy(cs', b)
    {
      var j :| 0 <= j < |cs| && (j != ci || !Uses(cs[ci], b)) && Uses(cs[j], b);
      if j < ci {
        RemoveAtIndex(cs, ci, j);
      } else {
        RemoveAtIndex(cs, ci, j - 1);
      }
    }
  }

  /** Erasing a constraint using rb loses at most its partner from rb's partners. */
  lemma PartnersErase(cs: seq<Constraint>, ci: nat, rb: RigidBody)
    requires ci < |cs| && Uses(cs[ci], rb)
    ensures Partners(cs, rb) == Partners(RemoveAt(cs, ci), rb) + {Partner(cs[ci], rb)}
  {
    var cs' := RemoveAt(cs, ci);
    forall x | x in Partners(cs, rb)
      ensures x in Partners(cs', rb) + {Partner(cs[ci], rb)}
    {
      var j :| 0 <= j < |cs| && Uses(cs[j], rb) && Partner(cs[j], rb) == x;
      if j < ci {
        RemoveAtIndex(cs, ci, j);
      } else if j > ci {
        RemoveAtIndex(cs, ci, j - 1);
      }
    }
    forall x | x in Partners(cs', rb)
      ensures x in Partners(cs, rb)
    {
      var j :| 0 <= j < |cs'| && Uses(cs'[j], rb) && Partner(cs'[j], rb) == x;
      RemoveAtIndex(cs, ci, j);
    }
  }

  /** The constraints that survive removeRigidBody(rb), with their lambdas: those
      not using rb, in their order. */
  function Without(cs: seq<Constraint>, lambdas: seq<real>, rb: RigidBody)
    : (r: (seq<Constraint>, seq<real>))
    requires |cs| == |lambdas|
    ensures |r.0| == |r.1| <= |cs|
    ensures forall j :: 0 <= j < |r.0| ==> r.0[j] in cs && !Uses(r.0[j], rb)
    ensures forall j :: 0 <= j < |cs| && !Uses(cs[j], rb) ==> cs[j] in r.0
  {
    if cs == [] then ([], [])
    else
      var rest := Without(cs[1..], lambdas[1..], rb);
      assert forall j :: 1 <= j < |cs| ==> cs[j] == cs[1..][j - 1];
      if Uses(cs[0], rb) then rest else ([cs[0]] + rest.0, [lambdas[0]] + rest.1)
  }

  /** Slot k is marked to be solved (false for a slot past the end). */
  predicate Marked(shouldSolve: seq<bool>, k: nat) {
    k < |shouldSolve| && shouldSolve[k]
  }

  /** std::clamp, whose precondition is lo <= hi. */
  function Clamp(v: real, lo: real, hi: real): (r: real)
    requires lo <= hi
    ensures lo <= r <= hi
    ensures lo <= v <= hi ==> r == v
    ensures v < lo ==> r == lo
    ensures hi < v ==> r == hi
  {
    if v < lo then lo else if hi < v then hi else v
  }

  // ------------------------------------------------------------ the manager

  class ConstraintManager {
    var rigidBodies: seq<RigidBody>
    var constraints: seq<Constraint>
    var rbMap: seq<IndexPair>
    var lambdas: seq<real>
    /** The per-update matrices the solver skeleton uses. */
    var lambdaMinMatrix: seq<real>
    var lambdaMaxMatrix: seq<real>
    var shouldSolve: seq<bool>

    ghost predicate Valid()
      reads this
    {
      Consistent(rigidBodies, constraints, rbMap, lambdas)
    }

    constructor ()
      ensures Valid()
      ensures rigidBodies == [] && constraints == [] && rbMap == [] && lambdas == []
    {
      rigidBodies, constraints, rbMap, lambdas := [], [], [], [];
      lambdaMinMatrix, lambdaMaxMatrix, shouldSolve := [], [], [];
    }

    /** The first half of each iteration of addConstraint's loop: the slot of rb,
        appended when rb is not tracked yet, and rb woken up. */
    method TrackBody(rb: RigidBody) returns (index: nat)
      requires Distinct(rigidBodies)
      modifies this`rigidBodies, this`rbMap, rb`sleeping
      ensures Distinct(rigidBodies)
      ensures rigidBodies == old(rigidBodies) + (if rb in old(rigidBodies) then [] else [rb])
      ensures index < |rigidBodies| && rigidBodies[index] == rb
      ensures !rb.sleeping
      ensures constraints == old(constraints) && rbMap == old(rbMap) && lambdas == old(lambdas)
    {
      index := Find(rigidBodies, rb);
      if index == |rigidBodies| {
        rigidBodies := rigidBodies + [rb];
      }
      rb.sleeping := false;
    }

    /** addConstraint: nothing for null; otherwise both bodies get a slot (reused
        when already tracked), are woken up, and the constraint is appended with its
        slot pair and a zero lambda. */
    method AddConstraint(c: Constraint?)
      requires Valid()
      requires c != null ==> c.body0 != c.body1
      modifies this`rigidBodies, this`constraints, this`rbMap, this`lambdas, (if c == null then {} else {c.body0, c.body1})`sleeping
      ensures Valid()
      ensures c == null ==>
        && rigidBodies == old(rigidBodies) && constraints == old(constraints)
        && rbMap == old(rbMap) && lambdas == old(lambdas)
      ensures c != null ==>
        && constraints == old(constraints) + [c]
        && lambdas == old(lambdas) + [0.0]
        && rigidBodies == old(rigidBodies)
             + (if c.body0 in old(rigidBodies) then [] else [c.body0])
             + (if c.body1 in old(rigidBodies) then [] else [c.body1])
        && rbMap == old(rbMap) + [IndexPair(IndexOf(rigidBodies, c.body0), IndexOf(rigidBodies, c.body1))]
        && !c.body0.sleeping && !c.body1.sleeping
    {
      if c == null {
        return;
      }
      ghost var bodies := rigidBodies;
      var i0 := TrackBody(c.body0);
      var i1 := TrackBody(c.body1);
      assert !c.body0.sleeping;
      constraints := constraints + [c];
      rbMap := rbMap + [IndexPair(i0, i1)];
      lambdas := lambdas + [0.0];
      IndexOfIsFirstDistinct(rigidBodies, i0);
      IndexOfIsFirstDistinct(rigidBodies, i1);
      AppendKeepsConsistent(bodies, rigidBodies, old(constraints), old(rbMap), old(lambdas), c, i0, i1);
    }

    /** tryRemoveRigidBody: slot k is erased, and every stored slot above it shifted
        down, exactly when at most one entry of the slot map mentions k. */
    method TryRemoveRigidBody(k: nat) returns (removed: bool)
      requires k < |rigidBodies|
      modifies this`rigidBodies, this`rbMap
      ensures removed <==> CountMentions(old(rbMap), k) <= 1
      ensures removed ==>
        rigidBodies == RemoveAt(old(rigidBodies), k) && rbMap == ShiftDown(old(rbMap), k)
      ensures !removed ==> rigidBodies == old(rigidBodies) && rbMap == old(rbMap)
      ensures constraints == old(constraints) && lambdas == old(lambdas)
    {
      // std::none_of with a predicate that is true from the second mention on
      var count := 0;
      var none := true;
      var i := 0;
      while i < |rbMap| && none
        invariant i <= |rbMap|
        invariant none ==> count == CountMentions(rbMap[..i], k) <= 1
        invariant !none ==> CountMentions(rbMap[..i], k) >= 2
      {
        assert rbMap[..i + 1][..i] == rbMap[..i];
        if Mentions(rbMap[i], k) {
          if count > 0 {
            none := false;
          }
          count := count + 1;
        }
        i := i + 1;
      }
      if !none {
        CountMentionsPrefix(rbMap, k, i);
      } else {
        assert rbMap[..i] == rbMap;
      }
      if none {
        rigidBodies := rigidBodies[..k] + rigidBodies[k + 1..];
        for j := 0 to |rbMap|
          invariant |rbMap| == |old(rbMap)| && rigidBodies == RemoveAt(old(rigidBodies), k)
          invariant constraints == old(constraints) && lambdas == old(lambdas)
          invariant lambdaMinMatrix == old(lambdaMinMatrix) && lambdaMaxMatrix == old(lambdaMaxMatrix)
          invariant shouldSolve == old(shouldSolve)
          invariant forall t :: 0 <= t < j ==> rbMap[t] == ShiftDown(old(rbMap), k)[t]
          invariant forall t :: j <= t < |rbMap| ==> rbMap[t] == old(rbMap)[t]
        {
          var pair := rbMap[j];
          if pair.first > k { pair := pair.(first := pair.first - 1); }
          if pair.second > k { pair := pair.(second := pair.second - 1); }
          rbMap := rbMap[j := pair];
        }
      }
      removed := none;
    }

    /** The step removeConstraint and removeRigidBody share: slot k is dropped when
        at most one entry mentions it, and its body is woken up otherwise. */
    method ReleaseBody(k: nat) returns (removed: bool)
      requires k < |rigidBodies|
      modifies this`rigidBodies, this`rbMap, {rigidBodies[k]}`sleeping
      ensures removed <==> CountMentions(old(rbMap), k) <= 1
      ensures removed ==>
        && rigidBodies == RemoveAt(old(rigidBodies), k) && rbMap == ShiftDown(old(rbMap), k)
        && old(rigidBodies[k]).sleeping == old(rigidBodies[k].sleeping)
      ensures !removed ==>
        && rigidBodies == old(rigidBodies) && rbMap == old(rbMap)
        && !rigidBodies[k].sleeping
      ensures constraints == old(constraints) && lambdas == old(lambdas)
    {
      removed := TryRemoveRigidBody(k);
      if !removed {
        rigidBodies[k].sleeping := false;
      }
    }

    /** removeConstraint: nothing when c is not registered; otherwise its first
        occurrence is removed. */
    method RemoveConstraint(c: Constraint)
      requires Valid()
      modifies this`rigidBodies, this`constraints, this`rbMap, this`lambdas, c.body0`sleeping, c.body1`sleeping
      ensures Valid()
      ensures c !in old(constraints) ==>
        && rigidBodies == old(rigidBodies) && constraints == old(constraints)
        && rbMap == old(rbMap) && lambdas == old(lambdas)
        && c.body0.sleeping == old(c.body0.sleeping) && c.body1.sleeping == old(c.body1.sleeping)
      ensures c in old(constraints) ==>
        && constraints == RemoveAt(old(constraints), IndexOf(old(constraints), c))
        && lambdas == RemoveAt(old(lambdas), IndexOf(old(constraints), c))
        && (c.body0 in rigidBodies ==> !c.body0.sleeping)
        && (c.body1 in rigidBodies ==> !c.body1.sleeping)
      ensures forall b :: b in rigidBodies <==> b in old(rigidBodies) && UsedBy(constraints, b)
    {
      var ci := Find(constraints, c);
      if ci == |constraints| {
        TrackedAreUsed(rigidBodies, constraints, rbMap, lambdas);
        return;
      }
      RemoveConstraintAt(ci);
    }

    /** removeConstraint once the constraint is found at position ci: each of its
        bodies is dropped when it was the constraint's only user and woken up
        otherwise, then entry ci is erased from the three parallel vectors. */
    method RemoveConstraintAt(ci: nat)
      requires Valid() && ci < |constraints|
      modifies this`rigidBodies, this`constraints, this`rbMap, this`lambdas, {constraints[ci].body0, constraints[ci].body1}`sleeping
      ensures Valid()
      ensures constraints == RemoveAt(old(constraints), ci)
      ensures lambdas == RemoveAt(old(lambdas), ci)
      ensures forall b :: b in rigidBodies <==> b in old(rigidBodies) && UsedBy(constraints, b)
      ensures old(constraints[ci]).body0 in rigidBodies ==> !old(constraints[ci]).body0.sleeping
      ensures old(constraints[ci]).body1 in rigidBodies ==> !old(constraints[ci]).body1.sleeping
    {
      ghost var bodies0, pairs0 := rigidBodies, rbMap;
      assert EntryOk(bodies0, constraints, pairs0, ci);
      var removed0 := ReleaseBody(rbMap[ci].first);
      ghost var bodies1, pairs1 := rigidBodies, rbMap;
      SecondSlot(bodies0, constraints, pairs0, lambdas, ci, removed0, bodies1, pairs1);
      // the range-for reads the pair again, after the first removal shifted it
      var removed1 := ReleaseBody(rbMap[ci].second);
      RemovalConsistent(bodies0, constraints, pairs0, lambdas, ci, removed0, bodies1, pairs1,
                        removed1, rigidBodies, rbMap);
      constraints := RemoveAt(constraints, ci);
      rbMap := RemoveAt(rbMap, ci);
      lambdas := RemoveAt(lambdas, ci);
    }

    /** removeRigidBody: nothing when rb is not tracked; otherwise every constraint
        using rb is removed, each of their other bodies being dropped when it has no
        other user and woken up otherwise, and finally rb's own slot is erased. */
    method RemoveRigidBody(rb: RigidBody)
      requires Valid()
      modifies this`rigidBodies, this`constraints, this`rbMap, this`lambdas, (Partners(constraints, rb))`sleeping
      ensures Valid()
      ensures rb !in old(rigidBodies) ==>
        && rigidBodies == old(rigidBodies) && constraints == old(constraints)
        && rbMap == old(rbMap) && lambdas == old(lambdas)
      ensures rb !in rigidBodies
      ensures constraints == Without(old(constraints), old(lambdas), rb).0
      ensures lambdas == Without(old(constraints), old(lambdas), rb).1
      ensures forall b :: b in rigidBodies <==> b in old(rigidBodies) && b != rb && UsedBy(constraints, b)
      ensures forall b :: b in Partners(old(constraints), rb) ==>
        (b in rigidBodies ==> !b.sleeping) && (b.sleeping ==> old(b.sleeping))
    {
      var iRB := Find(rigidBodies, rb);
      if iRB == |rigidBodies| {
        TrackedAreUsed(rigidBodies, constraints, rbMap, lambdas);
        WithoutUnused(constraints, lambdas, rb);
        return;
      }
      iRB := DetachUsers(rb, iRB);
      DropDetachedBody(rigidBodies, constraints, rbMap, lambdas, iRB);
      var removedSelf := TryRemoveRigidBody(iRB);
      TrackedAreUsed(rigidBodies, constraints, rbMap, lambdas);
    }

    /** The loop of removeRigidBody: every constraint using rb (at slot k) is
        detached in turn; the result is rb's slot afterwards. */
    method DetachUsers(rb: RigidBody, k: nat) returns (k': nat)
      requires Valid() && k < |rigidBodies| && rigidBodies[k] == rb
      modifies this`rigidBodies, this`constraints, this`rbMap, this`lambdas, (Partners(constraints, rb))`sleeping
      ensures Detaching(rigidBodies, constraints, rbMap, lambdas, rb, k', |constraints|)
      ensures constraints == Without(old(constraints), old(lambdas), rb).0
      ensures lambdas == Without(old(constraints), old(lambdas), rb).1
      ensures forall b :: b in rigidBodies ==> b in old(rigidBodies)
      ensures forall b :: b in Partners(old(constraints), rb) ==>
        (b in rigidBodies ==> !b.sleeping) && (b.sleeping ==> old(b.sleeping))
    {
      WithoutStart(constraints, lambdas, rb);
      k' := k;
      var it := 0;
      ghost var partners := Partners(constraints, rb);
      ghost var asleep := map b | b in partners :: b.sleeping;
      ghost var done: set<RigidBody> := {};
      while it < |constraints|
        invariant Detaching(rigidBodies, constraints, rbMap, lambdas, rb, k', it)
        invariant |old(constraints)| == |old(lambdas)|
        invariant FilterProgress(old(constraints), old(lambdas), constraints, lambdas, rb, it)
        invariant partners == done + Partners(constraints, rb)
        invariant forall b :: b in rigidBodies ==> b in old(rigidBodies)
        invariant forall b :: b in done && b in rigidBodies ==> !b.sleeping
        invariant Dozing(partners, asleep)
        invariant partners == Partners(old(constraints), rb)
        decreases |constraints| - it
      {
        assert EntryOk(rigidBodies, constraints, rbMap, it);
        if rbMap[it].first == k' || rbMap[it].second == k' {
          assert Partner(constraints[it], rb) in Partners(constraints, rb);
          k', done := DetachNext(old(constraints), old(lambdas), partners, asleep, done, rb, k', it);
        } else {
          WithoutSkip(old(constraints), old(lambdas), constraints, lambdas, rb, it);
          it := it + 1;
        }
      }
    }

    /** The body of removeRigidBody's loop when the constraint at `it` uses rb (at
        slot k): the constraint is detached, its partner joins the bodies done, and
        the loop's state holds again at the same position. */
    method DetachNext(ghost ocs: seq<Constraint>, ghost ols: seq<real>,
                      ghost partners: set<RigidBody>, ghost asleep: map<RigidBody, bool>,
                      ghost done: set<RigidBody>, rb: RigidBody, k: nat, it: nat)
      returns (k': nat, ghost done': set<RigidBody>)
      requires Detaching(rigidBodies, constraints, rbMap, lambdas, rb, k, it)
      requires it < |constraints| && Mentions(rbMap[it], k)
      requires |ocs| == |ols| && FilterProgress(ocs, ols, constraints, lambdas, rb, it)
      requires partners == done + Partners(constraints, rb)
      requires forall b :: b in done && b in rigidBodies ==> !b.sleeping
      requires Dozing(partners, asleep)
      modifies this`rigidBodies, this`constraints, this`rbMap, this`lambdas
      modifies {Partner(constraints[it], rb)}`sleeping
      ensures Detaching(rigidBodies, constraints, rbMap, lambdas, rb, k', it)
      ensures FilterProgress(ocs, ols, constraints, lambdas, rb, it)
      ensures |constraints| == |old(constraints)| - 1
      ensures partners == done' + Partners(constraints, rb)
      ensures forall b :: b in rigidBodies ==> b in old(rigidBodies)
      ensures forall b :: b in done' && b in rigidBodies ==> !b.sleeping
      ensures Dozing(partners, asleep)
    {
      ghost var cs, ls, bodies := constraints, lambdas, rigidBodies;
      ghost var p := Partner(constraints[it], rb);
      assert EntryOk(rigidBodies, constraints, rbMap, it);
      k' := DetachConstraint(it, k);
      DetachKeepsLoop(rigidBodies, cs, rbMap, ls, rb, k', it);
      DetachKeepsProgress(ocs, ols, cs, ls, rb, it);
      PartnersErase(cs, it, rb);
      done' := done + {p};
    }

    /** One iteration of removeRigidBody's loop for the constraint at ci, which
        mentions slot k of the body being removed: the other body is released and
        the entry erased; the result is rb's slot after the release. */
    method DetachConstraint(ci: nat, k: nat) returns (k': nat)
      requires |rbMap| == |constraints| == |lambdas| && ci < |constraints| && k < |rigidBodies|
      requires ProperPairs(constraints) && Tracks(rigidBodies, constraints, rbMap, -1, {rigidBodies[k]})
      requires Mentions(rbMap[ci], k)
      modifies this`rigidBodies, this`constraints, this`rbMap, this`lambdas, {Partner(constraints[ci], rigidBodies[k])}`sleeping
      ensures |rbMap| == |constraints| == |lambdas|
      ensures constraints == RemoveAt(old(constraints), ci) && lambdas == RemoveAt(old(lambdas), ci)
      ensures ProperPairs(constraints) && Tracks(rigidBodies, constraints, rbMap, -1, {old(rigidBodies[k])})
      ensures k' < |rigidBodies| && rigidBodies[k'] == old(rigidBodies[k])
      ensures forall b :: b in rigidBodies ==> b in old(rigidBodies)
      ensures var p := Partner(old(constraints[ci]), old(rigidBodies[k]));
        (p in rigidBodies ==> !p.sleeping) && (p.sleeping ==> old(p.sleeping))
    {
      ghost var bodies0, pairs0 := rigidBodies, rbMap;
      assert EntryOk(rigidBodies, constraints, rbMap, ci);
      var firstIsRB := rbMap[ci].first == k;
      var partner := if firstIsRB then rbMap[ci].second else rbMap[ci].first;
      var removed := ReleaseBody(partner);
      k' := k;
      if removed {
        // the slot of the body being removed is read again after the shift
        k' := if firstIsRB then rbMap[ci].first else rbMap[ci].second;
      }
      DetachStep(bodies0, constraints, pairs0, lambdas, ci, k, removed, rigidBodies, rbMap);
      constraints := RemoveAt(constraints, ci);
      rbMap := RemoveAt(rbMap, ci);
      lambdas := RemoveAt(lambdas, ci);
    }

    // ---------------------------------------------------------- solver skeleton

    /** updateLambdaBoundsMatrices: the bounds of every constraint, in order. */
    method UpdateLambdaBoundsMatrices()
      modifies this`lambdaMinMatrix, this`lambdaMaxMatrix
      ensures |lambdaMinMatrix| == |constraints| && |lambdaMaxMatrix| == |constraints|
      ensures forall i :: 0 <= i < |constraints| ==>
        lambdaMinMatrix[i] == constraints[i].lambdaMin && lambdaMaxMatrix[i] == constraints[i].lambdaMax
    {
      lambdaMinMatrix, lambdaMaxMatrix := [], [];
      for i := 0 to |constraints|
        invariant |lambdaMinMatrix| == i && |lambdaMaxMatrix| == i
        invariant forall j :: 0 <= j < i ==>
          lambdaMinMatrix[j] == constraints[j].lambdaMin && lambdaMaxMatrix[j] == constraints[j].lambdaMax
      {
        lambdaMinMatrix := lambdaMinMatrix + [constraints[i].lambdaMin];
        lambdaMaxMatrix := lambdaMaxMatrix + [constraints[i].lambdaMax];
      }
    }

    /** updateShouldSolveMatrix: a body is to be solved when it is awake or has
        just been integrated. */
    method UpdateShouldSolveMatrix()
      modifies this`shouldSolve
      ensures |shouldSolve| == |rigidBodies|
      ensures forall k :: 0 <= k < |rigidBodies| ==>
        (shouldSolve[k] <==> !rigidBodies[k].sleeping || rigidBodies[k].integrated)
    {
      shouldSolve := [];
      for k := 0 to |rigidBodies|
        invariant |shouldSolve| == k
        invariant forall j :: 0 <= j < k ==>
          (shouldSolve[j] <==> !rigidBodies[j].sleeping || rigidBodies[j].integrated)
      {
        shouldSolve := shouldSolve + [!rigidBodies[k].sleeping || rigidBodies[k].integrated];
      }
    }

    /** The solver state calculateGaussSeidel works on: slots in range and one
        bound pair, with lo <= hi as std::clamp demands, per constraint. */
    ghost predicate SolverReady()
      reads this
    {
      && Valid() && |shouldSolve| == |rigidBodies|
      && |lambdaMinMatrix| == |constraints| && |lambdaMaxMatrix| == |constraints|
      && forall i :: 0 <= i < |constraints| ==> lambdaMinMatrix[i] <= lambdaMaxMatrix[i]
    }

    /** Constraint i's lambda lies within its bounds. */
    ghost predicate InBounds(i: nat)
      reads this
      requires i < |lambdas| && i < |lambdaMinMatrix| && i < |lambdaMaxMatrix|
    {
      lambdaMinMatrix[i] <= lambdas[i] <= lambdaMaxMatrix[i]
    }

    /** One step of calculateGaussSeidel's inner loop for constraint i: skipped
        when neither body is marked to be solved; otherwise both bodies are marked
        and lambda becomes the clamp of lambda + deltaLambda into its bounds. */
    method SolveConstraint(i: nat, deltaLambda: real)
      requires SolverReady() && i < |constraints|
      requires rbMap[i].first < |shouldSolve| && rbMap[i].second < |shouldSolve|
      modifies this`lambdas, this`shouldSolve
      ensures SolverReady()
      ensures var a, b := rbMap[i].first, rbMap[i].second;
        if !old(shouldSolve[a]) && !old(shouldSolve[b]) then
          lambdas == old(lambdas) && shouldSolve == old(shouldSolve)
        else
          && shouldSolve == old(shouldSolve)[a := true][b := true]
          && lambdas == old(lambdas)[i := Clamp(old(lambdas[i]) + deltaLambda,
                                                lambdaMinMatrix[i], lambdaMaxMatrix[i])]
    {
      assert EntryOk(rigidBodies, constraints, rbMap, i);
      var a, b := rbMap[i].first, rbMap[i].second;
      if !shouldSolve[a] && !shouldSolve[b] {
        return;
      }
      shouldSolve := shouldSolve[a := true];
      shouldSolve := shouldSolve[b := true];
      var oldLambda := lambdas[i];
      lambdas := lambdas[i := Clamp(oldLambda + deltaLambda, lambdaMinMatrix[i], lambdaMaxMatrix[i])];
    }

    /** The index and flag skeleton of calculateGaussSeidel: `iterations` sweeps over
        the constraints, deltaLambda(iteration, i) standing for the impulse change
        computed from the solver's matrices. Every lambda ends either unchanged or
        within its bounds, marks are never cleared, a changed lambda has both its
        bodies marked, and with at least one sweep every constraint with a body
        marked at the start ends within its bounds. */
    method CalculateGaussSeidel(iterations: nat, deltaLambda: (nat, nat) -> real)
      requires SolverReady()
      modifies this`lambdas, this`shouldSolve
      ensures SolverReady()
      ensures forall i :: 0 <= i < |constraints| ==> lambdas[i] == old(lambdas[i]) || InBounds(i)
      ensures forall k :: 0 <= k < |shouldSolve| && old(shouldSolve[k]) ==> shouldSolve[k]
      ensures forall i :: 0 <= i < |constraints| && lambdas[i] != old(lambdas[i]) ==>
        Marked(shouldSolve, rbMap[i].first) && Marked(shouldSolve, rbMap[i].second)
      ensures iterations > 0 ==>
        forall i :: 0 <= i < |constraints| && (Marked(old(shouldSolve), rbMap[i].first) || Marked(old(shouldSolve), rbMap[i].second))
          ==> InBounds(i)
    {
      ghost var lambdas0, marks0 := lambdas, shouldSolve;
      for iteration := 0 to iterations
        invariant Settled(lambdas0, marks0)
        invariant iteration > 0 ==> Swept(marks0)
      {
        Sweep(lambdas0, marks0, iteration, deltaLambda);
      }
    }

    /** Since the solver started from lambdas0 and marks0: every lambda is unchanged
        or within its bounds, no mark was cleared, and a changed lambda has both its
        bodies marked. */
    ghost predicate Settled(lambdas0: seq<real>, marks0: seq<bool>)
      reads this
    {
      && SolverReady() && |lambdas0| == |constraints| && |marks0| == |shouldSolve|
      && (forall j :: 0 <= j < |constraints| ==> lambdas[j] == lambdas0[j] || InBounds(j))
      && (forall k :: 0 <= k < |shouldSolve| && marks0[k] ==> shouldSolve[k])
      && (forall j :: 0 <= j < |constraints| && lambdas[j] != lambdas0[j] ==>
            Marked(shouldSolve, rbMap[j].first) && Marked(shouldSolve, rbMap[j].second))
    }

    /** Every constraint with a body in marks0 has its lambda within its bounds. */
    ghost predicate Swept(marks0: seq<bool>)
      reads this
      requires SolverReady()
    {
      forall j :: 0 <= j < |constraints| && (Marked(marks0, rbMap[j].first) || Marked(marks0, rbMap[j].second)) ==>
        InBounds(j)
    }

    /** One sweep of calculateGaussSeidel over the constraints, in order. */
    method Sweep(ghost lambdas0: seq<real>, ghost marks0: seq<bool>, iteration: nat,
                 deltaLambda: (nat, nat) -> real)
      requires Settled(lambdas0, marks0)
      modifies this`lambdas, this`shouldSolve
      ensures Settled(lambdas0, marks0) && Swept(marks0)
    {
      for i := 0 to |constraints|
        invariant Settled(lambdas0, marks0)
        invariant forall j :: 0 <= j < i && (Marked(marks0, rbMap[j].first) || Marked(marks0, rbMap[j].second)) ==>
          InBounds(j)
      {
        assert EntryOk(rigidBodies, constraints, rbMap, i);
        SolveConstraint(i, deltaLambda(iteration, i));
      }
    }

    /** The flag part of updateRigidBodies: every body marked to be solved is
        flagged ConstraintsSolved and woken up; the others are left alone. */
    method UpdateRigidBodies()
      requires Valid() && |shouldSolve| == |rigidBodies|
      modifies rigidBodies
      ensures forall k :: 0 <= k < |rigidBodies| && shouldSolve[k] ==>
        rigidBodies[k].constraintsSolved && !rigidBodies[k].sleeping
      ensures forall k :: 0 <= k < |rigidBodies| && !shouldSolve[k] ==>
        && rigidBodies[k].constraintsSolved == old(rigidBodies[k].constraintsSolved)
        && rigidBodies[k].sleeping == old(rigidBodies[k].sleeping)
      ensures forall k :: 0 <= k < |rigidBodies| ==> rigidBodies[k].integrated == old(rigidBodies[k].integrated)
    {
      for k := 0 to |rigidBodies|
        invariant forall j :: 0 <= j < k && shouldSolve[j] ==>
          rigidBodies[j].constraintsSolved && !rigidBodies[j].sleeping
        invariant forall j :: k <= j < |rigidBodies| || (0 <= j < k && !shouldSolve[j]) ==>
          && rigidBodies[j].constraintsSolved == old(rigidBodies[j].constraintsSolved)
          && rigidBodies[j].sleeping == old(rigidBodies[j].sleeping)
        invariant forall j :: 0 <= j < |rigidBodies| ==> rigidBodies[j].integrated == old(rigidBodies[j].integrated)
      {
        if shouldSolve[k] {
          rigidBodies[k].constraintsSolved := true;
          rigidBodies[k].sleeping := false;
        }
      }
    }
  }

  lemma IndexOfIsFirstDistinct<T>(s: seq<T>, i: nat)
    requires i < |s| && Distinct(s)
    ensures IndexOf(s, s[i]) == i
  {
    IndexOfIsFirst(s, s[i], i);
  }

  lemma AppendKeepsConsistent(old0: seq<RigidBody>, bodies: seq<RigidBody>, cs: seq<Constraint>,
                              pairs: seq<IndexPair>, lambdas: seq<real>, c: Constraint, i0: nat, i1: nat)
    requires Consistent(old0, cs, pairs, lambdas)
    requires Distinct(bodies) && |old0| <= |bodies| && bodies[..|old0|] == old0
    requires forall b :: b in bodies ==> b in old0 || Uses(c, b)
    requires i0 < |bodies| && i1 < |bodies| && bodies[i0] == c.body0 && bodies[i1] == c.body1
    requires c.body0 != c.body1
    ensures Consistent(bodies, cs + [c], pairs + [IndexPair(i0, i1)], lambdas + [0.0])
  {
    var cs', pairs' := cs + [c], pairs + [IndexPair(i0, i1)];
    forall j | 0 <= j < |cs'|
      ensures EntryOk(bodies, cs', pairs', j)
    {
      if j < |cs| {
        assert EntryOk(old0, cs, pairs, j);
        assert bodies[pairs[j].first] == old0[pairs[j].first];
        assert bodies[pairs[j].second] == old0[pairs[j].second];
      }
    }
    forall b | b in bodies
      ensures UsedBy(cs', b)
    {
      if b in old0 {
        var j :| 0 <= j < |cs| && Uses(cs[j], b);
        assert cs'[j] == cs[j];
      } else {
        assert Uses(cs'[|cs|], b);
      }
    }
  }

  /** Whether slot k, mentioned by entry ci, has a user other than constraint ci. */
  lemma SlotUsers(bodies: seq<RigidBody>, cs: seq<Constraint>, pairs: seq<IndexPair>,
                  ci: nat, skip: int, spare: set<RigidBody>, k: nat)
    requires |pairs| == |cs| && ci < |cs| && k < |bodies| && Mentions(pairs[ci], k)
    requires Tracks(bodies, cs, pairs, skip, spare) && (skip == ci || skip == -1)
    ensures CountMentions(pairs, k) <= 1 ==>
      forall j :: 0 <= j < |pairs| && j != ci ==> !Mentions(pairs[j], k)
    ensures CountMentions(pairs, k) > 1 ==>
      exists j :: 0 <= j < |cs| && j != ci && Uses(cs[j], bodies[k])
  {
    SoleUser(pairs, ci, k);
    if CountMentions(pairs, k) > 1 {
      var j :| 0 <= j < |pairs| && j != ci && Mentions(pairs[j], k);
      assert EntryOk(bodies, cs, pairs, j);
    }
  }

  /** Under the invariant, the tracked bodies are exactly the used ones. */
  lemma TrackedAreUsed(bodies: seq<RigidBody>, cs: seq<Constraint>, pairs: seq<IndexPair>,
                       lambdas: seq<real>)
    requires Consistent(bodies, cs, pairs, lambdas)
    ensures forall b :: b in bodies <==> UsedBy(cs, b)
  {
    forall b | UsedBy(cs, b)
      ensures b in bodies
    {
      var j :| 0 <= j < |cs| && Uses(cs[j], b);
      assert EntryOk(bodies, cs, pairs, j);
    }
  }

  /** The first body of removeConstraint's entry ci is released: afterwards the
      entry's second slot still designates the second body, and the first body is
      still tracked exactly when another constraint uses it. */
  lemma ReleaseFirst(bodies: seq<RigidBody>, cs: seq<Constraint>, pairs: seq<IndexPair>,
                     lambdas: seq<real>, ci: nat, removed: bool,
                     bodies': seq<RigidBody>, pairs': seq<IndexPair>)
    requires Consistent(bodies, cs, pairs, lambdas) && ci < |cs|
    requires pairs[ci].first < |bodies|
    requires removed <==> CountMentions(pairs, pairs[ci].first) <= 1
    requires removed ==>
      bodies' == RemoveAt(bodies, pairs[ci].first) && pairs' == ShiftDown(pairs, pairs[ci].first)
    requires !removed ==> bodies' == bodies && pairs' == pairs
    ensures |pairs'| == |cs| && Tracks(bodies', cs, pairs', ci, {})
    ensures pairs'[ci].second < |bodies'| && bodies'[pairs'[ci].second] == cs[ci].body1
    ensures forall b :: b in bodies' <==> b in bodies && (b != cs[ci].body0 || !removed)
    ensures cs[ci].body0 in bodies' ==> exists j :: 0 <= j < |cs| && j != ci && Uses(cs[j], cs[ci].body0)
  {
    var k := pairs[ci].first;
    assert EntryOk(bodies, cs, pairs, ci);
    SlotUsers(bodies, cs, pairs, ci, -1, {}, k);
    assert Tracks(bodies, cs, pairs, ci, {});
    if removed {
      DropUnusedSlot(bodies, cs, pairs, ci, {}, k);
      RemoveAtShift(bodies, k, pairs[ci].second);
      RemoveAtMembers(bodies, k);
    }
  }

  /** The second body is released and entry ci erased: the invariant holds again,
      and the second body is still tracked exactly when it was not dropped. */
  lemma ReleaseSecond(bodies: seq<RigidBody>, cs: seq<Constraint>, pairs: seq<IndexPair>,
                      lambdas: seq<real>, ci: nat, removed: bool,
                      bodies': seq<RigidBody>, pairs': seq<IndexPair>)
    requires |pairs| == |cs| == |lambdas| && ci < |cs| && ProperPairs(cs)
    requires Tracks(bodies, cs, pairs, ci, {})
    requires pairs[ci].second < |bodies| && bodies[pairs[ci].second] == cs[ci].body1
    requires cs[ci].body0 in bodies ==> exists j :: 0 <= j < |cs| && j != ci && Uses(cs[j], cs[ci].body0)
    requires removed <==> CountMentions(pairs, pairs[ci].second) <= 1
    requires removed ==>
      bodies' == RemoveAt(bodies, pairs[ci].second) && pairs' == ShiftDown(pairs, pairs[ci].second)
    requires !removed ==> bodies' == bodies && pairs' == pairs
    ensures Consistent(bodies', RemoveAt(cs, ci), RemoveAt(pairs', ci), RemoveAt(lambdas, ci))
    ensures forall b :: b in bodies' <==> b in bodies && (b != cs[ci].body1 || !removed)
  {
    var k := pairs[ci].second;
    SlotUsers(bodies, cs, pairs, ci, ci, {}, k);
    if removed {
      DropUnusedSlot(bodies, cs, pairs, ci, {}, k);
      RemoveAtMembers(bodies, k);
    }
    EraseEntry(bodies', cs, pairs', ci, {});
    var cs' := RemoveAt(cs, ci);
    forall j | 0 <= j < |cs'|
      ensures cs'[j].body0 != cs'[j].body1
    {
      RemoveAtIndex(cs, ci, j);
    }
  }

  /** After the first release, entry ci's second slot still designates its second
      body. */
  lemma SecondSlot(bodies: seq<RigidBody>, cs: seq<Constraint>, pairs: seq<IndexPair>,
                   lambdas: seq<real>, ci: nat, removed: bool,
                   bodies': seq<RigidBody>, pairs': seq<IndexPair>)
    requires Consistent(bodies, cs, pairs, lambdas) && ci < |cs|
    requires pairs[ci].first < |bodies|
    requires removed <==> CountMentions(pairs, pairs[ci].first) <= 1
    requires removed ==>
      bodies' == RemoveAt(bodies, pairs[ci].first) && pairs' == ShiftDown(pairs, pairs[ci].first)
    requires !removed ==> bodies' == bodies && pairs' == pairs
    ensures ci < |pairs'| && pairs'[ci].second < |bodies'| && bodies'[pairs'[ci].second] == cs[ci].body1
  {
    ReleaseFirst(bodies, cs, pairs, lambdas, ci, removed, bodies', pairs');
  }

  /** removeConstraint's two releases and the erase of entry ci restore the
      invariant; each body of the constraint stays tracked exactly when it was not
      released, and the tracked bodies are the old ones still used. */
  lemma RemovalConsistent(bodies0: seq<RigidBody>, cs: seq<Constraint>, pairs0: seq<IndexPair>,
                          lambdas: seq<real>, ci: nat, removed0: bool,
                          bodies1: seq<RigidBody>, pairs1: seq<IndexPair>, removed1: bool,
                          bodies2: seq<RigidBody>, pairs2: seq<IndexPair>)
    requires Consistent(bodies0, cs, pairs0, lambdas) && ci < |cs|
    requires pairs0[ci].first < |bodies0|
    requires removed0 <==> CountMentions(pairs0, pairs0[ci].first) <= 1
    requires removed0 ==>
      bodies1 == RemoveAt(bodies0, pairs0[ci].first) && pairs1 == ShiftDown(pairs0, pairs0[ci].first)
    requires !removed0 ==> bodies1 == bodies0 && pairs1 == pairs0
    requires ci < |pairs1| && pairs1[ci].second < |bodies1|
    requires removed1 <==> CountMentions(pairs1, pairs1[ci].second) <= 1
    requires removed1 ==>
      bodies2 == RemoveAt(bodies1, pairs1[ci].second) && pairs2 == ShiftDown(pairs1, pairs1[ci].second)
    requires !removed1 ==> bodies2 == bodies1 && pairs2 == pairs1
    ensures |pairs2| == |cs|
    ensures Consistent(bodies2, RemoveAt(cs, ci), RemoveAt(pairs2, ci), RemoveAt(lambdas, ci))
    ensures forall b :: b in bodies2 <==> b in bodies0 && UsedBy(RemoveAt(cs, ci), b)
    ensures cs[ci].body0 in bodies2 <==> !removed0
    ensures cs[ci].body1 in bodies2 <==> !removed1
  {
    var c := cs[ci];
    assert c.body0 != c.body1 && EntryOk(bodies0, cs, pairs0, ci);
    assert c.body0 in bodies0 && c.body1 in bodies0;
    ReleaseFirst(bodies0, cs, pairs0, lambdas, ci, removed0, bodies1, pairs1);
    assert c.body1 in bodies1 && (c.body0 in bodies1 <==> !removed0);
    ReleaseSecond(bodies1, cs, pairs1, lambdas, ci, removed1, bodies2, pairs2);
    TrackedAreUsed(bodies2, RemoveAt(cs, ci), RemoveAt(pairs2, ci), RemoveAt(lambdas, ci));
  }

  /** The other slot of an entry mentioning k. */
  function OtherSlot(p: IndexPair, k: nat): nat {
    if p.first == k then p.second else p.first
  }

  /** No body of S is asleep unless it was when `asleep` was recorded. */
  predicate Dozing(S: set<RigidBody>, asleep: map<RigidBody, bool>)
    reads S
  {
    forall b :: b in S ==> b in asleep && (b.sleeping ==> asleep[b])
  }

  /** The state removeRigidBody's loop keeps: the invariant, except that rb (at
      slot k) may have lost its last user, and no constraint before `it` uses rb. */
  predicate Detaching(bodies: seq<RigidBody>, cs: seq<Constraint>, pairs: seq<IndexPair>,
                      lambdas: seq<real>, rb: RigidBody, k: nat, it: nat)
  {
    && |pairs| == |cs| && |lambdas| == |cs| && it <= |cs|
    && ProperPairs(cs) && Tracks(bodies, cs, pairs, -1, {rb})
    && k < |bodies| && bodies[k] == rb
    && forall j :: 0 <= j < it <= |cs| ==> !Uses(cs[j], rb)
  }

  /** Erasing entry it, which uses rb, keeps the loop state of removeRigidBody once
      the tracking has been restored for the remaining entries. */
  lemma DetachKeepsLoop(bodies: seq<RigidBody>, cs: seq<Constraint>, pairs: seq<IndexPair>,
                        lambdas: seq<real>, rb: RigidBody, k: nat, it: nat)
    requires it < |cs| && |lambdas| == |cs| && |pairs| == |cs| - 1
    requires forall j :: 0 <= j < it ==> !Uses(cs[j], rb)
    requires ProperPairs(RemoveAt(cs, it)) && Tracks(bodies, RemoveAt(cs, it), pairs, -1, {rb})
    requires k < |bodies| && bodies[k] == rb
    ensures Detaching(bodies, RemoveAt(cs, it), pairs, RemoveAt(lambdas, it), rb, k, it)
  {
    forall j | 0 <= j < it
      ensures !Uses(RemoveAt(cs, it)[j], rb)
    {
      RemoveAtIndex(cs, it, j);
    }
  }

  /** The constraints kept so far, followed by those the rest would keep, are what
      removeRigidBody keeps of the original constraints. */
  predicate FilterProgress(ocs: seq<Constraint>, ols: seq<real>, cs: seq<Constraint>,
                           lambdas: seq<real>, rb: RigidBody, it: nat)
    requires |ocs| == |ols|
  {
    && |cs| == |lambdas| && it <= |cs|
    && var rest := Without(cs[it..], lambdas[it..], rb);
       Without(ocs, ols, rb) == (cs[..it] + rest.0, lambdas[..it] + rest.1)
  }

  lemma {:induction false} WithoutUnused(cs: seq<Constraint>, lambdas: seq<real>, rb: RigidBody)
    requires |cs| == |lambdas|
    requires forall j :: 0 <= j < |cs| ==> !Uses(cs[j], rb)
    ensures Without(cs, lambdas, rb) == (cs, lambdas)
  {
    if cs != [] {
      WithoutUnused(cs[1..], lambdas[1..], rb);
      assert [cs[0]] + cs[1..] == cs;
      assert [lambdas[0]] + lambdas[1..] == lambdas;
    }
  }

  lemma WithoutStart(cs: seq<Constraint>, lambdas: seq<real>, rb: RigidBody)
    requires |cs| == |lambdas|
    ensures FilterProgress(cs, lambdas, cs, lambdas, rb, 0)
  {
    assert cs[0..] == cs && lambdas[0..] == lambdas;
    var w := Without(cs, lambdas, rb);
    assert cs[..0] + w.0 == w.0 && lambdas[..0] + w.1 == w.1;
  }

  lemma WithoutSkip(ocs: seq<Constraint>, ols: seq<real>, cs: seq<Constraint>, lambdas: seq<real>,
                    rb: RigidBody, it: nat)
    requires |ocs| == |ols| && it < |cs|
    requires FilterProgress(ocs, ols, cs, lambdas, rb, it) && !Uses(cs[it], rb)
    ensures FilterProgress(ocs, ols, cs, lambdas, rb, it + 1)
  {
    assert cs[it..][1..] == cs[it + 1..] && lambdas[it..][1..] == lambdas[it + 1..];
    var rest := Without(cs[it + 1..], lambdas[it + 1..], rb);
    assert Without(cs[it..], lambdas[it..], rb) == ([cs[it]] + rest.0, [lambdas[it]] + rest.1);
    PrefixStep(cs, it, rest.0);
    PrefixStep(lambdas, it, rest.1);
  }

  /** Moving the element at `it` from the front of the rest to the end of the prefix. */
  lemma PrefixStep<T>(s: seq<T>, it: nat, rest: seq<T>)
    requires it < |s|
    ensures s[..it] + ([s[it]] + rest) == s[..it + 1] + rest
  {
    assert s[..it + 1] == s[..it] + [s[it]];
  }

  lemma DetachKeepsProgress(ocs: seq<Constraint>, ols: seq<real>, cs: seq<Constraint>,
                            lambdas: seq<real>, rb: RigidBody, it: nat)
    requires |ocs| == |ols| && it < |cs|
    requires FilterProgress(ocs, ols, cs, lambdas, rb, it) && Uses(cs[it], rb)
    ensures FilterProgress(ocs, ols, RemoveAt(cs, it), RemoveAt(lambdas, it), rb, it)
  {
    var cs', ls' := RemoveAt(cs, it), RemoveAt(lambdas, it);
    assert cs'[..it] == cs[..it] && ls'[..it] == lambdas[..it];
    assert cs'[it..] == cs[it..][1..] && ls'[it..] == lambdas[it..][1..];
  }

  /** One iteration of removeRigidBody's loop on the vectors: afterwards rb is still
      at the (re-read) slot, the tracking is right again for the remaining entries,
      and the partner is still tracked exactly when it was not released. */
  lemma DetachStep(bodies: seq<RigidBody>, cs: seq<Constraint>, pairs: seq<IndexPair>,
                   lambdas: seq<real>, ci: nat, k: nat, removed: bool,
                   bodies': seq<RigidBody>, pairs': seq<IndexPair>)
    requires |pairs| == |cs| == |lambdas| && ci < |cs| && k < |bodies|
    requires ProperPairs(cs) && Tracks(bodies, cs, pairs, -1, {bodies[k]})
    requires Mentions(pairs[ci], k)
    requires removed <==> CountMentions(pairs, OtherSlot(pairs[ci], k)) <= 1
    requires OtherSlot(pairs[ci], k) < |bodies|
    requires removed ==>
      && bodies' == RemoveAt(bodies, OtherSlot(pairs[ci], k))
      && pairs' == ShiftDown(pairs, OtherSlot(pairs[ci], k))
    requires !removed ==> bodies' == bodies && pairs' == pairs
    ensures |pairs'| == |cs|
    ensures bodies[OtherSlot(pairs[ci], k)] == Partner(cs[ci], bodies[k])
    ensures var k' := if !removed then k else if pairs[ci].first == k then pairs'[ci].first else pairs'[ci].second;
      k' < |bodies'| && bodies'[k'] == bodies[k]
    ensures ProperPairs(RemoveAt(cs, ci))
    ensures Tracks(bodies', RemoveAt(cs, ci), RemoveAt(pairs', ci), -1, {bodies[k]})
    ensures forall b :: b in bodies' <==> b in bodies && (b != Partner(cs[ci], bodies[k]) || !removed)
  {
    var rb, kp := bodies[k], OtherSlot(pairs[ci], k);
    assert EntryOk(bodies, cs, pairs, ci);
    assert Tracks(bodies, cs, pairs, ci, {rb});
    SlotUsers(bodies, cs, pairs, ci, -1, {rb}, kp);
    if removed {
      DropUnusedSlot(bodies, cs, pairs, ci, {rb}, kp);
      RemoveAtShift(bodies, kp, k);
      RemoveAtMembers(bodies, kp);
    }
    EraseEntry(bodies', cs, pairs', ci, {rb});
    var cs' := RemoveAt(cs, ci);
    forall j | 0 <= j < |cs'|
      ensures cs'[j].body0 != cs'[j].body1
    {
      RemoveAtIndex(cs, ci, j);
    }
  }

  /** After the loop no constraint uses rb: its slot is mentioned by no entry, and
      erasing it restores the invariant. */
  lemma DropDetachedBody(bodies: seq<RigidBody>, cs: seq<Constraint>, pairs: seq<IndexPair>,
                         lambdas: seq<real>, k: nat)
    requires |pairs| == |cs| == |lambdas| && k < |bodies|
    requires ProperPairs(cs) && Tracks(bodies, cs, pairs, -1, {bodies[k]})
    requires forall j :: 0 <= j < |cs| ==> !Uses(cs[j], bodies[k])
    ensures CountMentions(pairs, k) == 0
    ensures Consistent(RemoveAt(bodies, k), cs, ShiftDown(pairs, k), lambdas)
    ensures forall b :: b in RemoveAt(bodies, k) <==> b in bodies && b != bodies[k]
  {
    forall j | 0 <= j < |pairs|
      ensures !Mentions(pairs[j], k)
    {
      assert EntryOk(bodies, cs, pairs, j);
    }
    DropUnusedSlot(bodies, cs, pairs, -1, {bodies[k]}, k);
    RemoveAtMembers(bodies, k);
  }
}
