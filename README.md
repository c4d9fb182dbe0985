# Sombra / Faze engine core in Dafny

This project models the discrete core of the sombra-engine / faze-engine game
engine, the part of its physics, collision, rendering and loading code whose state
has to stay consistent from frame to frame, and proves properties of that model:

- **ConstraintManager** (sombra): four parallel vectors (tracked rigid bodies,
  constraints, each constraint's pair of body slots, each constraint's lambda). The
  body list holds each body once. Removing a body shifts every stored slot above it.
  The Gauss-Seidel pass skips a constraint when neither body is to be solved and
  otherwise clamps its lambda into its bounds.
- **FineCollisionDetector** over **Manifold** and **FixedVector** (sombra-engine):
  - the manifold state bits (Intersecting, Updated);
  - pruning of drifted contacts by swap-and-pop;
  - the `isClose` test;
  - the 4-of-5 contact selection;
  - the dispatch of `collide` into the convex, convex-concave and concave paths.

  GJK and EPA are oracles whose outcomes are inputs.
- **FixedVector<T, N>**: the fixed-capacity in-place container, as a class over an
  array with its element-shifting `insert` and `erase`.
- **ConstraintsSystem**: keeps three constraints (one normal, two friction) per
  live contact of every intersecting manifold, in a map keyed by manifold, and
  registers them with and removes them from the manager.
- **CoarseCollisionDetector** and **CollisionWorld**: quadratic pairing of
  overlapping AABBs into a set, the collider list, and the manifold map looked up
  with the pair in either order.
- **EPA** (faze-engine EPACollisionDetector, Edge) and **Polytope** (sombra-engine):
  - closest-face selection;
  - hole edges by toggling under `Edge::operator==`;
  - re-triangulation with one face per hole edge;
  - the initial tetrahedron's winding choice;
  - the face-normal / face-distance caches;
  - the barycentric interpolation.
- **TerrainCollider**: the y-interval test, the AABB of the transformed grid, the
  clamped cell range and its triangle enumeration.
- **NormalConstraint**, **BoundingBox::verticesFromLengths** and **utils::ipow**:
  small pure geometry.
- **RendererTerrain**: the quadtree walk that submits every leaf to exactly one of
  nine patches, and the patches' instance lists.
- **Layer3D** and **InputManager**: registries that ignore null, and the keyboard
  movement rule.
- **GLTFReader**, validated against the glTF 2.0 specification:
  - the code-to-enum tables (accessor component types and element types, sampler
    filters and wrap modes, mesh attributes, alpha modes);
  - the validation of the asset's "major.minor" version string;
  - the index-range checks of buffer views, accessors, samplers, nodes and scenes,
    over a JSON document modelled as records of optional fields.

Floating-point values are `real`. Lengths and the geometric helpers that have no
body in the source (`glm::length`, `getClosestPointInEdge`,
`getClosestPointInPlane`, the half-edge mesh) are function-valued parameters.
Raw C++ addresses are modelled as object references or as opaque ids, as each file needs.

## Model

| member | source | states |
|---|---|---|
| MathUtils.IPow | sombra-engine/include/se/utils/MathUtils.h:11-18 | definition: 1 for exponent 0, otherwise base times the power one lower, as the recursion of ipow; its properties are the lemmas below |
| MathUtils.IPowOfOne | sombra-engine/include/se/utils/MathUtils.h:16-18 | ipow(1, e) = 1 for every exponent |
| MathUtils.IPowAdd | sombra-engine/include/se/utils/MathUtils.h:11-18 | "base raised to the exponent power": ipow(b, m + n) = ipow(b, m) * ipow(b, n) |
| MathUtils.IPowMul | sombra-engine/include/se/utils/MathUtils.h:11-18 | ipow(ipow(b, m), n) = ipow(b, m * n) |
| MathUtils.IPowSign | sombra-engine/include/se/utils/MathUtils.h:16-18 | a positive base gives a positive power; zero to a positive power is zero |
| FixedVectors.FixedVector.constructor | sombra-engine/include/se/utils/FixedVector.h:38-44 | FixedVector(numElements) has size numElements when that fits the capacity, and size 0 otherwise |
| FixedVectors.FixedVector.FromList | sombra-engine/include/se/utils/FixedVector.hpp:6-17 | the initializer-list constructor keeps the first min(N, list size) elements, in order |
| FixedVectors.FixedVector.Size | sombra-engine/include/se/utils/FixedVector.h:109-114 | size() is the number of stored elements and never exceeds the capacity |
| FixedVectors.FixedVector.Begin | sombra-engine/include/se/utils/FixedVector.h:84-88 | begin() is slot 0 |
| FixedVectors.FixedVector.End | sombra-engine/include/se/utils/FixedVector.h:90-94 | [begin(), end()) spans exactly the stored elements |
| FixedVectors.FixedVector.Empty | sombra-engine/include/se/utils/FixedVector.h:116-118 | empty() iff there is no element |
| FixedVectors.FixedVector.Full | sombra-engine/include/se/utils/FixedVector.h:120-122 | full() iff size() equals the capacity N |
| FixedVectors.FixedVector.Front | sombra-engine/include/se/utils/FixedVector.h:124-130 | front() is the first element, and needs a non-empty vector |
| FixedVectors.FixedVector.Back | sombra-engine/include/se/utils/FixedVector.h:132-138 | back() is the last element, and needs a non-empty vector |
| FixedVectors.FixedVector.Get | sombra-engine/include/se/utils/FixedVector.h:52-62 | operator[] reads any slot of the storage; below size() it is the i-th element |
| FixedVectors.FixedVector.Set | sombra-engine/include/se/utils/FixedVector.h:52-56 | writing through operator[] at any index below the capacity replaces exactly slot i of the storage; the visible elements change only when i is below the size |
| FixedVectors.FixedVector.Clear | sombra-engine/include/se/utils/FixedVector.hpp:59-63 | clear() leaves no element |
| FixedVectors.FixedVector.Resize | sombra-engine/include/se/utils/FixedVector.hpp:66-72 | resize(n) sets the size to n when n <= N and has no effect otherwise |
| FixedVectors.FixedVector.EmplaceBack | sombra-engine/include/se/utils/FixedVector.hpp:82-90 | needs !full(); appends the element at index old size() and returns that index |
| FixedVectors.FixedVector.PushBack | sombra-engine/include/se/utils/FixedVector.hpp:75-79 | needs !full(); appends a copy of the element |
| FixedVectors.FixedVector.PopBack | sombra-engine/include/se/utils/FixedVector.hpp:93-98 | needs !empty(); drops the last element and keeps the others |
| FixedVectors.FixedVector.Insert | sombra-engine/include/se/utils/FixedVector.hpp:101-113 | needs a vector that is neither empty nor full and pos strictly before end(); the value lands at pos, [pos, old end) moves one slot right, earlier elements stay |
| FixedVectors.FixedVector.Emplace | sombra-engine/include/se/utils/FixedVector.hpp:116-121 | emplace is insert of the new element, with the same result |
| FixedVectors.FixedVector.Erase | sombra-engine/include/se/utils/FixedVector.hpp:124-137 | erase(pos) before end() removes element pos and shifts the later ones left; erase(end()) changes nothing; returns pos |
| FixedVectors.Equal | sombra-engine/include/se/utils/FixedVector.hpp:31-49 | operator== is true iff the sizes match and the elements match position by position |
| FixedVectors.NotEqual | sombra-engine/include/se/utils/FixedVector.hpp:52-56 | operator!= is the negation of operator== |
| Manifolds.NewManifold | sombra-engine/include/se/collision/Manifold.h:30-46 | a new manifold keeps its colliders in the given order, has no contacts and has neither state bit set |
| SeqUtils.RemoveAll | sombra-engine/src/se/graphics/3D/Layer3D.cpp:16-19 | the erase-remove idiom leaves no occurrence of the item and never grows the list |
| SeqUtils.RemoveAllConcat | sombra-engine/src/se/graphics/3D/Layer3D.cpp:16-19 | erase-remove works piecewise, so the survivors keep their order |
| SeqUtils.RemoveAllCounts | sombra-engine/src/se/graphics/3D/Layer3D.cpp:16-19 | every other item keeps its number of occurrences |
| SeqUtils.RemoveAllAbsent | sombra-engine/src/se/graphics/3D/Layer3D.cpp:16-19 | removing an absent item changes nothing |
| SeqUtils.RemoveFirst | sombra-engine/src/se/app/InputManager.cpp:29-36 | definition: std::find then erase, dropping the first occurrence of the item when there is one; its properties are the lemmas below |
| SeqUtils.RemoveFirstCounts | sombra-engine/src/se/app/InputManager.cpp:29-36 | find-then-erase removes one occurrence when there is one and keeps every other count |
| SeqUtils.RemoveFirstAt | sombra-engine/src/se/app/InputManager.cpp:29-36 | find-then-erase removes exactly the first occurrence and keeps the rest in order |
| SeqUtils.RemoveFirstAbsent | sombra-engine/src/se/app/InputManager.cpp:29-36 | removing an absent entity changes nothing |
| FineCollision.AnyClose | sombra-engine/src/se/collision/FineCollisionDetector.cpp:246-253 | std::any_of: some contact of the range has both world positions within the contact separation |
| FineCollision.IsClose | sombra-engine/src/se/collision/FineCollisionDetector.cpp:241-255 | false without contacts; otherwise only contacts 0 .. n-2 are compared, because the range ends at &contacts[n-1] |
| FineCollision.IsCloseIgnoresLast | sombra-engine/src/se/collision/FineCollisionDetector.cpp:247-248 | the last stored contact never affects isClose |
| FineCollision.IsCloseMissesSoleContact | sombra-engine/src/se/collision/FineCollisionDetector.cpp:247-248 | a contact is not "close" to a manifold whose only contact is itself |
| FineCollision.FirstMax | sombra-engine/src/se/collision/FineCollisionDetector.cpp:264-268 | std::max_element: the earliest position holding a maximal key |
| FineCollision.LimitManifoldContacts | sombra-engine/src/se/collision/FineCollisionDetector.cpp:258-312 | four positions, all among the five candidates (repeats allowed): the deepest, then the farthest from it, then the farthest from their edge, then the farthest from the plane of the three; each pick is the earliest position holding its maximum, as std::max_element returns it |
| FineCollision.Picked | sombra-engine/src/se/collision/FineCollisionDetector.cpp:199-203 | the four selected contacts are all drawn from the candidates |
| FineCollision.AddContact | sombra-engine/src/se/collision/FineCollisionDetector.cpp:189-212 | a close contact is dropped and nothing changes; otherwise the contact is appended when there is room, or the four slots become the 4-of-5 selection; Updated is set in both cases; never more than 4 contacts |
| FineCollision.AddContactAsWritten | sombra-engine/src/se/collision/FineCollisionDetector.cpp:189-212 | returns exactly AddedAsWritten of the contact and the manifold |
| FineCollision.AliasedCopyDrawsFrom | sombra-engine/src/se/collision/FineCollisionDetector.cpp:199-207 | every contact the aliased copy leaves in the slots is one of the old slots or the new contact |
| FineCollision.AddedAsWritten | sombra-engine/src/se/collision/FineCollisionDetector.cpp:189-212 | addContact with the copy loop as written, which reads slots it has already overwritten: a close contact changes nothing; otherwise the contact is appended when there is room, or the four slots become the aliased copy of the 4-of-5 selection, and Updated is set; the colliders and Intersecting are kept, at most 4 contacts remain |
| FineCollision.Found | sombra-engine/src/se/collision/FineCollisionDetector.cpp:47-186 | definition: a contact is found by the path the colliders choose when it is EPA's contact (both convex), one made for an overlapping part (one concave), or one made for some pair of overlapping parts (both concave) |
| FineCollision.Prune | sombra-engine/src/se/collision/FineCollisionDetector.cpp:220-237 | the swap-and-pop walk of removeInvalidContacts as a function: a drifted contact at position i is swapped with the last and popped and i is not advanced; it never lengthens the list, and PruneKeepsUndrifted says what it keeps |
| FineCollision.LimitPicksDeepestThenFarthest | sombra-engine/src/se/collision/FineCollisionDetector.cpp:258-280 | with candidate 3 strictly deepest and candidate 0 strictly farthest from it, the selection starts with positions 3 and 0 |
| FineCollision.AliasedCopyLosesContact | sombra-engine/src/se/collision/FineCollisionDetector.cpp:205-207 | in that situation the source's copy writes contact 3 into slot 1, where the selection asks for contact 0 |
| FineCollision.SegmentMeetsConditions | sombra-engine/src/se/collision/FineCollisionDetector.cpp:258-280 | four contacts on the x axis and a new one between them meet those conditions for any length function |
| FineCollision.PruneKeepsUndrifted | sombra-engine/src/se/collision/FineCollisionDetector.cpp:220-237 | the swap-and-pop walk keeps exactly the contacts that have not drifted, each with its multiplicity |
| FineCollision.PruneShortensIffDrifted | sombra-engine/src/se/collision/FineCollisionDetector.cpp:220-237 | the walk removes something exactly when some contact has drifted |
| FineCollision.PruneSurvivors | sombra-engine/src/se/collision/FineCollisionDetector.cpp:220-237 | the whole walk leaves the undrifted contacts with their multiplicities, each an original contact, and shortens the list exactly when some contact drifted |
| FineCollision.RemoveInvalidContacts | sombra-engine/src/se/collision/FineCollisionDetector.cpp:215-238 | returns exactly Pruned of the manifold; the survivors are exactly the contacts whose two drifts are below the contact separation, as a multiset (order not kept); Updated is set iff one was removed or it was set already |
| FineCollision.Pruned | sombra-engine/src/se/collision/FineCollisionDetector.cpp:215-238 | the manifold the swap-and-pop walk leaves: its survivors as the contacts, Updated set when the walk shortened them, colliders and Intersecting kept, at most 4 contacts |
| FineCollision.Entered | sombra-engine/src/se/collision/FineCollisionDetector.cpp:73-77 | entering Intersecting: a manifold not in that state enters it with Updated set; contacts and colliders unchanged; one already intersecting is left as is |
| FineCollision.AddFound | sombra-engine/src/se/collision/FineCollisionDetector.cpp:94-121 | the outcomes in order: each new contact goes through addContact as written, and the stale contacts are pruned just before the first one; colliders and Intersecting are kept |
| FineCollision.AddPart | sombra-engine/src/se/collision/FineCollisionDetector.cpp:99-120 | one outcome of the part loops: a new contact prunes first exactly when none was added yet, then goes through addContact as written; the result continues the AddFound fold of the remaining outcomes |
| FineCollision.AddOutcomes | sombra-engine/src/se/collision/FineCollisionDetector.cpp:148-170 | the loop over a row of part outcomes (one row of the concave pairs, and likewise the convex-concave parts at lines 94-121): it reports whether the row yielded a contact, prunes at most once and only before the first contact of the whole walk, and continues the AddFound fold of the remaining outcomes |
| FineCollision.RowAppended | sombra-engine/src/se/collision/FineCollisionDetector.cpp:147-171 | taking one more row of part pairs adds exactly that row's outcomes |
| FineCollision.Disjoint | sombra-engine/src/se/collision/FineCollisionDetector.cpp:54-59 | a failed detection leaves no contacts, Intersecting reset and Updated set |
| FineCollision.CollideConvex | sombra-engine/src/se/collision/FineCollisionDetector.cpp:47-82 | intersecting iff GJK and then EPA succeed; on failure the manifold is cleared; on success the result is exactly Entered(AddedAsWritten(EPA contact, Pruned(manifold))): the contacts are pruned, EPA's contact is added as written, and Updated is set when entering Intersecting |
| FineCollision.CollideConvexConcave | sombra-engine/src/se/collision/FineCollisionDetector.cpp:85-136 | intersecting iff some overlapping part yields a contact; then the result is exactly Entered(AddFound(parts, manifold)): pruning just before the first contact and every contact added as written, in order; pruning runs exactly once then and never otherwise; with no contact the manifold is cleared |
| FineCollision.CollideConcave | sombra-engine/src/se/collision/FineCollisionDetector.cpp:139-186 | the same rules over every pair of overlapping parts, row after row: the result is exactly Entered(AddFound(Concat(parts), manifold)) when some pair yields a contact, and the cleared manifold otherwise |
| FineCollision.Collided | sombra-engine/src/se/collision/FineCollisionDetector.cpp:12-44 | the manifold the path chosen by the colliders' kinds leaves: the cleared manifold when that path detects nothing, otherwise its exact result; it is intersecting iff that path detects a contact |
| FineCollision.Collide | sombra-engine/src/se/collision/FineCollisionDetector.cpp:12-44 | false and no change for a null collider; the current Intersecting bit and no change when neither collider moved; otherwise the result is exactly Collided (the path the colliders' kinds choose), intersecting iff that path detects a contact, and every contact left is an old one or one that path found |
| ConstraintManagers.Find | sombra/src/se/physics/constraints/ConstraintManager.cpp:20-22 | std::find: the first position holding the element, or the end when there is none |
| ConstraintManagers.CountMentions | sombra/src/se/physics/constraints/ConstraintManager.cpp:428-432 | the count tryRemoveRigidBody's predicate increments is 0 iff no entry mentions the slot |
| ConstraintManagers.SoleUser | sombra/src/se/physics/constraints/ConstraintManager.cpp:428-433 | at most one entry mentions the slot iff no entry other than a given mentioning one does |
| ConstraintManagers.RemoveAtShift | sombra/src/se/physics/constraints/ConstraintManager.cpp:435-441 | after erasing slot k and shifting the stored slots above it, every other slot still designates the same body |
| ConstraintManagers.DropUnusedSlot | sombra/src/se/physics/constraints/ConstraintManager.cpp:435-441 | erasing an unmentioned slot and shifting the map keeps every slot in range and designating its body |
| ConstraintManagers.Clamp | sombra/src/se/physics/constraints/ConstraintManager.cpp:266 | std::clamp with lo <= hi: the result lies in [lo, hi], is v when v already does, and the nearer bound otherwise |
| ConstraintManagers.Without | sombra/src/se/physics/constraints/ConstraintManager.cpp:71-111 | the constraints kept by removeRigidBody are exactly those not using the body, with their lambdas |
| ConstraintManagers.TrackedAreUsed | sombra/src/se/physics/constraints/ConstraintManager.cpp:15-37 | under the manager's invariant the tracked bodies are exactly the bodies some constraint uses |
| ConstraintManagers.RemovalConsistent | sombra/src/se/physics/constraints/ConstraintManager.cpp:50-61 | removeConstraint's two releases and erase restore the invariant (equal lengths, slots in range, no duplicate, no unused body) |
| ConstraintManagers.DropDetachedBody | sombra/src/se/physics/constraints/ConstraintManager.cpp:113-114 | after the loop of removeRigidBody no entry mentions the body's slot, and erasing it restores the invariant |
| ConstraintManagers.ConstraintManager.constructor | sombra/src/se/physics/constraints/ConstraintManager.cpp:35-37 | a new manager has four empty parallel vectors and satisfies the invariant |
| ConstraintManagers.ConstraintManager.TrackBody | sombra/src/se/physics/constraints/ConstraintManager.cpp:15-32 | the body's existing slot is reused, or the body is appended; no duplicate appears; the body is woken up |
| ConstraintManagers.ConstraintManager.AddConstraint | sombra/src/se/physics/constraints/ConstraintManager.cpp:10-38 | null changes nothing; otherwise the constraint, its slot pair and a zero lambda are appended together, untracked bodies are appended, both bodies are woken up, and the invariant is kept |
| ConstraintManagers.ConstraintManager.TryRemoveRigidBody | sombra/src/se/physics/constraints/ConstraintManager.cpp:426-447 | the slot is erased, and every stored slot above it shifted down, iff at most one entry mentions it; otherwise nothing changes |
| ConstraintManagers.ConstraintManager.ReleaseBody | sombra/src/se/physics/constraints/ConstraintManager.cpp:50-56 | a body is dropped when the constraint was its only user and is woken up otherwise |
| ConstraintManagers.ConstraintManager.RemoveConstraint | sombra/src/se/physics/constraints/ConstraintManager.cpp:41-62 | an absent constraint changes nothing; otherwise the same index leaves all three parallel vectors, a body is dropped iff nothing else uses it, surviving bodies are woken up, and the invariant is kept |
| ConstraintManagers.ConstraintManager.RemoveConstraintAt | sombra/src/se/physics/constraints/ConstraintManager.cpp:46-61 | erasing the constraint found at ci keeps the invariant, and the tracked bodies are the old ones still used |
| ConstraintManagers.ConstraintManager.RemoveRigidBody | sombra/src/se/physics/constraints/ConstraintManager.cpp:65-115 | an untracked body changes nothing; otherwise every constraint using it goes, and no remaining constraint uses it; it is no longer tracked; every surviving partner is awake; the invariant is kept |
| ConstraintManagers.ConstraintManager.DetachUsers | sombra/src/se/physics/constraints/ConstraintManager.cpp:71-111 | the loop leaves exactly the constraints not using the body, in order, and wakes every surviving partner |
| ConstraintManagers.ConstraintManager.DetachNext | sombra/src/se/physics/constraints/ConstraintManager.cpp:89-107 | one detaching iteration keeps the loop's state and shortens the constraints by one |
| ConstraintManagers.ConstraintManager.DetachConstraint | sombra/src/se/physics/constraints/ConstraintManager.cpp:78-106 | the partner is released, the entry erased from the three vectors, and the body's slot re-read after the shift |
| ConstraintManagers.ConstraintManager.UpdateLambdaBoundsMatrices | sombra/src/se/physics/constraints/ConstraintManager.cpp:140-153 | the bound vectors hold each constraint's bounds, in order |
| ConstraintManagers.ConstraintManager.UpdateShouldSolveMatrix | sombra/src/se/physics/constraints/ConstraintManager.cpp:167-178 | a body is to be solved iff it is awake or was integrated |
| ConstraintManagers.ConstraintManager.SolveConstraint | sombra/src/se/physics/constraints/ConstraintManager.cpp:243-266 | a constraint with neither body marked is skipped; otherwise both bodies are marked and lambda becomes clamp(old + delta, min, max) |
| ConstraintManagers.ConstraintManager.Sweep | sombra/src/se/physics/constraints/ConstraintManager.cpp:242-274 | after one sweep every constraint with a body marked at the start has its lambda within its bounds |
| ConstraintManagers.ConstraintManager.CalculateGaussSeidel | sombra/src/se/physics/constraints/ConstraintManager.cpp:228-276 | every lambda ends unchanged or within its bounds; marks are never cleared; a changed lambda has both bodies marked; with a sweep, every constraint with a marked body ends within its bounds |
| ConstraintManagers.ConstraintManager.UpdateRigidBodies | sombra/src/se/physics/constraints/ConstraintManager.cpp:396-422 | every body to be solved is flagged ConstraintsSolved and woken up; the others keep their flags |
| ConstraintsSystems.NewContactConstraints | sombra-engine/src/se/app/ConstraintsSystem.cpp:135-144 | a new ContactConstraints takes the system's collision and friction constants and the combined friction coefficient, with no friction mass set yet |
| ConstraintsSystems.FreshEntries | sombra-engine/src/se/app/ConstraintsSystem.cpp:134-151 | the growing loop appends one new entry per missing contact, numbered consecutively |
| ConstraintsSystems.AllRefs | sombra-engine/src/se/app/ConstraintsSystem.cpp:146-148 | every ContactConstraints registers exactly three constraints |
| ConstraintsSystems.AllRefsConcat | sombra-engine/src/se/app/ConstraintsSystem.cpp:146-148 | the registrations of two runs of entries add up |
| ConstraintsSystems.AllRefsMembers | sombra-engine/src/se/app/ConstraintsSystem.cpp:146-148 | a constraint is registered by a run of entries iff it is the normal or one of the two friction constraints of one of them |
| ConstraintsSystems.MinAbsAxis | sombra-engine/src/se/app/ConstraintsSystem.cpp:193-195 | the helper axis is the index of the smallest-magnitude component of the normal, the first one on ties |
| ConstraintsSystems.SetData | sombra-engine/src/se/app/ConstraintsSystem.cpp:183-211 | an entry gets its contact's normal, both lever arms and the two tangents, and keeps its id, friction coefficient and mass |
| ConstraintsSystems.SetMass | sombra-engine/src/se/app/ConstraintsSystem.cpp:174-177 | both friction constraints of an entry get their bounds for the same mass |
| ConstraintsSystems.SameIdSamePlace | sombra-engine/src/se/app/ConstraintsSystem.cpp:134-163 | under the system's invariant no two entries share an id |
| ConstraintsSystems.GrowManyKeeps | sombra-engine/src/se/app/ConstraintsSystem.cpp:134-151 | appending fresh entries and registering their constraints keeps the invariant, up to kMaxContacts entries |
| ConstraintsSystems.ShrinkManyKeeps | sombra-engine/src/se/app/ConstraintsSystem.cpp:155-163 | popping entries and deregistering their constraints keeps the invariant, and everything deregistered was registered |
| ConstraintsSystems.SyncKeeps | sombra-engine/src/se/app/ConstraintsSystem.cpp:121-212 | handleIntersectingManifold keeps the invariant |
| ConstraintsSystems.EraseKeeps | sombra-engine/src/se/app/ConstraintsSystem.cpp:217-230 | erasing a manifold's entry and deregistering all its constraints keeps the invariant |
| ConstraintsSystems.GrowEntries | sombra-engine/src/se/app/ConstraintsSystem.cpp:134-151 | one new entry per missing contact, with fresh ids, each registering its normal and two friction constraints |
| ConstraintsSystems.ShrinkEntries | sombra-engine/src/se/app/ConstraintsSystem.cpp:155-163 | the surplus entries are popped from the back and exactly their constraints are deregistered |
| ConstraintsSystems.DeregisterAll | sombra-engine/src/se/app/ConstraintsSystem.cpp:217-222 | every constraint of every entry is deregistered once |
| ConstraintsSystems.SetMasses | sombra-engine/src/se/app/ConstraintsSystem.cpp:174-177 | every entry's friction constraints get the same per-contact mass |
| ConstraintsSystems.SetAllData | sombra-engine/src/se/app/ConstraintsSystem.cpp:183-211 | entry i carries the data of contact i |
| ConstraintsSystems.Resize | sombra-engine/src/se/app/ConstraintsSystem.cpp:127-167 | the entries grow or shrink to the contact count, the first ones kept; the count changed iff updateFrictionMasses is set |
| ConstraintsSystems.Synchronize | sombra-engine/src/se/app/ConstraintsSystem.cpp:121-212 | one entry per contact; kept entries keep their ids; new ones are registered, popped ones deregistered; when the count changed each friction mass is averageMass / count; every entry carries its contact's data |
| ConstraintsSystems.SynchronizedFromStages | sombra-engine/src/se/app/ConstraintsSystem.cpp:121-212 | the resize, mass and data stages together give that result |
| ConstraintsSystems.ConstraintsSystem.constructor | sombra-engine/src/se/app/ConstraintsSystem.cpp:11-18 | no manifold has constraints and nothing is registered |
| ConstraintsSystems.ConstraintsSystem.HandleIntersectingManifold | sombra-engine/src/se/app/ConstraintsSystem.cpp:121-212 | the manifold's entries are synchronised with its contacts (count equals contacts.size()), other manifolds are untouched, and the invariant is kept |
| ConstraintsSystems.ConstraintsSystem.HandleDisjointManifold | sombra-engine/src/se/app/ConstraintsSystem.cpp:215-231 | all the manifold's constraints are deregistered and its entry erased; an absent entry changes nothing |
| ConstraintsSystems.ConstraintsSystem.OnCollisionEvent | sombra-engine/src/se/app/ConstraintsSystem.cpp:83-118 | a null entity or manifold, a missing rigid body or two bodies of infinite mass leave everything unchanged; otherwise only this manifold's entry changes: an intersecting manifold ends Synchronized with the contacts (one constraint pair per contact, matched to the old entries, the new ones registered with fresh ids), and a disjoint one ends with none and exactly its old constraints unregistered |
| CoarseCollision.IntersectingPairs | sombra-engine/src/se/collision/CoarseCollisionDetector.cpp:13-29 | every pair of submissions i < j with overlapping boxes is in the set, earlier one first, and nothing else is |
| CoarseCollision.CoarseCollisionDetector.constructor | sombra-engine/src/se/collision/CoarseCollisionDetector.cpp:6-10 | both queues start empty |
| CoarseCollision.CoarseCollisionDetector.Submit | sombra-engine/src/se/collision/CoarseCollisionDetector.cpp:6-10 | the collider and its AABB are appended in lockstep |
| CoarseCollision.CoarseCollisionDetector.GetIntersectingColliders | sombra-engine/src/se/collision/CoarseCollisionDetector.cpp:13-29 | no false negatives and no false positives among submission pairs, and both queues are left empty |
| CollisionWorlds.FindKey | sombra-engine/src/se/collision/CollisionWorld.cpp:51-54 | the lookup finds the manifold under (a, b), then under (b, a), and fails only when neither is stored |
| CollisionWorlds.FindKeyEitherOrder | sombra-engine/src/se/collision/CollisionWorld.cpp:51-54 | both orders of a pair find a manifold or neither does, and they find the same one unless both orders are stored |
| CollisionWorlds.IntersectsNowIdempotent | sombra-engine/src/se/collision/CollisionWorld.cpp:55-58 | re-colliding with the same inputs gives the same Intersecting flag |
| CollisionWorlds.CollideStored | sombra-engine/src/se/collision/CollisionWorld.cpp:55-58 | an existing manifold is re-collided and stays the manifold of its key |
| CollisionWorlds.Cleaned | sombra-engine/src/se/collision/CollisionWorld.cpp:30-37 | definition: the map without the listed keys whose manifold is not Intersecting |
| CollisionWorlds.CleanDisjoint | sombra-engine/src/se/collision/CollisionWorld.cpp:30-37 | last update's Disjoint manifolds are erased from the map, and every other entry stays |
| CollisionWorlds.CleanedIgnoresRepeats | sombra-engine/src/se/collision/CollisionWorld.cpp:30-37 | listing a key again leaves the cleaned map unchanged, so a manifold listed twice is erased once and its second listing is skipped |
| CollisionWorlds.Narrowed | sombra-engine/src/se/collision/CollisionWorld.cpp:47-71 | definition: stored manifolds stay; a new key is an intersecting pair; an unlisted entry is untouched; each listed entry belongs to a pair and carries the detector's flag; every pair was listed unless it had no manifold and does not intersect |
| CollisionWorlds.NarrowPass | sombra-engine/src/se/collision/CollisionWorld.cpp:47-71 | stored manifolds are re-collided and listed; a new manifold is stored and listed only when it intersects; entries of other pairs are untouched |
| CollisionWorlds.NarrowPair | sombra-engine/src/se/collision/CollisionWorld.cpp:48-70 | one pair of the narrow phase keeps those guarantees |
| CollisionWorlds.CollisionWorld.constructor | sombra-engine/src/se/collision/CollisionWorld.cpp:6-8 | no collider, no manifold |
| CollisionWorlds.CollisionWorld.AddCollider | sombra-engine/src/se/collision/CollisionWorld.cpp:10-15 | null is ignored, any other collider is appended |
| CollisionWorlds.CollisionWorld.RemoveCollider | sombra-engine/src/se/collision/CollisionWorld.cpp:18-24 | every occurrence goes, the others keep their order |
| CollisionWorlds.CollisionWorld.Update | sombra-engine/src/se/collision/CollisionWorld.cpp:27-72 | the map is the cleaned map narrowed by exactly the overlapping pairs of the colliders, and the manifold list is rebuilt from empty |
| CollisionWorlds.PairsAreOverlapping | sombra-engine/src/se/collision/CoarseCollisionDetector.cpp:17-27 | the broad phase's two guarantees determine its result |
| CollisionWorlds.AddThenRemove | sombra-engine/src/se/collision/CollisionWorld.cpp:10-23 | adding a new collider and removing it restores the list |
| Edges.SameEdge | faze-engine/src/fe/collision/Edge.h:26-27 | definition: operator==, both endpoint pointers equal in order |
| Edges.SameEdgeIsIdentity | faze-engine/src/fe/collision/Edge.h:26-27 | operator== holds iff both endpoint pointers match, in order |
| Edges.SameEdgeDirected | faze-engine/src/fe/collision/Edge.h:26-27 | an edge equals its reversal only when both endpoints are the same pointer |
| Edges.SameEdgeEquivalence | faze-engine/src/fe/collision/Edge.h:26-27 | operator== is reflexive, symmetric and transitive |
| Edges.IdentityNotGeometry | faze-engine/src/fe/collision/Edge.h:17-27 | distinct support points at the same position give unequal edges |
| Epa.ClosestFace | faze-engine/src/fe/collision/EPACollisionDetector.cpp:67-75 | the chosen face has the least distance to the origin, and ties keep the earliest face |
| Epa.ToggleKeepsParity | faze-engine/src/fe/collision/EPACollisionDetector.cpp:98-105 | one find-then-erase-or-append keeps the hole equal to the edges seen an odd number of times |
| Epa.VisibilityPass | faze-engine/src/fe/collision/EPACollisionDetector.cpp:96-112 | the visible faces are erased and the others kept in order; the hole is exactly what the find-then-erase-or-append builds from the erased faces' edges, face by face and AB, BC, CA within a face (ToggleAll), so an edge is in it iff it occurs an odd number of times among those edges, and then once |
| Epa.ToggleAll | faze-engine/src/fe/collision/EPACollisionDetector.cpp:95-105 | the hole holeEdges becomes when, starting empty, each edge of a list is toggled in turn: it holds each edge once when it occurs an odd number of times in the list, and not at all otherwise |
| Epa.ToggleAllFace | faze-engine/src/fe/collision/EPACollisionDetector.cpp:98-105 | toggling a face's edges AB, BC and CA in that order continues the fold over the edges toggled before |
| Epa.NewFaces | faze-engine/src/fe/collision/EPACollisionDetector.cpp:115-117 | exactly one new face per hole edge, in hole order, each with the new support point first and the hole edge opposite it |
| Epa.Toggle | faze-engine/src/fe/collision/EPACollisionDetector.cpp:98-105 | definition: the find-then-push-or-erase of one face edge on holeEdges; ToggleKeepsParity states what it keeps |
| Epa.HoleOf | faze-engine/src/fe/collision/EPACollisionDetector.cpp:95-109 | definition: the hole holds each edge once when it occurred an odd number of times among the visible faces' edges, and not at all otherwise |
| Epa.Expanded | faze-engine/src/fe/collision/EPACollisionDetector.cpp:67-117 | definition: one pass of the while loop that does not stop: the face chosen is the earliest one of least distance, its support point is appended, the face and then the visible faces are erased, the hole is the fold of toggles over the visible faces' edges in order (ToggleAll), and its edges with the new point close it |
| Epa.Expand | faze-engine/src/fe/collision/EPACollisionDetector.cpp:86-117 | one expansion adds the support point along the closest face's normal, erases that face and then the visible ones, builds the hole by toggling the visible faces' edges in order (ToggleAll), and closes it with one new face per hole edge; all faces still refer to stored vertices |
| Epa.CloseHole | faze-engine/src/fe/collision/EPACollisionDetector.cpp:115-117 | the faces after the loop are the kept faces followed by one face per hole edge, in hole order, each through the new support point |
| Epa.HoleEdgesFromFaces | faze-engine/src/fe/collision/EPACollisionDetector.cpp:96-112 | every hole edge joins stored vertices |
| Epa.ErasedFaceEdgesNotInHole | faze-engine/src/fe/collision/EPACollisionDetector.cpp:91-96 | since the closest face is erased before the pass, its edges (belonging to no other face) never enter the hole |
| Epa.Polytope.constructor | faze-engine/src/fe/collision/EPACollisionDetector.cpp:58-61 | the detector's polytope holds the given vertices and faces |
| Epa.SearchTrace | faze-engine/src/fe/collision/EPACollisionDetector.cpp:63-117 | definition: every pass of the loop that did not stop expanded the polytope at the closest face, and was taken because the distance compared with before it (PrevDist: the float maximum, then the distance of the face expanded last) exceeded the closest distance by more than sMinFDifference |
| Epa.FailedStopGrows | faze-engine/src/fe/collision/EPACollisionDetector.cpp:80-84 | an expansion taken because the stop test failed keeps every expansion tied to a failed stop test, and the distance of the face it expanded is the one compared with next |
| Epa.SearchTraceGrows | faze-engine/src/fe/collision/EPACollisionDetector.cpp:63-117 | one more expansion after a failed stop test extends the trace, and `closestFDist` becomes the expanded face's distance |
| Epa.SearchStep | faze-engine/src/fe/collision/EPACollisionDetector.cpp:80-117 | one pass that does not stop: the polytope is expanded at the closest face as Expanded states (the hole being the toggles of the visible faces' edges in order), vertices are only appended, and the trace grows by that expansion |
| Epa.Search | faze-engine/src/fe/collision/EPACollisionDetector.cpp:58-123 | the loop stops at the earliest face of least distance exactly when the previous closest distance (the float maximum before any expansion, then the distance of the face expanded last) exceeds it by at most sMinFDifference; every expansion before was taken because that test failed; so an expansion happens before a finite face is accepted; vertices are only appended; None only when the fuel ran out or no face is left |
| Epa.Polytope.GetClosestFaceToOrigin | faze-engine/src/fe/collision/EPACollisionDetector.cpp:58-123 | the search run on the detector's polytope, which it leaves expanded: the accepted face is the earliest one of least distance and improves on PrevDist, the distance of the face expanded last (the float maximum before any), by at most sMinFDifference; every expansion taken was a failed stop test (SearchTrace) |
| Epa.ProjectPointOnTriangle | faze-engine/src/fe/collision/EPACollisionDetector.cpp:126-145 | the three barycentric weights sum to 1 |
| Epa.ProjectionWeights | faze-engine/src/fe/collision/EPACollisionDetector.cpp:126-145 | for a point t0 + s u + t v + h n the weights are (t, s, 1 - t - s), whatever the offset h along the normal |
| Epa.Interpolate | faze-engine/src/fe/collision/EPACollisionDetector.cpp:38-40 | definition: the weights applied as the projection returns them, gamma to the third vertex, beta to the second and alpha to the first; ProjectionInterpolatesBack states what it gives |
| Epa.ProjectionInterpolatesBack | faze-engine/src/fe/collision/EPACollisionDetector.cpp:126-145 | the weights, applied in the order they are returned, give back the point's projection on the triangle's plane |
| Epa.InterpolateAsWritten | faze-engine/src/fe/collision/EPACollisionDetector.cpp:38-40 | the weights as calculate applies them: the first to mAB.mP1, the second to mBC.mP1, the third to mCA.mP1 |
| Epa.AsWrittenMisplacesProjection | faze-engine/src/fe/collision/EPACollisionDetector.cpp:27-40 | with that order, a point above the first vertex lands on the third vertex, where the projection is the first |
| Epa.AtFirstVertex | faze-engine/src/fe/collision/EPACollisionDetector.cpp:38-40 | the weights (0, 0, 1) pick the first vertex in the returned order and the third as written |
| Epa.FirstComponentOnly | faze-engine/src/fe/collision/EPACollisionDetector.cpp:43-51 | with the weights applied as written, only component 0 of a contact position is interpolated, because the loop over j stops at 1; the others stay 0 |
| Epa.Calculate | faze-engine/src/fe/collision/EPACollisionDetector.cpp:15-55 | the contact's penetration is the accepted distance, its normal the normalised as-written interpolation of the CSO points, and each of its four positions the as-written interpolation of component 0 only |
| Epa.CalculateIntended | faze-engine/src/fe/collision/EPACollisionDetector.cpp:15-55 | calculate with the weights applied in the order the projection returns them: the penetration is the accepted distance and components 1 and 2 of each position stay 0 |
| Epa.IntendedNormalIsProjection | faze-engine/src/fe/collision/EPACollisionDetector.cpp:27-40 | there, when the origin lies at A + s(B - A) + t(C - A) + h n, the contact normal is the normalised projection A + s(B - A) + t(C - A) of the origin on the face |
| Polytopes.FaceData | sombra-engine/src/se/collision/Polytope.cpp:58-68 | the stored distance is the length of the plane's closest point to the origin, so it is never negative |
| Polytopes.FaceSetsReversed | sombra-engine/src/se/collision/Polytope.cpp:25-37 | the two face sets are the same four triangles with reversed winding |
| Polytopes.FaceSetIncidence | sombra-engine/src/se/collision/Polytope.cpp:27-36 | in each face set every vertex lies on exactly three faces |
| Polytopes.InitialFaces | sombra-engine/src/se/collision/Polytope.cpp:25-37 | the constructor picks one of the two face sets, by the sign of dot(p3 - p0, cross(p1 - p0, p2 - p0)) |
| Polytopes.InitialFacesOutward | sombra-engine/src/se/collision/Polytope.cpp:25-37 | the chosen winding puts the vertex opposite each face behind or on that face, and on it only for a flat simplex |
| Polytopes.SimplexVolumes | sombra-engine/src/se/collision/Polytope.cpp:27-36 | every face of a set spans the same signed volume with its opposite vertex |
| Polytopes.AddVertexKeeps | sombra-engine/src/se/collision/Polytope.cpp:41-47 | recording a support point under a fresh index keeps the polytope's bookkeeping consistent |
| Polytopes.AddFaceKeeps | sombra-engine/src/se/collision/Polytope.cpp:50-71 | adding a face with its normal and distance under the same fresh index keeps the keys of the normal and distance maps equal to the faces |
| Polytopes.RemoveFaceKeeps | sombra-engine/src/se/collision/Polytope.cpp:74-79 | erasing a face with its normal and distance keeps them equal |
| Polytopes.InitialConsistent | sombra-engine/src/se/collision/Polytope.cpp:9-38 | the constructor's state is consistent with either face set |
| Polytopes.Polytope.constructor | sombra-engine/src/se/collision/Polytope.cpp:9-38 | the four simplex points become vertices 0 to 3 in order, and the four faces of the chosen winding become faces 0 to 3, each with its normal and distance data |
| Polytopes.Polytope.AddVertex | sombra-engine/src/se/collision/Polytope.cpp:41-47 | the support point is recorded under the new vertex index, which is returned |
| Polytopes.Polytope.AddFace | sombra-engine/src/se/collision/Polytope.cpp:50-71 | the face, its normal and its distance data are stored under the same new index |
| Polytopes.Polytope.RemoveFace | sombra-engine/src/se/collision/Polytope.cpp:74-79 | the face and its normal and distance data leave together |
| TerrainColliders.IndexInGrid | sombra-engine/src/se/collision/TerrainCollider.cpp:56-59 | a row-major index z * xSize + x of a vertex inside the grid addresses a stored height |
| TerrainColliders.Coord | sombra-engine/src/se/collision/TerrainCollider.cpp:33-34 | index 0 sits at -0.5 and the last index at 0.5 in local space |
| TerrainColliders.LocalVertex | sombra-engine/src/se/collision/TerrainCollider.cpp:56-59 | a grid vertex has the grid coordinates of its indices and one of the stored heights |
| TerrainColliders.Widen | sombra-engine/src/se/collision/TerrainCollider.cpp:95-96 | growing the box by a point keeps everything it held and takes the point in |
| TerrainColliders.ComputeAabb | sombra-engine/src/se/collision/TerrainCollider.cpp:80-99 | every transformed grid vertex lies component-wise between the box's minimum and maximum, and each of the six bounds is attained by some vertex or is the initial +/-FLT_MAX (only for an empty grid); so the box is the tightest one |
| TerrainColliders.MinY | sombra-engine/src/se/collision/TerrainCollider.cpp:106-111 | the running minimum is the least vertex y, or the float maximum it starts from |
| TerrainColliders.MaxY | sombra-engine/src/se/collision/TerrainCollider.cpp:106-111 | the running maximum is the greatest vertex y, or minus the float maximum it starts from |
| TerrainColliders.CheckYAxis | sombra-engine/src/se/collision/TerrainCollider.cpp:102-114 | checkYAxis is true iff the box's y-interval reaches the vertices' lowest and highest y |
| TerrainColliders.YOverlapMeaning | sombra-engine/src/se/collision/TerrainCollider.cpp:102-114 | for finite heights that holds iff the closed interval [min y, max y] of the vertices meets the box's closed y-interval |
| TerrainColliders.Trunc | sombra-engine/src/se/collision/TerrainCollider.cpp:41-45 | static_cast<int> truncates toward zero |
| TerrainColliders.Ceil | sombra-engine/src/se/collision/TerrainCollider.cpp:43-46 | std::ceil gives the least integer not below the value |
| TerrainColliders.RawRange | sombra-engine/src/se/collision/TerrainCollider.cpp:41-46 | the index bounds are the local box's extent shifted by 0.5 and scaled by the sample count, the lower end truncated and the upper end rounded up |
| TerrainColliders.ClampWith | sombra-engine/src/se/collision/TerrainCollider.cpp:48-51 | a negative lower bound becomes 0 when its upper bound is not negative, and an upper bound at or past the limit becomes the last index when the lower bound is inside |
| TerrainColliders.ClampAsWritten | sombra-engine/src/se/collision/TerrainCollider.cpp:49 | the x upper bound is compared with the z sample count |
| TerrainColliders.Clamp | sombra-engine/src/se/collision/TerrainCollider.cpp:48-51 | the clamping with the x bounds compared with the x sample count |
| TerrainColliders.GuardAsWritten | sombra-engine/src/se/collision/TerrainCollider.cpp:53 | definition: the loop bounds as written pass when both lower bounds are at least 0 and both upper bounds are below the z sample count |
| TerrainColliders.Guard | sombra-engine/src/se/collision/TerrainCollider.cpp:53 | definition: the same test with the x upper bound compared with the x sample count |
| TerrainColliders.GuardedCellsInGrid | sombra-engine/src/se/collision/TerrainCollider.cpp:53-59 | with the x comparison, a range that passes the guard reads only heights inside the grid, neighbours x + 1 and z + 1 included |
| TerrainColliders.SquareAsWrittenInBounds | sombra-engine/src/se/collision/TerrainCollider.cpp:49-59 | on a square terrain the code as written computes the same range, so every index it reads is in bounds |
| TerrainColliders.AsWrittenReadsPastHeights | sombra-engine/src/se/collision/TerrainCollider.cpp:49-59 | on a 2 × 3 terrain a box over the whole square passes the guard as written and then reads height index 6, past the last one |
| TerrainColliders.Keep | sombra-engine/src/se/collision/TerrainCollider.cpp:63-70 | a triangle is kept iff checkYAxis passes for its vertices |
| TerrainColliders.CellParts | sombra-engine/src/se/collision/TerrainCollider.cpp:54-72 | a cell yields at most two triangles, (v0, v1, v2) then (v1, v3, v2), each carrying the terrain's transforms and meeting the box's y-interval |
| TerrainColliders.CellsOfBounded | sombra-engine/src/se/collision/TerrainCollider.cpp:54-72 | that holds for every cell of the grid |
| TerrainColliders.VisitedCells | sombra-engine/src/se/collision/TerrainCollider.cpp:53-59 | with the intended x comparison, the cells the loops visit lie inside the grid |
| TerrainColliders.RowPartsBounds | sombra-engine/src/se/collision/TerrainCollider.cpp:55-72 | a row gives at most two triangles per cell, each meeting the y-interval |
| TerrainColliders.RowsBounds | sombra-engine/src/se/collision/TerrainCollider.cpp:54-73 | the rows together give at most two triangles per cell |
| TerrainColliders.OverlappingParts | sombra-engine/src/se/collision/TerrainCollider.cpp:27-77 | definition: getOverlapingParts with the intended x comparison: the rows of cells of the clamped range when it passes the guard, none otherwise |
| TerrainColliders.OverlappingPartsBounds | sombra-engine/src/se/collision/TerrainCollider.cpp:27-77 | with the intended x comparison: no triangle when the clamped range fails the guard; otherwise at most two per cell, each carrying the transforms and meeting the box's y-interval in local space |
| TerrainColliders.OverlappingPartsAsWritten | sombra-engine/src/se/collision/TerrainCollider.cpp:27-77 | definition: getOverlapingParts as written: clamp and guard with the x bounds compared with the z sample count, then ReadsPastHeights when the range reaches a height past the stored ones, else the rows of cells |
| TerrainColliders.OverlappingPartsAsWrittenBounds | sombra-engine/src/se/collision/TerrainCollider.cpp:27-77 | as written: no triangle when the range fails the guard; ReadsPastHeights exactly when it passes and reads past the heights; otherwise at most two triangles per cell, each carrying the transforms and meeting the y-interval |
| TerrainColliders.AsWrittenVisitsStoredHeights | sombra-engine/src/se/collision/TerrainCollider.cpp:53-59 | when the code as written hands out triangles, every cell it visits reads only stored heights |
| TerrainColliders.SquareAsWrittenAgrees | sombra-engine/src/se/collision/TerrainCollider.cpp:49-59 | on a square terrain the code as written and the intended comparison hand out the same triangles |
| TerrainColliders.AsWrittenDropsWideTerrain | sombra-engine/src/se/collision/TerrainCollider.cpp:49-53 | on a 3 × 2 terrain a box over the whole square is clamped as written to a range that fails the guard, so nothing is handed out, where the intended comparison keeps two cells |
| TerrainColliders.CollectRow | sombra-engine/src/se/collision/TerrainCollider.cpp:55-72 | the inner loop collects the row's cells in increasing x |
| TerrainColliders.CollectParts | sombra-engine/src/se/collision/TerrainCollider.cpp:54-73 | the outer loop collects the rows in increasing z |
| TerrainColliders.TerrainCollider.constructor | sombra-engine/src/se/collision/TerrainCollider.cpp:9-16 | requires at least xSize * zSize heights; starts with the identity transforms and an AABB that holds every vertex and whose every bound is attained by a vertex (Valid) |
| TerrainColliders.TerrainCollider.SetTransforms | sombra-engine/src/se/collision/TerrainCollider.cpp:19-24 | the new transforms are stored and the AABB recomputed to hold every vertex, each bound attained by a vertex (Valid) |
| TerrainColliders.TerrainCollider.GetOverlappingParts | sombra-engine/src/se/collision/TerrainCollider.cpp:27-77 | the outcome of the code as written: the triangles of every cell of the range clamped and guarded against the z sample count, row by row, or ReadsPastHeights when that range reads past the heights |
| NormalConstraints.NewNormalConstraint | faze-engine/src/fe/physics/constraints/NormalConstraint.cpp:9-11 | the constructor keeps the bodies and beta, uses the shared static bounds, and zeroes the normal, the time step and k |
| NormalConstraints.SharedBounds | faze-engine/src/fe/physics/constraints/NormalConstraint.cpp:9 | every normal constraint points to the same bounds |
| NormalConstraints.Bias | faze-engine/src/fe/physics/constraints/NormalConstraint.cpp:14-21 | the bias is (1 - dt beta)^k times dot((pos2 + r2) - (pos1 + r1), n), so it vanishes when the points are level along the normal or the normal is zero |
| NormalConstraints.BiasTranslationInvariant | faze-engine/src/fe/physics/constraints/NormalConstraint.cpp:14-21 | moving both bodies by the same offset changes neither the separation nor the bias |
| NormalConstraints.SwappedBodies | faze-engine/src/fe/physics/constraints/NormalConstraint.cpp:16-19 | exchanging the bodies negates the separation |
| NormalConstraints.Jacobian | faze-engine/src/fe/physics/constraints/NormalConstraint.cpp:24-35 | a 12-entry row whose linear blocks are n and its negation, and whose angular blocks are both orthogonal to n |
| NormalConstraints.JacobianLayout | faze-engine/src/fe/physics/constraints/NormalConstraint.cpp:26-34 | the row is laid out as [-n, -(r1 × n), n, r2 × n] |
| NormalConstraints.JacobianIsRelativeNormalVelocity | faze-engine/src/fe/physics/constraints/NormalConstraint.cpp:24-35 | the row applied to the bodies' velocities is the relative velocity of the two contact points along the normal |
| NormalConstraints.FreshConstraintInert | faze-engine/src/fe/physics/constraints/NormalConstraint.cpp:9-35 | a freshly constructed constraint has a zero row and a zero bias |
| BoundingBoxes.VerticesFromLengths | faze-engine/include/fe/collision/BoundingBox.h:33-42 | exactly eight vertices, vertex i being the corner whose bits choose the signs |
| BoundingBoxes.VerticesOnHalfLengths | faze-engine/include/fe/collision/BoundingBox.h:34-41 | every component of every vertex is plus or minus half the length on its axis |
| BoundingBoxes.AllSignCombinations | faze-engine/include/fe/collision/BoundingBox.h:34-41 | all eight sign combinations appear, the x sign varying slowest and the z sign fastest |
| BoundingBoxes.OppositeVertices | faze-engine/include/fe/collision/BoundingBox.h:34-41 | vertex 7 - i is the negation of vertex i, so the box is centred at the origin |
| BoundingBoxes.VerticesInBox | faze-engine/include/fe/collision/BoundingBox.h:33-42 | with non-negative lengths every vertex lies in the box from -lengths / 2 to lengths / 2 |
| TerrainRendering.Classify | sombra-engine/src/se/graphics/3D/RendererTerrain.cpp:164-195 | a leaf goes to the normal patch exactly when no neighbour has a lower LOD, to a corner patch exactly when a bottom-or-top and a left-or-right neighbour are both coarser, with bottom preferred over top and left over right |
| TerrainRendering.Submitted | sombra-engine/src/se/graphics/3D/RendererTerrain.cpp:160-202 | definition: the instances submitNode submits, a leaf giving one in the patch Classify picks at its location with its LOD, an inner node its children's in order |
| TerrainRendering.LeafCount | sombra-engine/src/se/graphics/3D/RendererTerrain.cpp:160-202 | definition: the number of leaves of a subtree |
| TerrainRendering.SubmittedCount | sombra-engine/src/se/graphics/3D/RendererTerrain.cpp:160-202 | the instances submitNode submits for a subtree are exactly as many as its leaves |
| TerrainRendering.SubmittedChildrenCount | sombra-engine/src/se/graphics/3D/RendererTerrain.cpp:197-200 | the children's loop submits as many instances as the children have leaves |
| TerrainRendering.LeafSubmittedOnce | sombra-engine/src/se/graphics/3D/RendererTerrain.cpp:162-195 | a leaf yields one instance, in the patch Classify picks, at the parent's location plus its own offset, with its own LOD |
| TerrainRendering.For | sombra-engine/src/se/graphics/3D/RendererTerrain.cpp:76-81 | the instances a single patch receives are a subsequence of the submissions, all of that patch's kind |
| TerrainRendering.ForSelects | sombra-engine/src/se/graphics/3D/RendererTerrain.cpp:76-81 | a patch receives every submission of its kind, as many times as it was submitted, and no submission of another kind |
| TerrainRendering.ForAppend | sombra-engine/src/se/graphics/3D/RendererTerrain.cpp:198-200 | what a patch receives from two submission runs is what it receives from the first followed by the second |
| TerrainRendering.DrawnAppend | sombra-engine/src/se/graphics/3D/RendererTerrain.cpp:76-81 | the locations and LODs a patch holds after two runs are those of the first run followed by those of the second |
| TerrainRendering.DrawnStep | sombra-engine/src/se/graphics/3D/RendererTerrain.cpp:198-200 | one more child of the loop appends its own subtree's locations and LODs to each patch |
| TerrainRendering.PatchesPartition | sombra-engine/src/se/graphics/3D/RendererTerrain.cpp:164-195 | every submission goes to exactly one of the nine patches: their counts add up to the total |
| TerrainRendering.Locations | sombra-engine/src/se/graphics/3D/RendererTerrain.cpp:79 | the location list keeps one entry per instance, in order |
| TerrainRendering.Lods | sombra-engine/src/se/graphics/3D/RendererTerrain.cpp:80 | the LOD list keeps one entry per instance, in order |
| TerrainRendering.Patch.constructor | sombra-engine/src/se/graphics/3D/RendererTerrain.cpp:54-73 | a new patch holds no instance |
| TerrainRendering.Patch.SubmitInstance | sombra-engine/src/se/graphics/3D/RendererTerrain.cpp:76-81 | the count grows by one and the location and LOD are appended, keeping the three in agreement |
| TerrainRendering.Patch.DrawInstances | sombra-engine/src/se/graphics/3D/RendererTerrain.cpp:84-98 | the draw receives the count and both lists as they were, and afterwards the patch is empty |
| TerrainRendering.FrameCoversLeaves | sombra-engine/src/se/graphics/3D/RendererTerrain.cpp:143-154 | over one frame, from the root at the origin, the nine patches together draw one instance per leaf of the quadtree |
| TerrainRendering.RendererTerrain.constructor | sombra-engine/src/se/graphics/3D/RendererTerrain.cpp:101-107 | nine distinct patches, all empty |
| TerrainRendering.RendererTerrain.EmptyPatchesAreIdle | sombra-engine/src/se/graphics/3D/RendererTerrain.cpp:101-107 | nine empty patches of their own kinds make a valid idle renderer |
| TerrainRendering.RendererTerrain.SubmitNode | sombra-engine/src/se/graphics/3D/RendererTerrain.cpp:160-202 | every patch gains, in submission order, the locations and LODs of exactly the leaves of the subtree that Classify sends to it |
| TerrainRendering.RendererTerrain.SubmitChildren | sombra-engine/src/se/graphics/3D/RendererTerrain.cpp:197-201 | the children's loop appends to each patch what the children's subtrees send to it, child after child |
| Layers3D.Layer3D.AddRenderable3D | sombra-engine/src/se/graphics/3D/Layer3D.cpp:6-11 | a null renderable is ignored, any other is appended; the lights are untouched |
| Layers3D.Layer3D.RemoveRenderable3D | sombra-engine/src/se/graphics/3D/Layer3D.cpp:14-20 | every occurrence of the renderable goes, the rest keep their order and multiplicity; the lights are untouched |
| Layers3D.Layer3D.AddLight | sombra-engine/src/se/graphics/3D/Layer3D.cpp:23-28 | a null light is ignored, any other is appended; the renderables are untouched |
| Layers3D.Layer3D.RemoveLight | sombra-engine/src/se/graphics/3D/Layer3D.cpp:31-37 | every occurrence of the light goes, the rest keep their order and multiplicity; the renderables are untouched |
| InputManagers.OpposingKeysCancel | sombra-engine/src/se/app/InputManager.cpp:88-91 | W with S, and D with A, give the same direction as neither key |
| InputManagers.NoKeysNoRun | sombra-engine/src/se/app/InputManager.cpp:93-101 | without movement keys the run step leaves the velocity as it was, whatever the run speed |
| InputManagers.NormalisedIsUnit | sombra-engine/src/se/app/InputManager.cpp:94-95 | a non-zero direction is scaled to length one |
| InputManagers.RunOnlyBelowRunSpeed | sombra-engine/src/se/app/InputManager.cpp:98-101 | at or above the run speed the movement keys change nothing |
| InputManagers.JumpKeysCancel | sombra-engine/src/se/app/InputManager.cpp:104-105 | SPACE and LEFT_CONTROL together leave the velocity as neither would |
| InputManagers.DoKeyboardInput | sombra-engine/src/se/app/InputManager.cpp:80-106 | the entity's new velocity is the run and jump velocity of its keys added to the old one, its orientation unchanged |
| InputManagers.InputManager.constructor | sombra-engine/src/se/app/InputManager.cpp:8-12 | a new manager tracks no entity |
| InputManagers.InputManager.AddEntity | sombra-engine/src/se/app/InputManager.cpp:15-24 | a null entity is refused, any other is appended |
| InputManagers.InputManager.RemoveEntity | sombra-engine/src/se/app/InputManager.cpp:27-37 | only the first occurrence of the entity goes; a missing entity leaves the list unchanged |
| GltfTables.TypeIdCode | sombra-engine/src/se/loaders/GLTFReader.cpp:13-26 | each component type has a code that toTypeId maps back to it |
| GltfTables.ToTypeId | sombra-engine/src/se/loaders/GLTFReader.cpp:13-26 | exactly the six codes 5120, 5121, 5122, 5123, 5125 and 5126 name a component type; every other code, 5124 included, is refused |
| GltfTables.ToTypeIdOnlyFromCode | sombra-engine/src/se/loaders/GLTFReader.cpp:13-26 | a code that is accepted is the code of the type it yields, so the table is one-to-one |
| GltfTables.TextureFilterCode | sombra-engine/src/se/loaders/GLTFReader.cpp:28-41 | each filter has a code that toTextureFilter maps back to it |
| GltfTables.ToTextureFilter | sombra-engine/src/se/loaders/GLTFReader.cpp:28-41 | exactly 9728, 9729 and 9984 to 9987 name a filter |
| GltfTables.ToTextureFilterOnlyFromCode | sombra-engine/src/se/loaders/GLTFReader.cpp:28-41 | an accepted code is the code of the filter it yields |
| GltfTables.TextureWrapCode | sombra-engine/src/se/loaders/GLTFReader.cpp:43-53 | each wrap mode has a code that toTextureWrap maps back to it |
| GltfTables.ToTextureWrap | sombra-engine/src/se/loaders/GLTFReader.cpp:43-53 | exactly 10497, 33648 and 33071 name a wrap mode |
| GltfTables.ToTextureWrapOnlyFromCode | sombra-engine/src/se/loaders/GLTFReader.cpp:43-53 | an accepted code is the code of the wrap it yields |
| GltfTables.MeshAttributeName | sombra-engine/src/se/loaders/GLTFReader.cpp:55-68 | each mesh attribute has a name that toMeshAttribute maps back to it |
| GltfTables.ToMeshAttribute | sombra-engine/src/se/loaders/GLTFReader.cpp:55-68 | exactly the eight names POSITION to WEIGHTS_0, compared exactly, name an attribute |
| GltfTables.ToMeshAttributeOnlyFromName | sombra-engine/src/se/loaders/GLTFReader.cpp:55-68 | an accepted name is the name of the attribute it yields |
| GltfTables.ToComponentSize | sombra-engine/src/se/loaders/GLTFReader.cpp:70-82 | exactly the seven accessor types SCALAR to MAT4 have a size, and every size is 1, 2, 3, 4, 9 or 16 |
| GltfTables.ComponentSizeOfShape | sombra-engine/src/se/loaders/GLTFReader.cpp:70-82 | VECn has n components and MATn has n * n, for n from 2 to 4 |
| GltfTables.ComponentSizeShared | sombra-engine/src/se/loaders/GLTFReader.cpp:70-82 | two different accessor types have the same size only when they are VEC4 and MAT2 |
| GltfTables.AlphaModeName | sombra-engine/src/se/loaders/GLTFReader.cpp:84-92 | each alpha mode has a name that toAlphaMode maps back to it |
| GltfTables.ToAlphaMode | sombra-engine/src/se/loaders/GLTFReader.cpp:84-92 | exactly OPAQUE, MASK and BLEND name an alpha mode |
| GltfTables.ToAlphaModeOnlyFromName | sombra-engine/src/se/loaders/GLTFReader.cpp:84-92 | an accepted name is the name of the mode it yields |
| GltfTables.CheckAssetVersion | sombra-engine/src/se/loaders/GLTFReader.cpp:262-282 | an asset is accepted only if it has a version whose first number is followed by a dot |
| GltfTables.ReadVersion | sombra-engine/src/se/loaders/GLTFReader.cpp:267-269 | definition: the extraction of the version text: after white space, the leading digit run, the next character after white space, and the digit run after that; the revision is unwritten when the text ends after the dot, and 0 when a non-digit comes first |
| GltfTables.VersionFieldsOfText | sombra-engine/src/se/loaders/GLTFReader.cpp:268-270 | reading "digits.digits" yields the two numbers the digit runs denote and the dot |
| GltfTables.VersionTextRoundTrip | sombra-engine/src/se/loaders/GLTFReader.cpp:268-270 | the text "V.R" written from two natural numbers reads back as V, the dot and R |
| GltfTables.CheckAssetVersionOfText | sombra-engine/src/se/loaders/GLTFReader.cpp:262-282 | the asset "V.R" is supported exactly when V is older than the reader's version, or equal to it with R no newer than the reader's revision |
| GltfTables.MajorAloneUnsupported | sombra-engine/src/se/loaders/GLTFReader.cpp:267-271 | a version without its ".R" part, such as "2", is refused, reading the dot the extraction never wrote as no dot |
| GltfTables.DotWithoutRevision | sombra-engine/src/se/loaders/GLTFReader.cpp:267-278 | "V." leaves the revision unwritten and is supported exactly when V is older than the reader's version, where the revision is never compared |
| GltfTables.CheckAssetVersionMonotone | sombra-engine/src/se/loaders/GLTFReader.cpp:271-278 | a newer reader accepts every asset an older reader accepts |
| GltfReaders.BufferOf | sombra-engine/src/se/loaders/GLTFReader.cpp:285-313 | a buffer is read exactly when byteLength and uri are present and the file can be read, and keeps the byte length; a missing property is reported as such |
| GltfReaders.TargetOf | sombra-engine/src/se/loaders/GLTFReader.cpp:329-341 | exactly 34962 and 34963 are targets, and neither is Undefined |
| GltfReaders.BufferViewOf | sombra-engine/src/se/loaders/GLTFReader.cpp:316-353 | a view is read exactly when buffer and byteLength are present, the target is absent or valid, and the buffer exists; the offset and stride default to 0; the first failed check gives the error |
| GltfReaders.AccessorOf | sombra-engine/src/se/loaders/GLTFReader.cpp:356-392 | parseAccessor as written: an accessor is read exactly when its four required properties are present, its component type and type are known and its buffer view exists, with the JSON's fields and the defaults for offset and normalized; an unknown component type or type throws a type error (the message reads componentType as a string) |
| GltfReaders.AccessorOfIntended | sombra-engine/src/se/loaders/GLTFReader.cpp:372-380 | the refusals the messages intend: an unknown component type is refused with its code, an unknown type with its name |
| GltfReaders.AccessorThrowsWhereRefusalIntended | sombra-engine/src/se/loaders/GLTFReader.cpp:372-380 | the two parses agree except that, exactly where the intended one refuses an unknown component type or type, the one as written throws; {"bufferView": 0, "componentType": 1, "count": 1, "type": "SCALAR"} is such an accessor |
| GltfReaders.FilterOr | sombra-engine/src/se/loaders/GLTFReader.cpp:400-413 | a valid filter code replaces the current filter and an invalid one leaves it |
| GltfReaders.WrapCodes | sombra-engine/src/se/loaders/GLTFReader.cpp:424-434 | definition: the S and T wrap codes, each read from its own property, 10497 when absent |
| GltfReaders.WrapCodesAsWritten | sombra-engine/src/se/loaders/GLTFReader.cpp:424-434 | definition: the wrap codes as read: a present wrapT is read through the wrapS iterator, so it takes wrapS's value, or the end iterator's value when wrapS is absent |
| GltfReaders.SamplerOf | sombra-engine/src/se/loaders/GLTFReader.cpp:395-438 | definition: parseSampler with each wrap read from its own property; SamplerWrapsFollowJson states what it gives |
| GltfReaders.SamplerOfAsWritten | sombra-engine/src/se/loaders/GLTFReader.cpp:395-438 | definition: parseSampler as written, with the wrap codes WrapCodesAsWritten reads; the sampler section uses it |
| GltfReaders.SamplerFrom | sombra-engine/src/se/loaders/GLTFReader.cpp:416-437 | a sampler is accepted exactly when both wrap codes are valid, the first invalid one giving the error, and its wraps carry those codes |
| GltfReaders.SamplerWrapsFollowJson | sombra-engine/src/se/loaders/GLTFReader.cpp:424-434 | with each wrap read from its own property, each wrap of the sampler is that property's (REPEAT when absent), and a sampler is refused exactly when one is not a wrap |
| GltfReaders.AsWrittenWrapTCopiesWrapS | sombra-engine/src/se/loaders/GLTFReader.cpp:427 | as written, a present wrapT takes the value of wrapS, so {"wrapS": 10497, "wrapT": 33071} is read as REPEAT twice |
| GltfReaders.SamplerFiltersNeverRefuse | sombra-engine/src/se/loaders/GLTFReader.cpp:408-413 | as written, the filters never decide whether a sampler is accepted; an absent filter is NEAREST and an invalid one leaves the default |
| GltfReaders.EmptySamplerDefaults | sombra-engine/src/se/loaders/GLTFReader.cpp:395-438 | as written, a sampler with no properties is NEAREST filtered and REPEAT wrapped |
| GltfReaders.NodeOf | sombra-engine/src/se/loaders/GLTFReader.cpp:824-898 | a node is read exactly when its camera and mesh, when present, exist (the camera checked first); it keeps them and its children |
| GltfReaders.ElementOf | sombra-engine/src/se/loaders/GLTFReader.cpp:441-821 | an image, texture, material, mesh or camera is accepted exactly when it parses |
| GltfReaders.ParseEach | sombra-engine/src/se/loaders/GLTFReader.cpp:148-256 | a section is parsed in order; the items read are the parses of the first elements, and a failure names the first element refused with its reason |
| GltfReaders.ChildEntries | sombra-engine/src/se/loaders/GLTFReader.cpp:938-940 | a node pushes one (node, child) entry per child, in order |
| GltfReaders.BuildScene | sombra-engine/src/se/loaders/GLTFReader.cpp:913-950 | each root and each descendant walked becomes a scene node of an existing glTF node; the roots are made in the JSON's order (all of them unless the scene is refused); each scene node made under a parent hangs under an earlier scene node of this scene, the one made last for a glTF node that has it as a child; on success under every scene node hang exactly the children its glTF node lists, each as often as listed (ChildrenCounted), so every child was made; the slot of each glTF node the walk rewrote points at a scene node made for that node (SlotsTrack), and any id that is not a node refuses the scene; a refusal is explained by BuildFailure: Exhausted only after at least `fuel` scene nodes were made, or an id past the nodes that is the next root after those made or a child listed by the glTF node of a scene node made |
| GltfReaders.Roots | sombra-engine/src/se/loaders/GLTFReader.cpp:915-919 | the glTF nodes of the scene nodes made under no parent, in the order made; never more than the scene nodes |
| GltfReaders.SceneTree | sombra-engine/src/se/loaders/GLTFReader.cpp:927-936 | definition: every scene node made under a parent hangs under an earlier scene node of the same scene, made for a glTF node that lists it as a child and made last for that node before it |
| GltfReaders.ChildrenBuilt | sombra-engine/src/se/loaders/GLTFReader.cpp:938-940 | definition: every child of the glTF node of every scene node was made under a scene node of that glTF node |
| GltfReaders.BuildRoot | sombra-engine/src/se/loaders/GLTFReader.cpp:915-946 | one root: the root scene node is made, appended to the roots, and its descendants walked, keeping the tree shape and the slots; on success every child of every node made is built, and under every scene node hang exactly the children its glTF node lists, each as often as listed; the steps spent never exceed the scene nodes made, Exhausted comes only with no step left, and an id past the nodes that stops it is a child of the glTF node of a scene node made |
| GltfReaders.ChildEntriesAsWritten | sombra-engine/src/se/loaders/GLTFReader.cpp:924-939 | the stack entries parseScene pushes for a node's children as written, the popped entry being bound by reference: the first child is pushed under the node and every later child under the first child |
| GltfReaders.ChildEntriesAsWrittenAgreeIff | sombra-engine/src/se/loaders/GLTFReader.cpp:924-939 | those entries are the intended (node, child) entries exactly when the node has at most one child or lists itself first |
| GltfReaders.WalkRootAsWritten | sombra-engine/src/se/loaders/GLTFReader.cpp:921-945 | the walk below one root with the pushes as written: it keeps one slot per node and only adds scene nodes, an out-of-range outcome names an id past the nodes, and the dereference of a missing parent scene node is recorded as NoParentNode of a real node id |
| GltfReaders.AsWrittenWalkMissesParent | sombra-engine/src/se/loaders/GLTFReader.cpp:924-945 | a root with two leaf children in a first scene: as written the second child is pushed under the first, popped first, and its parent has no scene node yet, so the walk dereferences a null slot; the intended entries put both children under the root |
| GltfReaders.ChildIds | sombra-engine/src/se/loaders/GLTFReader.cpp:927-936 | definition: the glTF nodes of the scene nodes made under scene node k, in the order made |
| GltfReaders.ChildrenCounted | sombra-engine/src/se/loaders/GLTFReader.cpp:927-940 | definition: under every scene node hang exactly the children its glTF node lists, each as often as listed (multisets) |
| GltfReaders.ChildIdsMember | sombra-engine/src/se/loaders/GLTFReader.cpp:927-936 | an id counted under scene node k is the glTF node of a scene node made with k as its parent |
| GltfReaders.CountedIsBuilt | sombra-engine/src/se/loaders/GLTFReader.cpp:927-940 | one scene node per child entry implies every child was made under a scene node of its parent (ChildrenBuilt) |
| GltfReaders.Cyclic | sombra-engine/src/se/loaders/GLTFReader.cpp:921-945 | definition: a glTF node from which a path along children returns to a node already on it |
| GltfReaders.CyclicChild | sombra-engine/src/se/loaders/GLTFReader.cpp:938-940 | a node that leads round a cycle exists and has a child that does too |
| GltfReaders.DoomedByPush | sombra-engine/src/se/loaders/GLTFReader.cpp:938-940 | pushing the children of such a node leaves an entry on the stack that leads round a cycle |
| GltfReaders.DoomStays | sombra-engine/src/se/loaders/GLTFReader.cpp:921-940 | once an entry on the stack leads round a cycle, popping one entry and pushing its children keeps one that does, so the walk can never empty its stack |
| GltfReaders.RemadeBelowIsCyclic | sombra-engine/src/se/loaders/GLTFReader.cpp:927-936 | a glTF node made again below a scene node of its own, as a child of a descendant, leads round a cycle |
| GltfReaders.Counting | sombra-engine/src/se/loaders/GLTFReader.cpp:921-945 | definition: the walk's counting invariant: some entry leads round a cycle, or every entry is charged to the scene node its parent's slot points at, the charges nest along the stack, and under every scene node the children made plus the children pending are the children listed |
| GltfReaders.CountingRootStep | sombra-engine/src/se/loaders/GLTFReader.cpp:921-940 | popping (-1, root) and pushing the root's children, charged to the root's scene node, starts the count on top of scenes whose children were counted |
| GltfReaders.CountingChildStep | sombra-engine/src/se/loaders/GLTFReader.cpp:924-940 | popping (p, c), making c under p's slot and pushing c's children keeps the counting invariant: a c made again below its own scene node leads round a cycle, otherwise c moves from pending to made under its owner |
| GltfReaders.CountingDone | sombra-engine/src/se/loaders/GLTFReader.cpp:921-945 | with the stack empty the counting invariant gives one scene node per child entry (ChildrenCounted) |
| GltfReaders.WalkCountingStarts | sombra-engine/src/se/loaders/GLTFReader.cpp:921-940 | the first pass of the walk, the root's pop, establishes the walk's state together with the counting invariant |
| GltfReaders.WalkCountingStep | sombra-engine/src/se/loaders/GLTFReader.cpp:924-940 | every later pass pops an entry under a node and keeps the walk's state together with the counting invariant |
| GltfReaders.PushKeepsParents | sombra-engine/src/se/loaders/GLTFReader.cpp:938-940 | after the root's pop, every entry pushed has a node as its parent |
| GltfReaders.WalkRoot | sombra-engine/src/se/loaders/GLTFReader.cpp:921-945 | the stack walk from one root keeps the tree shape and the slots, adds no root, and on success leaves every child of every node made built, with exactly one scene node per child entry under each scene node (ChildrenCounted); it spends one step per scene node made (the root's pop included), so it stops with Exhausted only when its steps are used up, and an id past the nodes that stops it is a child of the glTF node of a scene node it made |
| GltfReaders.PoppedChildOfMade | sombra-engine/src/se/loaders/GLTFReader.cpp:924-943 | the child of a stack entry under a parent is listed by the glTF node of a scene node already made, the one recorded for that parent |
| GltfReaders.StartRoot | sombra-engine/src/se/loaders/GLTFReader.cpp:918-922 | making a root scene node and pushing (-1, root) starts a walk in a consistent state |
| GltfReaders.InsertKeepsTree | sombra-engine/src/se/loaders/GLTFReader.cpp:928-936 | making a child under the recorded scene node of its parent keeps the tree shape and adds no root |
| GltfReaders.InsertKeepsRecords | sombra-engine/src/se/loaders/GLTFReader.cpp:928-936 | after making a child, the stack entries under a parent still name children of recorded parents |
| GltfReaders.InsertKeepsPending | sombra-engine/src/se/loaders/GLTFReader.cpp:928-940 | after making a child and pushing its children, every child of a made node is made or still on the stack |
| GltfReaders.RootsAreNodes | sombra-engine/src/se/loaders/GLTFReader.cpp:915-919 | when every scene node names a glTF node, so does every root |
| GltfReaders.BuiltIsClosed | sombra-engine/src/se/loaders/GLTFReader.cpp:938-940 | a scene whose children are all built is closed over the glTF nodes |
| GltfReaders.ScenesBuilt | sombra-engine/src/se/loaders/GLTFReader.cpp:248-256 | definition: each scene read is named as in the JSON, closed and tree-shaped, under every scene node hang exactly the children its glTF node lists, each as often as listed, and its roots are the JSON scene's node list in order |
| GltfReaders.BuildFailure | sombra-engine/src/se/loaders/GLTFReader.cpp:913-946 | definition: why the walk refuses a scene: Exhausted only after at least `fuel` scene nodes were made, or an id past the nodes that is the next root after the roots made, or a child listed by the glTF node of a scene node this walk made |
| GltfReaders.SceneRefused | sombra-engine/src/se/loaders/GLTFReader.cpp:913-946 | definition: some tree of scene nodes of this scene, under a prefix of its roots, explains the refusal as BuildFailure states |
| GltfReaders.ParseScenes | sombra-engine/src/se/loaders/GLTFReader.cpp:248-256 | the scenes are built in order; each one kept is named as in the JSON, has the JSON scene's nodes as its roots in order, is tree-shaped, has under every scene node exactly the children its glTF node lists (each as often as listed) and is closed over the nodes; the first refused stops the section, and SceneRefused gives a tree of that scene's nodes under a prefix of its roots that explains the refusal as BuildFailure states |
| GltfReaders.ReadBuffers | sombra-engine/src/se/loaders/GLTFReader.cpp:148-156 | reads every buffer, or stops at the first buffer refused: the buffers before it were all read to the items at their positions, and the refusal is that buffer's own reason |
| GltfReaders.ReadBufferViews | sombra-engine/src/se/loaders/GLTFReader.cpp:158-166 | every view read names an existing buffer; reads all views, or stops at the first refused, with every view before it read and the refusal that view's own reason |
| GltfReaders.ReadAccessors | sombra-engine/src/se/loaders/GLTFReader.cpp:168-176 | every accessor read names an existing buffer view; reads all accessors, or stops at the first one refused or whose parse throws (reason TypeError), with every accessor before it read |
| GltfReaders.ReadSamplers | sombra-engine/src/se/loaders/GLTFReader.cpp:178-186 | reads every sampler (as written), or stops at the first refused, with every sampler before it read and the refusal that sampler's own reason |
| GltfReaders.ReadElements | sombra-engine/src/se/loaders/GLTFReader.cpp:188-235 | an images, textures, materials, meshes or cameras section counts every element, or stops at the first that does not parse, with the elements before it counted |
| GltfReaders.ReadNodes | sombra-engine/src/se/loaders/GLTFReader.cpp:237-246 | every node read has an existing camera and mesh; reads all nodes, or stops at the first refused, with every node before it read and the refusal that node's own reason |
| GltfReaders.Throws | sombra-engine/src/se/loaders/GLTFReader.cpp:168-176 | definition: the failure is in the accessors section, at an accessor whose parse as written throws |
| GltfReaders.ReadBufferSections | sombra-engine/src/se/loaders/GLTFReader.cpp:148-186 | the four buffer-related sections leave consistent data: every index held names an existing element; on success every element was read (samplers as written); a failure is the first refused element of its section, or the first accessor whose parse throws, and every earlier section and every earlier element of that section was read (BufferSectionsUpTo) |
| GltfReaders.ReadCountedSections | sombra-engine/src/se/loaders/GLTFReader.cpp:188-235 | the five counted sections change only their own counts; on success every element is counted; a failure names the section and element refused, and every earlier counted section and earlier element was counted (CountedSectionsUpTo) |
| GltfReaders.ReadNodeSections | sombra-engine/src/se/loaders/GLTFReader.cpp:237-256 | the nodes and scenes leave every camera, mesh and scene node index in range and one scene node slot per node, and every scene read is built from its JSON scene as ScenesBuilt states; a failure is the first node or scene refused, with every node, or every node and earlier scene, read before it (NodeSectionsUpTo); a scene refusal is SceneRefused for that scene |
| GltfReaders.ReadSections | sombra-engine/src/se/loaders/GLTFReader.cpp:148-259 | the sections in order after the asset was accepted: all read in full (Complete: every scene built from its JSON scene as ScenesBuilt states, one scene node per child entry), or the first element refused reported with its section, position and reason, or the accessor whose parse throws, with everything before it read (ReadUpTo); a scene refusal is SceneRefused for that scene; the data read is consistent |
| GltfReaders.ParseGltf | sombra-engine/src/se/loaders/GLTFReader.cpp:137-259 | a missing asset and an unsupported version are reported exactly when they occur; otherwise every section is read in full (samplers as written, every scene built from its JSON scene with one scene node per child entry), or the first element refused is reported with its section, position and reason, or the accessor whose parse throws, and in that case every earlier section was read in full and every earlier element of the failing section was read (ReadUpTo); in every case the data read is consistent; a scene refusal is SceneRefused for that scene, built on the nodes read |

## Left out

- Floating-point rounding, NaN and infinities: every float is an exact `real`, and float literals are not reproduced.
- The numerics of the constraint solver (the eta vector, inverse-mass times Jacobian products and the velocity re-integration, sombra/src/se/physics/constraints/ConstraintManager.cpp:279-381): each Gauss-Seidel step receives its impulse change as the input `deltaLambda`; only the skip, the clamp and the solve marks are modelled.
- ConstraintManagers.ConstraintManager.AddConstraint: requires a constraint's two bodies to be distinct objects; with one body on both sides the source's removal would release the same slot twice.
- GJK and EPA inside FineCollisionDetector are oracles: their outcome for each collider pair is an input.
- The geometry helpers that have no body in the source (`getClosestPointInEdge`, `getClosestPointInPlane`, `glm::length` where a value is stored, the half-edge mesh of Polytope) are function-valued parameters; Polytope keeps faces as vertex triples instead of a half-edge mesh.
- Epa.Search: the `while (true)` loop runs at most `fuel` times; a run that would need more returns None, which the source never does.
- Epa.Polytope.GetClosestFaceToOrigin: the `while (true)` loop runs at most `fuel` times; a run that would need more returns None, which the source never does.
- Epa.Search: with no face left, the closest-face iterator stays at end() and passes the stop test against the float maximum, and the source dereferences it (faze-engine/src/fe/collision/EPACollisionDetector.cpp:81); the model returns None there. GetClosestFaceToOrigin inherits this.
- GltfReaders.BuildScene: the stack walk of parseScene stops with `Exhausted` once it has spent `fuel` steps, one per scene node made; the source never ends on a node graph with a cycle.
- GltfReaders.ElementOf: parseImage, parseTexture, parseMaterial, parseMesh, parsePrimitive and parseCamera are reduced to whether they succeed; the image file read, texture upload, VAO/VBO building and camera matrices are not modelled.
- GltfReaders.BufferOf: the buffer file read is a predicate `readable(uri, byteLength)`; its bytes are not kept. readJSON and the JSON library itself are not part of this model: the document is a record of optional fields.
- GltfReaders.NodeOf: the node transforms (matrix decomposition, rotation, scale, translation) are not modelled.
- GltfTables.CheckAssetVersion: the `std::istringstream` extraction is modelled for digit runs after white space: signs and integer overflow are not modelled, and a failed first extraction is read as no separator.
- GltfTables.DotWithoutRevision: for a version that ends after its dot, such as "2." or "2. ", the extraction of the revision fails at the end of the text and `assetRevision` keeps its uninitialised value (sombra-engine/src/se/loaders/GLTFReader.cpp:267-269, 275), so with an equal major number the source's answer is undefined; the model refuses the asset there.
- MathUtils.IPow: integers are unbounded, so the overflow of ipow's type T for large powers is not modelled.
- Edges.SameEdge: the Edge header in this model names its endpoints p1 and p2 (faze-engine/src/fe/collision/Edge.h:17-27), while the EPA file uses mP1 and mP2 (faze-engine/src/fe/collision/EPACollisionDetector.cpp:116); that later Edge header is not part of this model, and its operator== is taken to compare the same two endpoint pointers in order.
- CollisionWorlds.CleanDisjoint: update tests `ManifoldState::Disjoint` (sombra-engine/src/se/collision/CollisionWorld.cpp:31), a state of an older Manifold header that is not part of this model; the model reads it as the manifold's Intersecting bit being clear.
- CollisionWorlds.CleanDisjoint: addCollider does not refuse a collider already added (sombra-engine/src/se/collision/CollisionWorld.cpp:10-15), and with one collider added twice the broad phase reports both (a, b) and (b, a); both find the manifold stored under (a, b), so update lists that manifold twice (CollisionWorld.cpp:49-57). If it is Disjoint on the next update, the first pass of the clean loop erases its map node and the second pass reads `manifold->state` through the erased node (CollisionWorld.cpp:31), which is undefined behaviour. The model skips a key that is already erased (CleanedIgnoresRepeats), and CollisionWorlds.CollisionWorld.Update inherits this.
- ConstraintsSystems.Synchronize: the ConstraintManager the system registers with is abstracted to the multiset of constraints registered with it; the manager's own state is modelled separately by ConstraintManagers.
- GltfTables.MajorAloneUnsupported: for a version such as "2" the extraction of the dot fails and `dot` keeps its uninitialised value (sombra-engine/src/se/loaders/GLTFReader.cpp:267-269), so the source's answer is undefined; the model reads an unwritten dot as no dot and refuses the asset.
- GltfReaders.BuildScene: a child is made under the scene node last made for its parent's glTF node, and SceneTree states exactly that; parseScene inserts each child at the front of its parent's children (sombra-engine/src/se/loaders/GLTFReader.cpp:931-932), and the order of siblings is not modelled.
- TerrainColliders.TerrainCollider.GetOverlappingParts: where the range as written reads a height past the stored ones the source has undefined behaviour; the model checks that range up front and returns ReadsPastHeights instead of any triangle.
- GltfReaders.ParseGltf: when wrapS is absent and wrapT present, the source dereferences the end iterator (sombra-engine/src/se/loaders/GLTFReader.cpp:427); the value read there is the parameter `endValue`.
- GltfReaders.ReadAccessors: the type error an unknown component type or type throws (sombra-engine/src/se/loaders/GLTFReader.cpp:374 and 379) ends parseGLTF with the failure Threw; where load's caller catches it is not modelled.
- Indices are unbounded naturals: ids at or above 2^31, where the source's `int` stack entries of parseScene would wrap, are not modelled.
- TerrainColliders.Coord: for a grid with fewer than two samples on an axis the source divides 0 by 0; the model uses -0.5 there.
- ConstraintsSystems.Synchronize: when a manifold has lost every contact the source divides the average mass by zero in a loop over no entries; the model skips that step, which has the same effect on the entries.
- The GPU side of RendererTerrain (the Patch constructor's vertex buffers, `render`'s uniforms and the instanced draw call) is not modelled; DrawInstances returns what it would hand to the draw call.
- Layer3D::render and the Layer3D header are not modelled.
- InputManager's mouse handling (`doMouseInput`, `resetMousePosition`) and the window system are not modelled; the rotation of the forward vector by the entity's quaternion and `glm::length` are parameters, and kRunSpeed and kJumpSpeed are parameters because their header is not part of this model.
- ConstraintsSystem::update and the entity bookkeeping around the collision events are not modelled.
- FixedVectors: the iterator-range constructor, `rbegin`/`rend` and `data()` are not modelled; iterators are indices.
- RigidBody integration, mesh creation, audio and editor code are outside the modelled core.

## Findings

| source | as written | input that shows it | evidently intended | confidence | as-written member | corrected member |
|---|---|---|---|---|---|---|
| sombra-engine/src/se/collision/FineCollisionDetector.cpp:205-207 | addContact copies the 4-of-5 selection into the manifold through pointers into the same slots it is overwriting | four stored contacts at x = 0, 1, 2, 3 with the last deepest, and a new contact at x = 1.5: slot 0 receives contact 3, and slot 1 then copies slot 0, so contact 3 appears twice and contact 0 is lost | the four selected contacts are stored | not executed | FineCollision.AddContactAsWritten, FineCollision.AliasedCopyLosesContact | FineCollision.AddContact |
| faze-engine/src/fe/collision/EPACollisionDetector.cpp:38-40 | the weights (gamma, beta, alpha) are applied to the first, second and third vertex | the triangle (0,0,1), (1,0,1), (0,1,1) and the origin: the projection is the first vertex, the as-written interpolation gives the third | gamma weights the third vertex and alpha the first, so the interpolation gives back the projected point | not executed | Epa.InterpolateAsWritten, Epa.AsWrittenMisplacesProjection | Epa.Interpolate, Epa.ProjectionInterpolatesBack |
| sombra-engine/src/se/collision/TerrainCollider.cpp:49,53 | the upper x cell bound is clamped and guarded against the z sample count | a terrain of 2 × 3 samples and a box over the whole square: cell (1, 1) reads height index 6 of 6 | the x bound is compared with the x sample count | not executed | TerrainColliders.ClampAsWritten, TerrainColliders.AsWrittenReadsPastHeights | TerrainColliders.Clamp, TerrainColliders.GuardedCellsInGrid |
| sombra-engine/src/se/loaders/GLTFReader.cpp:427 | a present wrapT is read through the wrapS iterator | the sampler {"wrapS": 10497, "wrapT": 33071} is read as REPEAT in both directions | wrapT is read from its own property, giving CLAMP_TO_EDGE | not executed | GltfReaders.SamplerOfAsWritten, GltfReaders.AsWrittenWrapTCopiesWrapS | GltfReaders.SamplerOf, GltfReaders.SamplerWrapsFollowJson |
| sombra-engine/src/se/collision/TerrainCollider.cpp:49,51,53 | the same comparison with the z sample count on a terrain wider than deep | a terrain of 3 × 2 samples and a box over the whole square: the range x in [0, 3) is clamped to [0, 2), which fails the guard 2 < 2, so no triangle is handed out | the cells (0, 0) and (1, 0) are handed out | not executed | TerrainColliders.OverlappingPartsAsWritten, TerrainColliders.AsWrittenDropsWideTerrain | TerrainColliders.OverlappingParts, TerrainColliders.VisitedCells |
| sombra-engine/src/se/loaders/GLTFReader.cpp:374,379 | the refusal message of an unknown component type or type reads componentType as a string | the accessor {"bufferView": 0, "componentType": 1, "count": 1, "type": "SCALAR"}: componentType is a number, so the read throws a type error instead of refusing the accessor | the accessor is refused with "Invalid component type" and its code | not executed | GltfReaders.AccessorOf, GltfReaders.AccessorThrowsWhereRefusalIntended | GltfReaders.AccessorOfIntended |
| sombra-engine/src/se/loaders/GLTFReader.cpp:924-939 | parseScene binds the popped stack entry by reference, pops it, and the first push for the children overwrites that slot, so the later children are pushed with the first child as their parent | the nodes [{"children": [1, 2]}, {}, {}] and the scene {"nodes": [0]}: node 2 is pushed under node 1, popped before it, and node 1 has no scene node yet, so the parent slot dereferenced is null | every child is pushed with the popped node as its parent, and both children hang under node 0 | not executed | GltfReaders.WalkRootAsWritten, GltfReaders.AsWrittenWalkMissesParent | GltfReaders.BuildScene |

The operations that make up the collision and loading pipelines (addContact in the collide paths, calculate, getOverlapingParts, the samplers and accessors sections) follow the code as written; each corrected member stands beside its as-written partner with the intended property proved about it. The one exception is the scene walk: ParseGltf builds each scene with the corrected walk (GltfReaders.BuildScene, which reads the popped entry before popping it), because the walk as written dereferences a null parent slot on the inputs the Findings row names; GltfReaders.WalkRootAsWritten is its as-written half.
