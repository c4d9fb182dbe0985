/** collision::Manifold (sombra-engine Manifold.h): the contact manifold between two
    colliders, with a two-flag state and at most kMaxContacts contacts. The record is
    a value here; the FixedVector<Contact, 4> it holds is a sequence whose length is
    bounded by `Valid`. */
module Manifolds {
  import opened Geometry
  import opened Wrappers

  /** Colliders are referred to by identity; `None` is the null pointer. */
  type ColliderId = nat
  type ColliderRef = Option<ColliderId>

  /** The contact data the collision code reads and writes: penetration depth, the
      contact point on each collider in world space and in that collider's local
      space, and the contact normal. */
  datatype Contact = Contact(
    penetration: real,
    worldPosition0: Vec3, worldPosition1: Vec3,
    localPosition0: Vec3, localPosition1: Vec3,
    normal: Vec3)

  /** The std::bitset<State::Count> with its two flags, Intersecting and Updated. */
  datatype State = State(intersecting: bool, updated: bool)

  /** kMaxContacts. */
  const MaxContacts: nat := 4

  datatype Manifold = Manifold(
    state: State,
    collider0: ColliderRef,
    collider1: ColliderRef,
    contacts: seq<Contact>)

  /** The FixedVector capacity bound. */
  predicate Valid(m: Manifold) {
    |m.contacts| <= MaxContacts
  }

  /** Manifold(c1, c2): colliders in the given order, empty contacts, no flag set. */
  function NewManifold(c1: ColliderRef, c2: ColliderRef): (m: Manifold)
    ensures Valid(m) && m.contacts == []
    ensures !m.state.intersecting && !m.state.updated
    ensures m.collider0 == c1 && m.collider1 == c2
  {
    Manifold(State(false, false), c1, c2, [])
  }
}
