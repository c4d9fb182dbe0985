/** collision::Edge (faze-engine Edge.h): a directed edge between two support points,
    held by pointer. A support point is referred to here by its address, a
    `SupportPointRef`; two edges are equal exactly when they hold the same two
    addresses in the same order, whatever the points' positions. */
module Edges {
  import opened Geometry

  /** The address of a SupportPoint (its slot in the polytope's vertex store). */
  type SupportPointRef = nat

  datatype Edge = Edge(p1: SupportPointRef, p2: SupportPointRef)

  /** Edge::operator==: the first pointers match and the second pointers match. */
  predicate SameEdge(e: Edge, other: Edge) {
    e.p1 == other.p1 && e.p2 == other.p2
  }

  /** operator== is exactly equality of the two pointer pairs. */
  lemma SameEdgeIsIdentity(e: Edge, other: Edge)
    ensures SameEdge(e, other) <==> e == other
  {
  }

  /** Direction matters: an edge equals its reversal only when it is a loop on one
      point. */
  lemma SameEdgeDirected(a: SupportPointRef, b: SupportPointRef)
    ensures SameEdge(Edge(a, b), Edge(b, a)) <==> a == b
  {
  }

  /** operator== is an equivalence. */
  lemma SameEdgeEquivalence(e1: Edge, e2: Edge, e3: Edge)
    ensures SameEdge(e1, e1)
    ensures SameEdge(e1, e2) ==> SameEdge(e2, e1)
    ensures SameEdge(e1, e2) && SameEdge(e2, e3) ==> SameEdge(e1, e3)
  {
  }

  /** Identity, not geometry: two distinct support points at the same position give
      different edges. */
  lemma IdentityNotGeometry(position: SupportPointRef -> Vec3, a: SupportPointRef, b: SupportPointRef, c: SupportPointRef)
    requires a != b && position(a) == position(b)
    ensures !SameEdge(Edge(a, c), Edge(b, c))
    ensures !SameEdge(Edge(c, a), Edge(c, b))
  {
  }
}
