/** How values flow through a constraint list when the cells that a pointer points to are taken for one place. */
module OfflineFlows {
  import opened Constraints

  /** A node, or all that a node points to. */
  datatype Place = Var(n: nat) | Deref(n: nat)

  /** One constraint moves values from x to y. */
  predicate Goes(cs: seq<Constraint>, x: Place, y: Place) {
    match (x, y)
    case (Var(s), Var(d)) => Constraint(Copy, d, s) in cs
    case (Deref(p), Var(d)) => Constraint(Load, d, p) in cs
    case (Var(s), Deref(p)) => Constraint(Store, p, s) in cs
    case (Deref(_), Deref(_)) => false
  }

  ghost predicate IsWay(cs: seq<Constraint>, w: seq<Place>) {
    w != [] && forall i | 0 <= i < |w| - 1 :: Goes(cs, w[i], w[i + 1])
  }

  ghost predicate Way(cs: seq<Constraint>, x: Place, y: Place) {
    exists w :: IsWay(cs, w) && w[0] == x && w[|w| - 1] == y
  }

  /** There and back again. */
  ghost predicate Round(cs: seq<Constraint>, x: Place, y: Place) {
    Way(cs, x, y) && Way(cs, y, x)
  }
}
