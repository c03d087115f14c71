/** Inclusion constraints and their solutions.

    A points-to graph maps a node to the set of object nodes it may point to; a node that
    is not a key points to nothing, as in the analysis's own `ptsGraph`.  Everything the
    analysis does is judged against `Least`: the smallest points-to graph that satisfies a
    constraint list and gives the same set to all nodes that were merged into one.
 */
module Constraints {

  datatype ConstraintType = AddrOf | Copy | Load | Store

  /** dest = &src, dest = src, dest = *src, *dest = src. */
  datatype Constraint = Constraint(ty: ConstraintType, dest: nat, src: nat)

  type PtsGraph = map<nat, set<nat>>

  function At(p: PtsGraph, n: nat): set<nat> {
    if n in p then p[n] else {}
  }

  /** `rep[n]` is the node that stands for n; nodes past the end stand for themselves. */
  function Find(rep: seq<nat>, n: nat): nat {
    if n < |rep| then rep[n] else n
  }

  function Identity(size: nat): (rep: seq<nat>)
    ensures |rep| == size && forall n | 0 <= n < size :: rep[n] == n
  {
    seq(size, i => i)
  }

  ghost predicate Holds(p: PtsGraph, c: Constraint) {
    match c.ty
    case AddrOf => c.src in At(p, c.dest)
    case Copy => At(p, c.src) <= At(p, c.dest)
    case Load => forall o | o in At(p, c.src) :: At(p, o) <= At(p, c.dest)
    case Store => forall o | o in At(p, c.dest) :: At(p, c.src) <= At(p, o)
  }

  ghost predicate IsSolution(p: PtsGraph, cs: seq<Constraint>) {
    forall c | c in cs :: Holds(p, c)
  }

  /** p does not tell a node from its representative. */
  ghost predicate Respects(p: PtsGraph, rep: seq<nat>) {
    forall n: nat | n < |rep| :: At(p, n) == At(p, rep[n])
  }

  ghost predicate Below(p: PtsGraph, q: PtsGraph) {
    forall n: nat :: At(p, n) <= At(q, n)
  }

  predicate InRange(cs: seq<Constraint>, size: nat) {
    forall c | c in cs :: c.dest < size && c.src < size
  }

  /** Representatives are nodes and stand for themselves. */
  predicate IsRep(rep: seq<nat>) {
    forall n | 0 <= n < |rep| :: rep[n] < |rep| && rep[rep[n]] == rep[n]
  }

  ghost predicate Candidate(q: PtsGraph, cs: seq<Constraint>, rep: seq<nat>) {
    IsSolution(q, cs) && Respects(q, rep)
  }

  /** Every solution that respects the merges says that n may point to o. */
  ghost predicate Forced(cs: seq<Constraint>, rep: seq<nat>, n: nat, o: nat) {
    forall q: PtsGraph | Candidate(q, cs, rep) :: o in At(q, n)
  }

  ghost function ForcedPts(cs: seq<Constraint>, rep: seq<nat>, n: nat): set<nat> {
    set o: nat | o < |rep| && Forced(cs, rep, n, o)
  }

  /** What every solution that respects the merges agrees on. */
  ghost function Least(cs: seq<Constraint>, rep: seq<nat>): PtsGraph {
    map n: nat | n < |rep| :: ForcedPts(cs, rep, n)
  }

  lemma LeastAt(cs: seq<Constraint>, rep: seq<nat>, n: nat, o: nat)
    requires n < |rep|
    ensures o in At(Least(cs, rep), n) <==> o < |rep| && Forced(cs, rep, n, o)
  {
  }

  /** The least solution is a solution that respects the merges. */
  lemma LeastIsSolution(cs: seq<Constraint>, rep: seq<nat>)
    requires InRange(cs, |rep|) && IsRep(rep)
    ensures IsSolution(Least(cs, rep), cs)
    ensures Respects(Least(cs, rep), rep)
  {
    var l := Least(cs, rep);
    forall c | c in cs ensures Holds(l, c) {
      match c.ty
      case AddrOf =>
        forall q | Candidate(q, cs, rep) ensures c.src in At(q, c.dest) {
          assert Holds(q, c);
        }
      case Copy =>
        forall o | o in At(l, c.src) ensures o in At(l, c.dest) {
          LeastAt(cs, rep, c.src, o);
          forall q | Candidate(q, cs, rep) ensures o in At(q, c.dest) {
            assert Holds(q, c);
          }
        }
      case Load =>
        forall o, x | o in At(l, c.src) && x in At(l, o) ensures x in At(l, c.dest) {
          forall q | Candidate(q, cs, rep) ensures x in At(q, c.dest) {
            assert Holds(q, c);
          }
        }
      case Store =>
        forall o, x | o in At(l, c.dest) && x in At(l, c.src) ensures x in At(l, o) {
          forall q | Candidate(q, cs, rep) ensures x in At(q, o) {
            assert Holds(q, c);
          }
        }
    }
    forall n: nat | n < |rep| ensures At(l, n) == At(l, rep[n]) {
      forall o: nat ensures o in At(l, n) <==> o in At(l, rep[n]) {
        LeastAt(cs, rep, n, o);
        LeastAt(cs, rep, rep[n], o);
      }
    }
  }

  /** No solution that respects the merges is smaller at any node. */
  lemma LeastIsLeast(cs: seq<Constraint>, rep: seq<nat>, q: PtsGraph)
    requires Candidate(q, cs, rep)
    ensures Below(Least(cs, rep), q)
  {
    forall n: nat, o: nat | o in At(Least(cs, rep), n) ensures o in At(q, n) {
      LeastAt(cs, rep, n, o);
    }
  }

  /** The objects whose address some constraint takes. */
  function AddressTaken(cs: seq<Constraint>): set<nat> {
    set c | c in cs && c.ty.AddrOf? :: c.src
  }

  /** The least solution points to no other objects. */
  lemma LeastPointsToTaken(cs: seq<Constraint>, rep: seq<nat>, n: nat)
    requires InRange(cs, |rep|) && IsRep(rep)
    ensures At(Least(cs, rep), n) <= AddressTaken(cs)
  {
    var l := Least(cs, rep);
    var q: PtsGraph := map m: nat | m < |rep| :: At(l, m) * AddressTaken(cs);
    LeastIsSolution(cs, rep);
    hide Least;
    forall m: nat ensures At(q, m) == (if m < |rep| then At(l, m) * AddressTaken(cs) else {}) {
    }
    forall c | c in cs ensures Holds(q, c) {
      assert Holds(l, c);
    }
    LeastIsLeast(cs, rep, q);
  }
}
