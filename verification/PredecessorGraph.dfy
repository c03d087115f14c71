/** The predecessor graph of the constraint optimizers, and the sources of a node.

    Nodes below `size` are the VAR nodes; n + size is the REF node of n, standing for what *n
    holds; n + 2 * size is its ADR node, standing for &n.  An edge leads from a node to one it
    takes values from.
 */
module PredecessorGraphs {
  import opened Constraints
  import opened Graphs

  /** The edges a constraint adds, the implicit ones included. */
  predicate EdgeOf(c: Constraint, size: nat, x: nat, y: nat) {
    match c.ty
    case AddrOf => (x == c.dest && y == c.src + 2 * size) || (x == c.dest + size && y == c.src)
    case Load => x == c.dest && y == c.src + size
    case Store => x == c.dest + size && y == c.src
    case Copy => (x == c.dest && y == c.src) || (x == c.dest + size && y == c.src + size)
  }

  predicate HasEdge(cs: seq<Constraint>, size: nat, x: nat, y: nat) {
    exists c | c in cs :: EdgeOf(c, size, x, y)
  }

  function Preds(cs: seq<Constraint>, size: nat, x: nat): set<nat> {
    set y: nat | y < 3 * size && HasEdge(cs, size, x, y)
  }

  function PredGraph(cs: seq<Constraint>, size: nat): Graph {
    map x: nat | x < 3 * size :: Preds(cs, size, x)
  }

  lemma PredGraphClosed(cs: seq<Constraint>, size: nat)
    ensures Closed(PredGraph(cs, size))
  {
  }

  /** The edges of g from the VAR and the REF node of a to the nodes of b, constraint by constraint. */
  ghost predicate PredsSay(cs: seq<Constraint>, size: nat, g: Graph, a: nat, b: nat) {
    && (b in Succ(g, a) <==> Constraint(Copy, a, b) in cs)
    && (b + size in Succ(g, a) <==> Constraint(Load, a, b) in cs)
    && (b + 2 * size in Succ(g, a) <==> Constraint(AddrOf, a, b) in cs)
    && (b in Succ(g, a + size) <==> Constraint(Store, a, b) in cs || Constraint(AddrOf, a, b) in cs)
    && (b + size in Succ(g, a + size) <==> Constraint(Copy, a, b) in cs)
    && b + 2 * size !in Succ(g, a + size)
    && Succ(g, a + 2 * size) == {}
  }

  lemma PredsAre(cs: seq<Constraint>, size: nat, g: Graph, a: nat, b: nat)
    requires InRange(cs, size) && a < size && b < size
    requires forall x: nat | x < 3 * size :: Succ(g, x) == Preds(cs, size, x)
    ensures PredsSay(cs, size, g, a, b)
  {
    PredsOfVar(cs, size, a, b);
    PredsOfRef(cs, size, a, b);
    AdrHasNoPreds(cs, size, a);
    hide Preds, InRange;
  }

  lemma PredsOfVar(cs: seq<Constraint>, size: nat, a: nat, b: nat)
    requires InRange(cs, size) && a < size && b < size
    ensures b in Preds(cs, size, a) <==> Constraint(Copy, a, b) in cs
    ensures b + size in Preds(cs, size, a) <==> Constraint(Load, a, b) in cs
    ensures b + 2 * size in Preds(cs, size, a) <==> Constraint(AddrOf, a, b) in cs
  {
    EdgeIs(cs, size, a, b, Constraint(Copy, a, b));
    EdgeIs(cs, size, a, b + size, Constraint(Load, a, b));
    EdgeIs(cs, size, a, b + 2 * size, Constraint(AddrOf, a, b));
    if c :| c in cs && EdgeOf(c, size, a, b) {
      assert c == Constraint(Copy, a, b);
    }
    if c :| c in cs && EdgeOf(c, size, a, b + size) {
      assert c == Constraint(Load, a, b);
    }
    if c :| c in cs && EdgeOf(c, size, a, b + 2 * size) {
      assert c == Constraint(AddrOf, a, b);
    }
  }

  lemma EdgeIs(cs: seq<Constraint>, size: nat, x: nat, y: nat, c: Constraint)
    requires EdgeOf(c, size, x, y) && y < 3 * size
    ensures c in cs ==> y in Preds(cs, size, x)
  {
  }

  lemma PredsOfRef(cs: seq<Constraint>, size: nat, a: nat, b: nat)
    requires InRange(cs, size) && a < size && b < size
    ensures b in Preds(cs, size, a + size) <==> Constraint(Store, a, b) in cs || Constraint(AddrOf, a, b) in cs
    ensures b + size in Preds(cs, size, a + size) <==> Constraint(Copy, a, b) in cs
    ensures b + 2 * size !in Preds(cs, size, a + size)
  {
    EdgeIs(cs, size, a + size, b, Constraint(Store, a, b));
    EdgeIs(cs, size, a + size, b, Constraint(AddrOf, a, b));
    EdgeIs(cs, size, a + size, b + size, Constraint(Copy, a, b));
    if c :| c in cs && EdgeOf(c, size, a + size, b) {
      assert c == Constraint(Store, a, b) || c == Constraint(AddrOf, a, b);
    }
    if c :| c in cs && EdgeOf(c, size, a + size, b + size) {
      assert c == Constraint(Copy, a, b);
    }
  }

  /** An ADR node takes values from nowhere, so it is never on a cycle. */
  lemma AdrHasNoPreds(cs: seq<Constraint>, size: nat, k: nat)
    requires InRange(cs, size)
    ensures Preds(cs, size, k + 2 * size) == {}
  {
  }

  lemma AdrIsAlone(cs: seq<Constraint>, size: nat, k: nat, x: nat)
    requires InRange(cs, size) && k < size && Reaches(PredGraph(cs, size), k + 2 * size, x)
    ensures x == k + 2 * size
  {
    AdrHasNoPreds(cs, size, k);
    ReachesInside(PredGraph(cs, size), {k + 2 * size}, k + 2 * size, x);
  }

  /** A node whose value the constraints on it do not determine: a REF or ADR node, or a node
      whose address is taken. */
  predicate IsIndirect(cs: seq<Constraint>, size: nat, x: nat) {
    x >= size || x in AddressTaken(cs)
  }

  /** A component with such a node. */
  predicate Indirect(cs: seq<Constraint>, size: nat, c: Component) {
    exists x | x in Nodes(c) :: IsIndirect(cs, size, x)
  }

  /** The nodes outside c that c takes values from. */
  function OutPreds(cs: seq<Constraint>, size: nat, c: Component): set<nat> {
    set x, y | x in Nodes(c) && y in Preds(cs, size, x) && y !in Nodes(c) :: y
  }

  /** The indirect components, by root, whose values flow into x through direct components. */
  function Sources(cs: seq<Constraint>, size: nat, log: seq<Component>, x: nat): set<nat>
    decreases |log|
  {
    if log == [] then {} else
    var front, c := log[..|log| - 1], log[|log| - 1];
    if x !in Nodes(c) then Sources(cs, size, front, x)
    else if Indirect(cs, size, c) then {c.root}
    else set p, s | p in OutPreds(cs, size, c) && s in Sources(cs, size, front, p) :: s
  }

  lemma {:induction false} SourcesInDone(cs: seq<Constraint>, size: nat, log: seq<Component>, x: nat)
    requires Sources(cs, size, log, x) != {}
    ensures x in Done(log)
    decreases |log|
  {
    if x !in Nodes(log[|log| - 1]) {
      SourcesInDone(cs, size, log[..|log| - 1], x);
    }
  }

  /** The component a node was reported in, and what was reported before it. */
  lemma {:induction false} Where(cs: seq<Constraint>, size: nat, log: seq<Component>, x: nat) returns (i: nat)
    requires SccOrder(PredGraph(cs, size), log) && x in Done(log)
    ensures i < |log| && x in Nodes(log[i])
    ensures SccOrder(PredGraph(cs, size), log[..i]) && ComesNext(PredGraph(cs, size), Done(log[..i]), log[i])
    ensures Done(log[..i]) <= Done(log)
    ensures Sources(cs, size, log, x) == Sources(cs, size, log[..i + 1], x)
    ensures forall y | y in Done(log[..i]) + Nodes(log[i]) :: Sources(cs, size, log, y) == Sources(cs, size, log[..i + 1], y)
  {
    if x in Nodes(log[|log| - 1]) {
      i := |log| - 1;
      assert log[..i + 1] == log;
    } else {
      var front := log[..|log| - 1];
      assert SccOrder(PredGraph(cs, size), front) && Nodes(log[|log| - 1]) !! Done(front);
      hide SccOrder, ComesNext, OutPreds, Indirect, Nodes, PredGraph;
      i := Where(cs, size, front, x);
      assert front[..i] == log[..i] && front[..i + 1] == log[..i + 1];
      forall y | y in Done(log[..i]) + Nodes(log[i]) ensures Sources(cs, size, log, y) == Sources(cs, size, front, y) {
        assert y in Done(front) by {
          if y in Nodes(log[i]) {
            InDone(front, i, y);
          }
        }
      }
      hide Sources, Done;
    }
  }

  /** Sources, unfolded at the component c of x. */
  ghost predicate SourcesUnfold(cs: seq<Constraint>, size: nat, log: seq<Component>, x: nat, c: Component) {
    && x in Nodes(c) && Nodes(c) <= Done(log) && OutPreds(cs, size, c) <= Done(log)
    && (forall y :: y in Nodes(c) <==> y in PredGraph(cs, size) && Mutual(PredGraph(cs, size), c.root, y))
    && (forall y | y in Nodes(c) :: Sources(cs, size, log, y) == Sources(cs, size, log, x))
    && (Indirect(cs, size, c) ==> Sources(cs, size, log, x) == {c.root})
    && (!Indirect(cs, size, c) ==>
          forall s :: s in Sources(cs, size, log, x) <==> exists p :: p in OutPreds(cs, size, c) && s in Sources(cs, size, log, p))
  }

  lemma SourcesAt(cs: seq<Constraint>, size: nat, log: seq<Component>, x: nat) returns (c: Component, i: nat)
    requires SccOrder(PredGraph(cs, size), log) && x in Done(log)
    ensures i < |log| && c == log[i] && SourcesUnfold(cs, size, log, x, c)
    ensures OutPreds(cs, size, c) <= Done(log[..i]) && Done(log[..i]) <= Done(log)
  {
    i := Where(cs, size, log, x);
    c := log[i];
    var upto := log[..i + 1];
    assert upto[..i] == log[..i] && upto[i] == c;
    forall p | p in OutPreds(cs, size, c) ensures p in Done(log[..i]) && Sources(cs, size, log, p) == Sources(cs, size, log[..i], p) {
      var z :| z in Nodes(c) && p in Preds(cs, size, z) && p !in Nodes(c);
      assert p in Succ(PredGraph(cs, size), z);
    }
    forall y | y in Nodes(c) ensures y in Done(log) {
      InDone(log, i, y);
    }
    forall y | y in Nodes(c) ensures Sources(cs, size, log, y) == Sources(cs, size, upto, y) {
    }
    hide SccOrder, Mutual;
    if !Indirect(cs, size, c) {
      forall s ensures s in Sources(cs, size, log, x) <==> exists p :: p in OutPreds(cs, size, c) && s in Sources(cs, size, log, p) {
        if s in Sources(cs, size, log, x) {
          var p :| p in OutPreds(cs, size, c) && s in Sources(cs, size, log[..i], p);
        }
      }
    }
  }

  lemma RootIsNotAdr(cs: seq<Constraint>, size: nat, c: Component, x: nat)
    requires InRange(cs, size) && x in Nodes(c) && x < 2 * size
    requires forall y :: y in Nodes(c) <==> y in PredGraph(cs, size) && Mutual(PredGraph(cs, size), c.root, y)
    ensures c.root < 2 * size
  {
    assert c.root in Nodes(c);
    if c.root >= 2 * size {
      AdrIsAlone(cs, size, c.root - 2 * size, x);
    }
  }

  /** An ADR node is its own source. */
  lemma AdrSources(cs: seq<Constraint>, size: nat, log: seq<Component>, k: nat)
    requires InRange(cs, size) && SccOrder(PredGraph(cs, size), log) && k < size && k + 2 * size in Done(log)
    ensures Sources(cs, size, log, k + 2 * size) == {k + 2 * size}
  {
    var c, i := SourcesAt(cs, size, log, k + 2 * size);
    assert c.root in Nodes(c);
    AdrIsAlone(cs, size, k, c.root);
    assert Indirect(cs, size, c);
  }

  /** A REF node, or a VAR node whose address is taken, has one source, and that is no ADR node. */
  lemma IndirectSources(cs: seq<Constraint>, size: nat, log: seq<Component>, x: nat)
    requires InRange(cs, size) && SccOrder(PredGraph(cs, size), log) && x in Done(log)
    requires x < 2 * size && IsIndirect(cs, size, x)
    ensures exists r: nat :: r < 2 * size && Sources(cs, size, log, x) == {r}
  {
    var c, i := SourcesAt(cs, size, log, x);
    RootIsNotAdr(cs, size, c, x);
    assert Indirect(cs, size, c);
  }

  /** The sources of a node flow along its edges, except into a component that has a value of its own. */
  lemma EdgeSources(cs: seq<Constraint>, size: nat, log: seq<Component>, x: nat, y: nat)
    requires InRange(cs, size) && SccOrder(PredGraph(cs, size), log) && x in Done(log) && y in Preds(cs, size, x)
    ensures y in Done(log)
    ensures Sources(cs, size, log, y) <= Sources(cs, size, log, x) || exists r: nat :: r < 2 * size && Sources(cs, size, log, x) == {r}
  {
    var c, i := SourcesAt(cs, size, log, x);
    DoneClosed(PredGraph(cs, size), log);
    assert y in Succ(PredGraph(cs, size), x);
    if Indirect(cs, size, c) {
      assert x < 2 * size;
      RootIsNotAdr(cs, size, c, x);
    } else if y !in Nodes(c) {
      assert y in OutPreds(cs, size, c);
    }
  }

  /** Within a direct component values flow along copies only. */
  lemma {:induction false} CopyFlow(cs: seq<Constraint>, size: nat, c: Component, g: PtsGraph, p: seq<nat>)
    requires IsPath(PredGraph(cs, size), p) && !Indirect(cs, size, c) && InRange(cs, size) && IsSolution(g, cs)
    requires forall i | 0 <= i < |p| :: p[i] in Nodes(c)
    ensures At(g, p[|p| - 1]) <= At(g, p[0])
    decreases |p|
  {
    if |p| > 1 {
      assert p[1] in Succ(PredGraph(cs, size), p[0]);
      var b :| b in cs && EdgeOf(b, size, p[0], p[1]);
      assert b.ty.Copy? && Holds(g, b);
      var q := p[1..];
      assert forall i | 0 <= i < |q| :: q[i] == p[i + 1];
      CopyFlow(cs, size, c, g, q);
    }
  }

  lemma DirectFlow(cs: seq<Constraint>, size: nat, c: Component, g: PtsGraph, x: nat, z: nat)
    requires !Indirect(cs, size, c) && InRange(cs, size) && IsSolution(g, cs) && x in Nodes(c) && z in Nodes(c)
    requires forall y :: y in Nodes(c) <==> y in PredGraph(cs, size) && Mutual(PredGraph(cs, size), c.root, y)
    ensures At(g, z) <= At(g, x)
  {
    var gr := PredGraph(cs, size);
    ReachesTrans(gr, x, c.root, z);
    var p: seq<nat> :| Joins(gr, p, x, z);
    forall i | 0 <= i < |p| ensures p[i] in Nodes(c) {
      OnTheWay(gr, p, i);
      ReachesTrans(gr, c.root, x, p[i]);
      ReachesTrans(gr, p[i], z, c.root);
    }
    CopyFlow(cs, size, c, g, p);
  }

  lemma EdgeBrings(cs: seq<Constraint>, size: nat, z: nat, p: nat, k: nat, g: PtsGraph)
    requires InRange(cs, size) && IsSolution(g, cs) && z < size && p in Preds(cs, size, z)
    requires p == k + 2 * size || (p < size && k in At(g, p))
    ensures k in At(g, z)
  {
    var b :| b in cs && EdgeOf(b, size, z, p);
    assert Holds(g, b);
  }

  lemma OutPredFrom(cs: seq<Constraint>, size: nat, c: Component, p: nat) returns (z: nat)
    requires p in OutPreds(cs, size, c)
    ensures z in Nodes(c) && p in Preds(cs, size, z) && p !in Nodes(c)
    ensures !Indirect(cs, size, c) ==> z < size
  {
    z :| z in Nodes(c) && p in Preds(cs, size, z) && p !in Nodes(c);
  }

  /** The node outside a direct component through which a source reaches it. */
  lemma SourceBefore(cs: seq<Constraint>, size: nat, log: seq<Component>, x: nat, s: nat) returns (p: nat)
    requires log != [] && s in Sources(cs, size, log, x)
    requires x in Nodes(log[|log| - 1]) && !Indirect(cs, size, log[|log| - 1])
    ensures p in OutPreds(cs, size, log[|log| - 1]) && s in Sources(cs, size, log[..|log| - 1], p)
  {
    hide Indirect, OutPreds, Nodes;
    p :| p in OutPreds(cs, size, log[|log| - 1]) && s in Sources(cs, size, log[..|log| - 1], p);
  }

  lemma ListedLast(g: Graph, log: seq<Component>)
    requires SccOrder(g, log) && log != []
    ensures SccOrder(g, log[..|log| - 1]) && ComesNext(g, Done(log[..|log| - 1]), log[|log| - 1])
  {
  }

  /** A node that an ADR node flows into points to that object in every solution. */
  lemma {:induction false} AdrFlows(cs: seq<Constraint>, size: nat, log: seq<Component>, x: nat, k: nat, g: PtsGraph)
    requires InRange(cs, size) && SccOrder(PredGraph(cs, size), log) && k < size && IsSolution(g, cs)
    requires k + 2 * size in Sources(cs, size, log, x)
    ensures x == k + 2 * size || (x < size && k in At(g, x))
    decreases |log|
  {
    hide SccOrder, IsSolution, InRange, ComesNext, Preds, Indirect, Done, At, Mutual;
    var front, c := log[..|log| - 1], log[|log| - 1];
    ListedLast(PredGraph(cs, size), log);
    if x !in Nodes(c) {
      AdrFlows(cs, size, front, x, k, g);
    } else if Indirect(cs, size, c) {
      assert c.root == k + 2 * size;
      NextIsAdr(cs, size, Done(front), c, x, k);
    } else {
      var p := SourceBefore(cs, size, log, x, k + 2 * size);
      var z := OutPredFrom(cs, size, c, p);
      hide Sources, OutPreds, Nodes;
      AdrFlows(cs, size, front, p, k, g);
      EdgeBrings(cs, size, z, p, k, g);
      DirectFlowNext(cs, size, Done(front), c, g, x, z);
    }
  }

  lemma DirectFlowNext(cs: seq<Constraint>, size: nat, done: set<nat>, c: Component, g: PtsGraph, x: nat, z: nat)
    requires !Indirect(cs, size, c) && InRange(cs, size) && IsSolution(g, cs) && x in Nodes(c) && z in Nodes(c)
    requires ComesNext(PredGraph(cs, size), done, c)
    ensures At(g, z) <= At(g, x) && x < size
  {
    DirectFlow(cs, size, c, g, x, z);
  }

  /** An ADR node flows on only if a constraint takes that address. */
  lemma {:induction false} AdrIsTaken(cs: seq<Constraint>, size: nat, log: seq<Component>, x: nat, k: nat)
    requires InRange(cs, size) && SccOrder(PredGraph(cs, size), log) && k < size
    requires k + 2 * size in Sources(cs, size, log, x)
    ensures x == k + 2 * size || k in AddressTaken(cs)
    decreases |log|
  {
    hide SccOrder, AddressTaken, InRange, ComesNext, Preds, Indirect, Done;
    var front, c := log[..|log| - 1], log[|log| - 1];
    ListedLast(PredGraph(cs, size), log);
    if x !in Nodes(c) {
      AdrIsTaken(cs, size, front, x, k);
    } else if Indirect(cs, size, c) {
      assert c.root == k + 2 * size;
      NextIsAdr(cs, size, Done(front), c, x, k);
    } else {
      var p := SourceBefore(cs, size, log, x, k + 2 * size);
      var z := OutPredFrom(cs, size, c, p);
      hide Sources, OutPreds, Nodes;
      AdrIsTaken(cs, size, front, p, k);
      EdgeTakes(cs, size, z, k);
    }
  }

  lemma NextIsAdr(cs: seq<Constraint>, size: nat, done: set<nat>, c: Component, x: nat, k: nat)
    requires InRange(cs, size) && ComesNext(PredGraph(cs, size), done, c) && k < size && c.root == k + 2 * size
    requires x in Nodes(c)
    ensures x == k + 2 * size
  {
    AdrIsAlone(cs, size, k, x);
  }

  lemma EdgeTakes(cs: seq<Constraint>, size: nat, z: nat, k: nat)
    requires InRange(cs, size) && k < size && z < size
    ensures k + 2 * size in Preds(cs, size, z) ==> k in AddressTaken(cs)
  {
    if k + 2 * size in Preds(cs, size, z) {
      var b :| b in cs && EdgeOf(b, size, z, k + 2 * size);
    }
  }

  /** An object whose address is taken was visited, if every node with an edge was. */
  lemma TakenIsDone(cs: seq<Constraint>, size: nat, log: seq<Component>, o: nat)
    requires InRange(cs, size) && SccOrder(PredGraph(cs, size), log) && o in AddressTaken(cs)
    requires forall x: nat | x < 3 * size && Preds(cs, size, x) != {} :: x in Done(log)
    ensures o < size && o in Done(log)
  {
    var c :| c in cs && c.ty.AddrOf? && c.src == o;
    assert EdgeOf(c, size, c.dest + size, o);
    assert o in Preds(cs, size, c.dest + size);
    EdgeSources(cs, size, log, c.dest + size, o);
  }
}