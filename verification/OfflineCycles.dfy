/** Offline hybrid cycle detection: which pointers' targets can be collapsed with a node while solving. */
module OfflineCycles {
  import opened Constraints
  import opened NodeFactory
  import opened Graphs
  import opened CycleDetectors
  import opened PredecessorGraphs
  import opened PointerEquivalence
  import opened OfflineFlows

  // Nodes below size are VAR nodes, n + size is the REF node of n.  Values flow along the edges.

  predicate OfflineEdge(c: Constraint, size: nat, x: nat, y: nat) {
    match c.ty
    case AddrOf => false
    case Load => x == c.src + size && y == c.dest
    case Store => x == c.src && y == c.dest + size
    case Copy => x == c.src && y == c.dest
  }

  predicate HasOfflineEdge(cs: seq<Constraint>, size: nat, x: nat, y: nat) {
    exists c | c in cs :: OfflineEdge(c, size, x, y)
  }

  function OfflineSuccs(cs: seq<Constraint>, size: nat, x: nat): set<nat> {
    set y: nat | y < 2 * size && HasOfflineEdge(cs, size, x, y)
  }

  function OfflineGraph(cs: seq<Constraint>, size: nat): Graph {
    map x: nat | x < 2 * size :: OfflineSuccs(cs, size, x)
  }

  datatype Hcd = Hcd(graph: Graph, scc: set<nat>, collapseMap: map<nat, nat>, mergeMap: map<nat, nat>)

  function RepStep(s: Hcd, i: nat): (Hcd, nat) {
    (s.(graph := if i in s.graph then s.graph else s.graph[i := {}]), i)
  }

  function CycleStep(s: Hcd, node: nat): Hcd {
    s.(scc := s.scc + {node})
  }

  /** processCycleRepNode. */
  function RepNodeStep(size: nat, s: Hcd, node: nat): Hcd {
    if s.scc == {} then s else
    var scc := s.scc + {node};
    var rep := Min(scc);
    s.(scc := {},
       collapseMap := map p | p in s.collapseMap.Keys + Refs(size, scc - {rep}) :: if p in Refs(size, scc - {rep}) then rep else s.collapseMap[p],
       mergeMap := map x | x in s.mergeMap.Keys + Vars(size, scc - {rep}) :: if x in Vars(size, scc - {rep}) then rep else s.mergeMap[x])
  }

  /** The pointers whose REF nodes are in ns, as the code tells them from VAR nodes. */
  function Refs(size: nat, ns: set<nat>): set<nat> {
    set x | x in ns && x > size :: x - size
  }

  function Vars(size: nat, ns: set<nat>): set<nat> {
    set x | x in ns && x <= size
  }

  function Detector(size: nat): Client<Hcd> {
    Client(RepStep,
           (s: Hcd, n: nat) => Succ(s.graph, n),
           (s: Hcd, node: nat, rep: nat) => CycleStep(s, node),
           (s: Hcd, n: nat) => RepNodeStep(size, s, n))
  }

  /** The smallest node of x's component. */
  function First(log: seq<Component>, x: nat): nat {
    if log == [] then x
    else if x in Nodes(log[|log| - 1]) then Min(Nodes(log[|log| - 1]))
    else First(log[..|log| - 1], x)
  }

  /** What the maps have for a node of the graph. */
  function Target(size: nat, s: Hcd, x: nat): nat {
    if x <= size then (if x in s.mergeMap then s.mergeMap[x] else x)
    else if x - size in s.collapseMap then s.collapseMap[x - size] else x
  }

  ghost predicate KeysOk(size: nat, s: Hcd) {
    && (forall x | x in s.mergeMap :: x <= size && s.mergeMap[x] != x)
    && (forall p | p in s.collapseMap :: p > 0 && s.collapseMap[p] != p + size)
  }

  /** The two maps say which nodes share a component with a smaller node. */
  ghost predicate MapsSay(size: nat, s: Hcd, log: seq<Component>) {
    KeysOk(size, s) && forall x: nat :: Target(size, s, x) == First(log, x)
  }

  ghost predicate HcdInv(cs: seq<Constraint>, size: nat, s: Hcd, log: seq<Component>) {
    && s.scc == {} && MapsSay(size, s, log)
    && forall x: nat | x < 2 * size :: Succ(s.graph, x) == OfflineSuccs(cs, size, x)
  }

  lemma {:induction false} FoldCollects(size: nat, s: Hcd, root: nat, others: seq<nat>)
    ensures Fold(Detector(size), s, root, others) == s.(scc := s.scc + Elems(others))
  {
    if others == [] {
      assert s.scc + Elems([]) == s.scc;
    } else {
      var front, n := others[..|others| - 1], others[|others| - 1];
      FoldCollects(size, s, root, front);
      assert others == front + [n];
      assert s.scc + Elems(front) + {n} == s.scc + Elems(others);
    }
  }

  lemma MinOfOne(x: nat)
    ensures Min({x}) == x
  {
  }

  lemma RepNodeTarget(size: nat, s: Hcd, node: nat, x: nat)
    requires s.scc != {} && Target(size, s, Min(s.scc + {node})) == Min(s.scc + {node})
    ensures Target(size, RepNodeStep(size, s, node), x) == if x in s.scc + {node} then Min(s.scc + {node}) else Target(size, s, x)
  {
    var scc := s.scc + {node};
    var rep := Min(scc);
    hide Min;
    if x > size {
      assert x - size in Refs(size, scc - {rep}) <==> x in scc - {rep};
    }
  }

  lemma RepNodeKeys(size: nat, s: Hcd, node: nat)
    requires s.scc != {} && KeysOk(size, s)
    ensures KeysOk(size, RepNodeStep(size, s, node))
  {
    var scc := s.scc + {node};
    var rep := Min(scc);
    hide Min;
    forall p | p in Refs(size, scc - {rep}) ensures p > 0 && p + size != rep {
      var x :| x in scc - {rep} && x > size && x - size == p;
    }
    hide Refs;
  }

  lemma RepNodeSays(size: nat, s: Hcd, log: seq<Component>, c: Component)
    requires MapsSay(size, s, log) && c.others != [] && forall x | x in Nodes(c) :: First(log, x) == x
    ensures MapsSay(size, RepNodeStep(size, s.(scc := Elems(c.others)), c.root), log + [c])
  {
    var u := s.(scc := Elems(c.others));
    assert c.others[0] in Elems(c.others);
    assert Elems(c.others) + {c.root} == Nodes(c);
    assert (log + [c])[..|log|] == log;
    hide RepNodeStep, Min;
    assert Target(size, s, Min(Nodes(c))) == First(log, Min(Nodes(c)));
    forall x: nat ensures Target(size, RepNodeStep(size, u, c.root), x) == First(log + [c], x) {
      assert Target(size, s, x) == First(log, x);
      RepNodeTarget(size, u, c.root, x);
    }
    RepNodeKeys(size, u, c.root);
  }

  lemma AloneSays(size: nat, s: Hcd, log: seq<Component>, c: Component)
    requires MapsSay(size, s, log) && c.others == [] && First(log, c.root) == c.root
    ensures MapsSay(size, s, log + [c])
  {
    assert (log + [c])[..|log|] == log;
    assert Nodes(c) == {c.root};
    MinOfOne(c.root);
    hide Min;
    forall x: nat ensures Target(size, s, x) == First(log + [c], x) {
      assert Target(size, s, x) == First(log, x);
    }
  }

  lemma ReportMaps(size: nat, s: Hcd, log: seq<Component>, c: Component)
    requires s.scc == {} && MapsSay(size, s, log) && c.root !in c.others
    requires forall x | x in Nodes(c) :: First(log, x) == x
    ensures var t := Report(Detector(size), s, c); t.scc == {} && t.graph == s.graph && MapsSay(size, t, log + [c])
  {
    FoldCollects(size, s, c.root, c.others);
    assert s.scc + Elems(c.others) == Elems(c.others);
    var t := Report(Detector(size), s, c);
    if c.others == [] {
      assert c.root in Nodes(c);
      assert s.(scc := {}) == s;
      assert t == s;
      AloneSays(size, s, log, c);
    } else {
      assert c.others[0] in Elems(c.others);
      assert t == RepNodeStep(size, s.(scc := Elems(c.others)), c.root);
      hide Report, Fold, Nodes, First;
      RepNodeSays(size, s, log, c);
    }
  }

  // ----- Components of the offline graph -----

  /** REF nodes have no edges to one another, so a component of several nodes has a VAR node. */
  lemma HasVar(cs: seq<Constraint>, size: nat, done: set<nat>, c: Component)
    requires InRange(cs, size) && ComesNext(OfflineGraph(cs, size), done, c) && c.others != []
    ensures Min(Nodes(c)) < size
  {
    var g := OfflineGraph(cs, size);
    var y := c.others[0];
    assert y in Nodes(c) && c.root in Nodes(c);
    if c.root >= size {
      var p: seq<nat> :| Joins(g, p, c.root, y);
      assert |p| > 1 && p[1] in Succ(g, p[0]);
      OnTheWay(g, p, 1);
      ReachesTrans(g, p[1], y, c.root);
      assert p[1] in Nodes(c) && p[1] < size;
    }
  }

  lemma {:induction false} FirstFacts(cs: seq<Constraint>, size: nat, log: seq<Component>, x: nat)
    requires InRange(cs, size) && SccOrder(OfflineGraph(cs, size), log)
    ensures x !in Done(log) ==> First(log, x) == x
    ensures x in Done(log) ==> Mutual(OfflineGraph(cs, size), x, First(log, x)) && First(log, x) in Done(log)
    ensures First(log, First(log, x)) == First(log, x)
    ensures First(log, x) != x ==> First(log, x) < size
  {
    if log != [] {
      var g, front, c := OfflineGraph(cs, size), log[..|log| - 1], log[|log| - 1];
      ListedLast(g, log);
      FirstFacts(cs, size, front, x);
      if x in Nodes(c) {
        var m := Min(Nodes(c));
        ReachesTrans(g, x, c.root, m);
        ReachesTrans(g, m, c.root, x);
        if c.others == [] {
          assert Nodes(c) == {x};
        } else {
          HasVar(cs, size, Done(front), c);
        }
      }
    }
  }

  /** Two nodes have one first node exactly when they are in one component. */
  lemma {:induction false} FirstAgrees(cs: seq<Constraint>, size: nat, log: seq<Component>, x: nat, y: nat)
    requires InRange(cs, size) && SccOrder(OfflineGraph(cs, size), log) && x in Done(log) && y in Done(log)
    ensures First(log, x) == First(log, y) <==> Mutual(OfflineGraph(cs, size), x, y)
  {
    var g := OfflineGraph(cs, size);
    FirstFacts(cs, size, log, x);
    FirstFacts(cs, size, log, y);
    if First(log, x) == First(log, y) {
      ReachesTrans(g, x, First(log, x), y);
      ReachesTrans(g, y, First(log, x), x);
    }
    if Mutual(g, x, y) {
      SameComponent(g, log, x, y);
      var c :| c in log && x in Nodes(c) && y in Nodes(c);
      SameFirst(g, log, c, x, y);
    }
  }

  lemma {:induction false} SameFirst(g: Graph, log: seq<Component>, c: Component, x: nat, y: nat)
    requires SccOrder(g, log) && c in log && x in Nodes(c) && y in Nodes(c)
    ensures First(log, x) == First(log, y)
  {
    var front, d := log[..|log| - 1], log[|log| - 1];
    if c != d {
      var i :| 0 <= i < |front| && front[i] == c;
      InDone(front, i, x);
      InDone(front, i, y);
      SameFirst(g, front, c, x, y);
    }
  }

  // ----- The detector's client is lawful -----

  function OfflineBase(cs: seq<Constraint>, size: nat): map<nat, nat> {
    map i | i in OfflineGraph(cs, size) :: i
  }

  ghost function OfflineSim(cs: seq<Constraint>, size: nat): (Hcd, seq<Component>) -> bool {
    (s, log) => HcdInv(cs, size, s, log)
  }

  lemma ReportKeeps(cs: seq<Constraint>, size: nat, s: Hcd, log: seq<Component>, c: Component)
    requires InRange(cs, size) && HcdInv(cs, size, s, log)
    requires SccOrder(OfflineGraph(cs, size), log) && ComesNext(OfflineGraph(cs, size), Done(log), c)
    ensures HcdInv(cs, size, Report(Detector(size), s, c), log + [c])
  {
    forall x | x in Nodes(c) ensures First(log, x) == x {
      FirstFacts(cs, size, log, x);
    }
    assert c.root !in c.others;
    hide Report, SccOrder, ComesNext, MapsSay, First, OfflineSuccs;
    ReportMaps(size, s, log, c);
  }

  lemma SimIs(cs: seq<Constraint>, size: nat, s: Hcd, log: seq<Component>)
    ensures OfflineSim(cs, size)(s, log) == HcdInv(cs, size, s, log)
  {
  }

  lemma ChildrenAre(cs: seq<Constraint>, size: nat, s: Hcd, log: seq<Component>, n: nat)
    requires HcdInv(cs, size, s, log) && n in OfflineGraph(cs, size)
    ensures ChildrenLaw(Detector(size), OfflineGraph(cs, size), OfflineBase(cs, size), s, n)
  {
    OfflineClosed(cs, size);
    assert Succ(s.graph, n) == OfflineSuccs(cs, size, n) == OfflineGraph(cs, size)[n];
    hide MapsSay, OfflineSuccs;
  }

  lemma RepsAre(cs: seq<Constraint>, size: nat, s: Hcd, log: seq<Component>, i: nat)
    requires HcdInv(cs, size, s, log) && i in OfflineBase(cs, size)
    ensures GetRepLaw(Detector(size), OfflineBase(cs, size), OfflineSim(cs, size), s, log, i)
  {
    TouchKeeps(cs, size, s, log, i);
    hide HcdInv;
  }

  lemma OfflineIsLawful(cs: seq<Constraint>, size: nat)
    requires InRange(cs, size)
    ensures Lawful(Detector(size), OfflineGraph(cs, size), OfflineBase(cs, size), OfflineSim(cs, size))
  {
    var client, g, base, sim := Detector(size), OfflineGraph(cs, size), OfflineBase(cs, size), OfflineSim(cs, size);
    OfflineClosed(cs, size);
    assert (forall i | i in base :: base[i] in g) && forall n | n in g :: n in base && base[n] == n;
    hide SccOrder, ComesNext, Done, Report, HcdInv, OfflineSuccs, OfflineGraph, OfflineBase, OfflineSim, Detector, GetRepLaw, ChildrenLaw, Closed;
    forall s, log, i | sim(s, log) && SccOrder(g, log) && i in base ensures GetRepLaw(client, base, sim, s, log, i) {
      SimIs(cs, size, s, log);
      RepsAre(cs, size, s, log, i);
    }
    forall s, log, n | sim(s, log) && SccOrder(g, log) && n in g && n !in Done(log) ensures ChildrenLaw(client, g, base, s, n) {
      SimIs(cs, size, s, log);
      ChildrenAre(cs, size, s, log, n);
    }
    forall s, log, c | sim(s, log) && SccOrder(g, log) && ComesNext(g, Done(log), c) ensures sim(Report(client, s, c), log + [c]) {
      SimIs(cs, size, s, log);
      ReportKeeps(cs, size, s, log, c);
      SimIs(cs, size, Report(client, s, c), log + [c]);
    }
  }

  lemma OfflineClosed(cs: seq<Constraint>, size: nat)
    ensures Closed(OfflineGraph(cs, size))
  {
  }

  lemma TouchKeeps(cs: seq<Constraint>, size: nat, s: Hcd, log: seq<Component>, i: nat)
    requires HcdInv(cs, size, s, log)
    ensures HcdInv(cs, size, RepStep(s, i).0, log)
  {
    var t := RepStep(s, i).0;
    assert forall x: nat :: Target(size, t, x) == Target(size, s, x);
    hide Target, First, OfflineSuccs;
  }

  // ----- What the maps mean for the solutions -----

  /** Values flow along the offline edges. */
  lemma OfflineEdgeValue(cs: seq<Constraint>, size: nat, l: PtsGraph, x: nat, y: nat)
    requires InRange(cs, size) && IsSolution(l, cs) && StoresLand(l, cs) && y in OfflineSuccs(cs, size, x)
    ensures Value(l, size, x) <= Value(l, size, y)
  {
    var c :| c in cs && OfflineEdge(c, size, x, y);
    assert EdgeOf(c, size, y, x) && c.dest < size && c.src < size;
    assert x in Preds(cs, size, y);
    hide Value, Preds, IsSolution, InRange;
    EdgeValue(cs, size, l, y, x);
  }

  lemma {:induction false} OfflinePathValue(cs: seq<Constraint>, size: nat, l: PtsGraph, p: seq<nat>)
    requires InRange(cs, size) && IsSolution(l, cs) && StoresLand(l, cs) && IsPath(OfflineGraph(cs, size), p)
    ensures Value(l, size, p[0]) <= Value(l, size, p[|p| - 1])
    decreases |p|
  {
    if |p| > 1 {
      assert p[1] in Succ(OfflineGraph(cs, size), p[0]);
      hide Value, OfflineSuccs, InRange, IsSolution, StoresLand;
      OfflineEdgeValue(cs, size, l, p[0], p[1]);
      var q := p[1..];
      assert forall i | 0 <= i < |q| :: q[i] == p[i + 1];
      OfflinePathValue(cs, size, l, q);
    }
  }

  lemma OfflineReachesValue(cs: seq<Constraint>, size: nat, l: PtsGraph, x: nat, y: nat)
    requires InRange(cs, size) && IsSolution(l, cs) && StoresLand(l, cs) && Reaches(OfflineGraph(cs, size), x, y)
    ensures Value(l, size, x) <= Value(l, size, y)
  {
    hide Value, InRange, IsSolution, StoresLand, OfflineGraph, IsPath;
    var p: seq<nat> :| Joins(OfflineGraph(cs, size), p, x, y);
    OfflinePathValue(cs, size, l, p);
  }

  /** The last store on the way to a REF node. */
  lemma LastStore(cs: seq<Constraint>, size: nat, x: nat, p: nat) returns (z: nat)
    requires InRange(cs, size) && Reaches(OfflineGraph(cs, size), x, p + size) && x != p + size
    ensures Reaches(OfflineGraph(cs, size), x, z) && Constraint(Store, p, z) in cs
  {
    var g := OfflineGraph(cs, size);
    var path: seq<nat> :| Joins(g, path, x, p + size);
    var i := |path| - 2;
    z := path[i];
    assert path[i + 1] in Succ(g, path[i]);
    var c :| c in cs && OfflineEdge(c, size, z, p + size);
    assert c == Constraint(Store, p, z);
    OnTheWay(g, path, i);
  }

  /** The VAR nodes that are to be merged have one points-to set in every solution in which the
      pointers that are stored through point somewhere. */
  lemma MergesAreEqual(cs: seq<Constraint>, size: nat, s: Hcd, log: seq<Component>, l: PtsGraph, x: nat)
    requires InRange(cs, size) && SccOrder(OfflineGraph(cs, size), log) && HcdInv(cs, size, s, log)
    requires IsSolution(l, cs) && StoresLand(l, cs) && x in s.mergeMap && x < size
    ensures s.mergeMap[x] < size && At(l, x) == At(l, s.mergeMap[x])
  {
    assert Target(size, s, x) == First(log, x);
    hide HcdInv, SccOrder, First, IsSolution, StoresLand, InRange, Reaches;
    FirstFacts(cs, size, log, x);
    OfflineReachesValue(cs, size, l, x, s.mergeMap[x]);
    OfflineReachesValue(cs, size, l, s.mergeMap[x], x);
  }

  lemma CollapseEntry(cs: seq<Constraint>, size: nat, s: Hcd, log: seq<Component>, p: nat)
    requires InRange(cs, size) && SccOrder(OfflineGraph(cs, size), log) && HcdInv(cs, size, s, log) && p in s.collapseMap
    ensures s.collapseMap[p] < size && Mutual(OfflineGraph(cs, size), p + size, s.collapseMap[p]) && p < size
  {
    assert Target(size, s, p + size) == First(log, p + size) != p + size;
    hide HcdInv, First, InRange, Reaches, SccOrder, OfflineSuccs;
    FirstFacts(cs, size, log, p + size);
    DoneClosed(OfflineGraph(cs, size), log);
  }

  /** In such a solution everything p points to has the points-to set of p's collapse target. */
  lemma CollapseTargetIsSound(cs: seq<Constraint>, size: nat, s: Hcd, log: seq<Component>, l: PtsGraph, p: nat)
    requires InRange(cs, size) && SccOrder(OfflineGraph(cs, size), log) && HcdInv(cs, size, s, log)
    requires IsSolution(l, cs) && StoresLand(l, cs) && p in s.collapseMap
    ensures s.collapseMap[p] < size
    ensures forall o | o in At(l, p) :: At(l, o) == At(l, s.collapseMap[p])
  {
    var q := s.collapseMap[p];
    CollapseEntry(cs, size, s, log, p);
    OfflineReachesValue(cs, size, l, p + size, q);
    var z := LastStore(cs, size, q, p);
    OfflineReachesValue(cs, size, l, q, z);
    var c := Constraint(Store, p, z);
    assert Holds(l, c) && z < size;
    hide HcdInv, SccOrder, Reaches, At, OfflineGraph;
    forall o | o in At(l, p) ensures At(l, o) == At(l, q) {
      assert At(l, o) <= Pointees(l, p);
    }
  }

  /** Every node of a component with others is merged with the first or collapsed with it. */
  lemma NothingMissed(cs: seq<Constraint>, size: nat, s: Hcd, log: seq<Component>, x: nat, y: nat)
    requires InRange(cs, size) && SccOrder(OfflineGraph(cs, size), log) && HcdInv(cs, size, s, log)
    requires x in Done(log) && y in Done(log)
    ensures Target(size, s, x) == Target(size, s, y) <==> Mutual(OfflineGraph(cs, size), x, y)
  {
    FirstAgrees(cs, size, log, x, y);
    assert Target(size, s, x) == First(log, x) && Target(size, s, y) == First(log, y);
  }

  /** The REF node of node 0, whose index is taken for that of a VAR node, shares a cycle with no other node. */
  ghost predicate RefZeroAlone(cs: seq<Constraint>, size: nat) {
    forall x | Mutual(OfflineGraph(cs, size), size, x) :: x == size
  }

  /** Every node with an edge is in a reported component. */
  ghost predicate AllListed(cs: seq<Constraint>, size: nat, log: seq<Component>) {
    forall x: nat | x < 2 * size && OfflineSuccs(cs, size, x) != {} :: x in Done(log)
  }

  /** All merges are between nodes exactly when that is so. */
  lemma MergesAreNodes(cs: seq<Constraint>, size: nat, s: Hcd, log: seq<Component>)
    requires InRange(cs, size) && SccOrder(OfflineGraph(cs, size), log) && HcdInv(cs, size, s, log)
    requires AllListed(cs, size, log)
    ensures (forall x | x in s.mergeMap :: x < size && s.mergeMap[x] < size) <==> RefZeroAlone(cs, size)
  {
    var g := OfflineGraph(cs, size);
    assert Target(size, s, size) == First(log, size);
    FirstFacts(cs, size, log, size);
    if size in s.mergeMap {
      assert Mutual(g, size, s.mergeMap[size]) && s.mergeMap[size] != size;
    } else if !RefZeroAlone(cs, size) {
      var x :| Mutual(g, size, x) && x != size;
      var p: seq<nat> :| Joins(g, p, size, x);
      assert p[1] in Succ(g, p[0]);
      FirstAgreesWithAll(cs, size, log, size, x);
      assert false;
    }
    hide SccOrder, Reaches, OfflineGraph;
    forall x | x in s.mergeMap ensures s.mergeMap[x] < size {
      assert Target(size, s, x) == First(log, x);
      FirstFacts(cs, size, log, x);
    }
  }

  /** The first node of a cycle through a REF node is another one. */
  lemma FirstAgreesWithAll(cs: seq<Constraint>, size: nat, log: seq<Component>, r: nat, x: nat)
    requires InRange(cs, size) && SccOrder(OfflineGraph(cs, size), log) && r in Done(log) && size <= r
    requires Mutual(OfflineGraph(cs, size), r, x) && x != r
    ensures First(log, r) != r
  {
    var g := OfflineGraph(cs, size);
    SameComponent(g, log, r, x);
    var c :| c in log && r in Nodes(c) && x in Nodes(c);
    var i :| 0 <= i < |log| && log[i] == c;
    InDone(log, i, x);
    FirstAgrees(cs, size, log, r, x);
    FirstFacts(cs, size, log, x);
  }

  // ----- The offline graph is the flow of values -----

  /** The graph node of a place. */
  function Code(size: nat, x: Place): nat {
    if x.Var? then x.n else x.n + size
  }

  function PlaceOf(size: nat, n: nat): Place {
    if n < size then Var(n) else Deref(n - size)
  }

  lemma GoesIsEdge(cs: seq<Constraint>, size: nat, x: Place, y: Place)
    requires InRange(cs, size) && x.n < size && y.n < size
    ensures Code(size, y) in OfflineSuccs(cs, size, Code(size, x)) <==> Goes(cs, x, y)
  {
    if Goes(cs, x, y) {
      var c := if y.Deref? then Constraint(Store, y.n, x.n) else Constraint(if x.Var? then Copy else Load, y.n, x.n);
      assert c in cs && OfflineEdge(c, size, Code(size, x), Code(size, y));
    }
    if c :| c in cs && OfflineEdge(c, size, Code(size, x), Code(size, y)) {
      assert c == Constraint(c.ty, c.dest, c.src);
    }
  }

  lemma GoesInRange(cs: seq<Constraint>, size: nat, x: Place, y: Place)
    requires InRange(cs, size) && Goes(cs, x, y)
    ensures x.n < size && y.n < size
  {
  }

  lemma WayIsPath(cs: seq<Constraint>, size: nat, w: seq<Place>)
    requires InRange(cs, size) && IsWay(cs, w) && w[0].n < size
    ensures w[|w| - 1].n < size && Reaches(OfflineGraph(cs, size), Code(size, w[0]), Code(size, w[|w| - 1]))
  {
    hide Goes, InRange;
    forall i | 0 <= i < |w| ensures w[i].n < size {
      if i > 0 {
        assert Goes(cs, w[i - 1], w[i - 1 + 1]);
        GoesInRange(cs, size, w[i - 1], w[i]);
      }
    }
    var p := seq(|w|, i requires 0 <= i < |w| => Code(size, w[i]));
    forall i | 0 <= i < |p| - 1 ensures p[i + 1] in OfflineSuccs(cs, size, p[i]) {
      GoesIsEdge(cs, size, w[i], w[i + 1]);
    }
    hide OfflineSuccs;
    assert Joins(OfflineGraph(cs, size), p, Code(size, w[0]), Code(size, w[|w| - 1]));
  }

  lemma PathIsWay(cs: seq<Constraint>, size: nat, p: seq<nat>)
    requires InRange(cs, size) && IsPath(OfflineGraph(cs, size), p)
    ensures Way(cs, PlaceOf(size, p[0]), PlaceOf(size, p[|p| - 1]))
  {
    var w := seq(|p|, i requires 0 <= i < |p| => PlaceOf(size, p[i]));
    hide Goes, InRange, OfflineSuccs;
    forall i | 0 <= i < |w| - 1 ensures Goes(cs, w[i], w[i + 1]) {
      assert p[i + 1] in Succ(OfflineGraph(cs, size), p[i]);
      GoesIsEdge(cs, size, w[i], w[i + 1]);
    }
    assert IsWay(cs, w);
  }

  /** A way along the constraints is a path of the offline graph. */
  lemma WayIsReaches(cs: seq<Constraint>, size: nat, x: Place, y: Place)
    requires InRange(cs, size) && x.n < size && y.n < size
    ensures Way(cs, x, y) <==> Reaches(OfflineGraph(cs, size), Code(size, x), Code(size, y))
  {
    hide InRange, OfflineGraph, IsPath, Goes;
    if w :| IsWay(cs, w) && w[0] == x && w[|w| - 1] == y {
      WayIsPath(cs, size, w);
    }
    if p: seq<nat> :| Joins(OfflineGraph(cs, size), p, Code(size, x), Code(size, y)) {
      PathIsWay(cs, size, p);
    }
  }

  lemma RoundWay(cs: seq<Constraint>, x: Place, y: Place)
    requires Round(cs, x, y)
    ensures Way(cs, x, y)
  {
  }

  lemma CodeIs(size: nat, n: nat, v: nat)
    ensures Code(size, Deref(n)) == n + size && Code(size, Var(v)) == v
  {
  }

  lemma RoundIsMutual(cs: seq<Constraint>, size: nat, x: Place, y: Place)
    requires InRange(cs, size) && x.n < size && y.n < size
    ensures Round(cs, x, y) <==> Mutual(OfflineGraph(cs, size), Code(size, x), Code(size, y))
  {
    hide Way, Reaches, OfflineGraph;
    WayIsReaches(cs, size, x, y);
    WayIsReaches(cs, size, y, x);
  }

  /** The end of a way that goes somewhere is a node. */
  lemma RoundInRange(cs: seq<Constraint>, size: nat, x: Place, y: Place)
    requires InRange(cs, size) && x.n < size && Way(cs, x, y)
    ensures y.n < size
  {
    var w :| IsWay(cs, w) && w[0] == x && w[|w| - 1] == y;
    WayIsPath(cs, size, w);
  }

  /** First is the smallest node that a node shares a cycle with. */
  lemma {:induction false} FirstBelow(log: seq<Component>, x: nat)
    requires x in Done(log)
    ensures First(log, x) <= x
  {
    if x !in Nodes(log[|log| - 1]) {
      FirstBelow(log[..|log| - 1], x);
    }
  }

  lemma FirstIsLeast(cs: seq<Constraint>, size: nat, log: seq<Component>, x: nat, y: nat)
    requires InRange(cs, size) && SccOrder(OfflineGraph(cs, size), log) && Mutual(OfflineGraph(cs, size), x, y) && x != y
    requires AllListed(cs, size, log)
    ensures x in Done(log) && y in Done(log) && First(log, x) <= y
  {
    LeavesIt(cs, size, x, y);
    LeavesIt(cs, size, y, x);
    hide Mutual, SccOrder, InRange, OfflineSuccs;
    FirstAgrees(cs, size, log, x, y);
    FirstBelow(log, y);
  }

  lemma LeavesIt(cs: seq<Constraint>, size: nat, x: nat, y: nat)
    requires Reaches(OfflineGraph(cs, size), x, y) && x != y
    ensures x < 2 * size && OfflineSuccs(cs, size, x) != {}
  {
    var p: seq<nat> :| Joins(OfflineGraph(cs, size), p, x, y);
    assert p[1] in Succ(OfflineGraph(cs, size), p[0]);
  }

  /** Two nodes get one target exactly if values can flow from each to the other. */
  lemma MergedIsRound(cs: seq<Constraint>, size: nat, log: seq<Component>, x: nat, y: nat)
    requires InRange(cs, size) && SccOrder(OfflineGraph(cs, size), log) && x < size && y < size && x != y
    requires AllListed(cs, size, log)
    ensures First(log, x) == First(log, y) <==> Round(cs, Var(x), Var(y))
  {
    var g := OfflineGraph(cs, size);
    RoundIsMutual(cs, size, Var(x), Var(y));
    hide Round, SccOrder, InRange, OfflineSuccs, OfflineGraph, Reaches, AllListed;
    if Mutual(g, x, y) {
      FirstIsLeast(cs, size, log, x, y);
      FirstIsLeast(cs, size, log, y, x);
      FirstAgrees(cs, size, log, x, y);
    } else if First(log, x) == First(log, y) {
      FirstFacts(cs, size, log, x);
      FirstFacts(cs, size, log, y);
      if x in Done(log) && y in Done(log) {
        FirstAgrees(cs, size, log, x, y);
      }
    }
  }

  /** The target of a node is the smallest node on a round trip with it. */
  lemma TargetIsLeast(cs: seq<Constraint>, size: nat, log: seq<Component>, x: nat)
    requires InRange(cs, size) && SccOrder(OfflineGraph(cs, size), log) && x < size
    requires AllListed(cs, size, log)
    ensures First(log, x) <= x && (First(log, x) != x ==> Round(cs, Var(x), Var(First(log, x))))
    ensures forall y: nat | Round(cs, Var(x), Var(y)) :: First(log, x) <= y
  {
    var g := OfflineGraph(cs, size);
    hide SccOrder, InRange, OfflineSuccs, OfflineGraph, Reaches, Way;
    FirstFacts(cs, size, log, x);
    if x in Done(log) {
      FirstBelow(log, x);
    }
    if First(log, x) != x {
      RoundIsMutual(cs, size, Var(x), Var(First(log, x)));
    }
    forall y: nat | Round(cs, Var(x), Var(y)) ensures First(log, x) <= y {
      if y != x {
        RoundInRange(cs, size, Var(x), Var(y));
        RoundIsMutual(cs, size, Var(x), Var(y));
        FirstIsLeast(cs, size, log, x, y);
      }
    }
  }

  // ----- The detector -----

  lemma OfflineSnoc(cs: seq<Constraint>, size: nat, c: Constraint, x: nat)
    ensures OfflineSuccs(cs + [c], size, x) == OfflineSuccs(cs, size, x) + OfflineFrom(c, size, x)
  {
    forall y: nat | y < 2 * size ensures HasOfflineEdge(cs + [c], size, x, y) <==> HasOfflineEdge(cs, size, x, y) || OfflineEdge(c, size, x, y) {
      assert c in cs + [c] && forall b | b in cs :: b in cs + [c];
      hide OfflineEdge;
    }
    hide HasOfflineEdge, OfflineEdge;
  }

  function OfflineFrom(c: Constraint, size: nat, x: nat): set<nat> {
    set y: nat | y < 2 * size && OfflineEdge(c, size, x, y)
  }

  function OfflineInserted(g: Graph, c: Constraint, size: nat): Graph {
    match c.ty
    case AddrOf => g
    case Load => InsertEdge(g, c.src + size, c.dest)
    case Store => InsertEdge(g, c.src, c.dest + size)
    case Copy => InsertEdge(g, c.src, c.dest)
  }

  ghost predicate OfflineBuilt(cs: seq<Constraint>, size: nat, g: Graph) {
    && (forall x: nat | x < 2 * size :: Succ(g, x) == OfflineSuccs(cs, size, x))
    && (forall x | x in g :: x < 2 * size)
  }

  lemma OfflineInsertedEdges(g: Graph, c: Constraint, size: nat, x: nat)
    requires c.dest < size && c.src < size
    ensures Succ(OfflineInserted(g, c, size), x) == Succ(g, x) + OfflineFrom(c, size, x)
    ensures x in OfflineInserted(g, c, size) ==> x in g || x < 2 * size
  {
  }

  lemma OfflineBuiltOne(cs: seq<Constraint>, size: nat, c: Constraint, g: Graph)
    requires OfflineBuilt(cs, size, g) && c.dest < size && c.src < size
    ensures OfflineBuilt(cs + [c], size, OfflineInserted(g, c, size))
  {
    hide OfflineInserted, OfflineFrom, Succ, OfflineSuccs;
    forall x: nat ensures Succ(OfflineInserted(g, c, size), x) == Succ(g, x) + OfflineFrom(c, size, x)
                       && (x in OfflineInserted(g, c, size) ==> x in g || x < 2 * size) {
      OfflineInsertedEdges(g, c, size, x);
    }
    forall x: nat | x < 2 * size ensures Succ(OfflineInserted(g, c, size), x) == OfflineSuccs(cs + [c], size, x) {
      OfflineSnoc(cs, size, c, x);
    }
  }

  /** The edges between two nodes and what they point to, constraint by constraint. */
  ghost predicate EdgesSay(cs: seq<Constraint>, size: nat, g: Graph, a: nat, b: nat) {
    && (b in Succ(g, a) <==> Constraint(Copy, b, a) in cs)
    && (b in Succ(g, a + size) <==> Constraint(Load, b, a) in cs)
    && (b + size in Succ(g, a) <==> Constraint(Store, b, a) in cs)
    && b + size !in Succ(g, a + size)
  }

  lemma BuiltIsFlow(cs: seq<Constraint>, size: nat, g: Graph, a: nat, b: nat)
    requires OfflineBuilt(cs, size, g) && InRange(cs, size) && a < size && b < size
    ensures EdgesSay(cs, size, g, a, b)
  {
    GoesIsEdge(cs, size, Var(a), Var(b));
    GoesIsEdge(cs, size, Deref(a), Var(b));
    GoesIsEdge(cs, size, Var(a), Deref(b));
    GoesIsEdge(cs, size, Deref(a), Deref(b));
    hide OfflineSuccs, InRange;
  }

  lemma NothingBuiltYet(size: nat)
    ensures OfflineBuilt([], size, map[])
  {
  }

  lemma BuiltIsStart(cs: seq<Constraint>, size: nat, s: Hcd)
    requires OfflineBuilt(cs, size, s.graph) && s == Hcd(s.graph, {}, map[], map[])
    ensures HcdInv(cs, size, s, [])
    ensures forall x: nat | x < 2 * size && OfflineSuccs(cs, size, x) != {} :: x in s.graph
    ensures forall x | x in s.graph :: x in OfflineBase(cs, size) && OfflineBase(cs, size)[x] == x
  {
  }

  /** There is a collapse target exactly for the pointers whose pointees are on a round trip with a node, and it is the
      smallest such node. */
  lemma TargetFound(cs: seq<Constraint>, size: nat, s: Hcd, log: seq<Component>, n: nat)
    requires InRange(cs, size) && SccOrder(OfflineGraph(cs, size), log) && HcdInv(cs, size, s, log) && 0 < n < size
    requires AllListed(cs, size, log)
    ensures n in s.collapseMap <==> exists v: nat :: Round(cs, Deref(n), Var(v))
    ensures n in s.collapseMap ==> Round(cs, Deref(n), Var(s.collapseMap[n]))
    ensures n in s.collapseMap ==> forall v: nat | Round(cs, Deref(n), Var(v)) :: s.collapseMap[n] <= v
  {
    hide Round, SccOrder, HcdInv, InRange, OfflineSuccs, OfflineGraph;
    if n in s.collapseMap {
      EntryIsRound(cs, size, s, log, n);
    }
    forall v: nat | Round(cs, Deref(n), Var(v)) ensures n in s.collapseMap && s.collapseMap[n] <= v {
      RoundHasEntry(cs, size, s, log, n, v);
    }
  }

  lemma EntryIsRound(cs: seq<Constraint>, size: nat, s: Hcd, log: seq<Component>, n: nat)
    requires InRange(cs, size) && SccOrder(OfflineGraph(cs, size), log) && HcdInv(cs, size, s, log) && n < size && n in s.collapseMap
    ensures Round(cs, Deref(n), Var(s.collapseMap[n]))
  {
    hide Round, SccOrder, HcdInv, InRange, OfflineSuccs, OfflineGraph, Reaches;
    CollapseEntry(cs, size, s, log, n);
    RoundIsMutual(cs, size, Deref(n), Var(s.collapseMap[n]));
  }

  lemma RoundHasEntry(cs: seq<Constraint>, size: nat, s: Hcd, log: seq<Component>, n: nat, v: nat)
    requires InRange(cs, size) && SccOrder(OfflineGraph(cs, size), log) && HcdInv(cs, size, s, log) && 0 < n < size
    requires AllListed(cs, size, log)
    requires Round(cs, Deref(n), Var(v))
    ensures n in s.collapseMap && s.collapseMap[n] <= v
  {
    hide *;
    RoundWay(cs, Deref(n), Var(v));
    RoundInRange(cs, size, Deref(n), Var(v));
    RoundIsMutual(cs, size, Deref(n), Var(v));
    assert Code(size, Deref(n)) == n + size && Code(size, Var(v)) == v by {
      CodeIs(size, n, v);
    }
    MutualHasEntry(cs, size, s, log, n, v);
  }

  lemma MutualHasEntry(cs: seq<Constraint>, size: nat, s: Hcd, log: seq<Component>, n: nat, v: nat)
    requires InRange(cs, size) && SccOrder(OfflineGraph(cs, size), log) && HcdInv(cs, size, s, log) && 0 < n < size && v < size
    requires AllListed(cs, size, log)
    requires Mutual(OfflineGraph(cs, size), n + size, v)
    ensures n in s.collapseMap && s.collapseMap[n] <= v
  {
    hide *;
    EntryIsFirst(cs, size, s, log, n);
    FirstIsLeast(cs, size, log, n + size, v);
    FirstAgreesWithAll(cs, size, log, n + size, v);
  }

  lemma EntryIsFirst(cs: seq<Constraint>, size: nat, s: Hcd, log: seq<Component>, n: nat)
    requires HcdInv(cs, size, s, log) && 0 < n < size
    ensures First(log, n + size) == if n in s.collapseMap then s.collapseMap[n] else n + size
  {
    assert Target(size, s, n + size) == First(log, n + size);
    hide First, OfflineSuccs;
  }

  class OfflineCycleDetector {
    const nodeFactory: AndersNodeFactory
    const constraints: seq<Constraint>
    const size: nat
    var hcd: Hcd

    ghost predicate Valid()
      reads nodeFactory
    {
      nodeFactory.Valid() && |nodeFactory.root| == size && InRange(constraints, size)
    }

    constructor (constraints: seq<Constraint>, nodeFactory: AndersNodeFactory)
      requires nodeFactory.Valid() && nodeFactory.root == Identity(|nodeFactory.root|) && InRange(constraints, |nodeFactory.root|)
      modifies nodeFactory`mergeTarget
      ensures this.nodeFactory == nodeFactory && this.constraints == constraints
      ensures Valid() && OfflineBuilt(constraints, size, hcd.graph) && hcd == Hcd(hcd.graph, {}, map[], map[])
    {
      this.nodeFactory, this.constraints := nodeFactory, constraints;
      this.size := nodeFactory.GetNumNodes();
      this.hcd := Hcd(map[], {}, map[], map[]);
      new;
      BuildOfflineConstraintGraph();
    }

    method BuildOfflineConstraintGraph()
      requires Valid() && nodeFactory.root == Identity(size) && hcd == Hcd(map[], {}, map[], map[])
      modifies this`hcd, nodeFactory`mergeTarget
      ensures Valid() && OfflineBuilt(constraints, size, hcd.graph) && hcd == Hcd(hcd.graph, {}, map[], map[])
      ensures forall a: nat, b: nat | a < size && b < size :: EdgesSay(constraints, size, hcd.graph, a, b)
    {
      hide OfflineBuilt, InsertEdge, IsForest, EdgesSay;
      NothingBuiltYet(size);
      assert constraints[..0] == [];
      for i := 0 to |constraints|
        invariant Valid() && OfflineBuilt(constraints[..i], size, hcd.graph) && hcd == Hcd(hcd.graph, {}, map[], map[])
      {
        var c := constraints[i];
        assert c in constraints && constraints[..i + 1] == constraints[..i] + [c];
        OfflineBuiltOne(constraints[..i], size, c, hcd.graph);
        var srcTgt := nodeFactory.GetMergeTarget(c.src);
        var dstTgt := nodeFactory.GetMergeTarget(c.dest);
        match c.ty {
          case AddrOf =>
          case Load => hcd := hcd.(graph := InsertEdge(hcd.graph, srcTgt + size, dstTgt));
          case Store => hcd := hcd.(graph := InsertEdge(hcd.graph, srcTgt, dstTgt + size));
          case Copy => hcd := hcd.(graph := InsertEdge(hcd.graph, srcTgt, dstTgt));
        }
      }
      assert constraints[..|constraints|] == constraints;
      forall a: nat, b: nat | a < size && b < size ensures EdgesSay(constraints, size, hcd.graph, a, b) {
        BuiltIsFlow(constraints, size, hcd.graph, a, b);
      }
    }

    /** What is left after Run. */
    ghost predicate Searched(s: Hcd, log: seq<Component>)
      reads this, nodeFactory
    {
      && Valid() && SccOrder(OfflineGraph(constraints, size), log) && HcdInv(constraints, size, s, log)
      && hcd == s.(graph := map[], mergeMap := map[])
      && AllListed(constraints, size, log)
    }

    /** Find the cycles, then merge the nodes in the merge map. */
    method Run() returns (ghost log: seq<Component>)
      requires Valid() && nodeFactory.root == Identity(size) && RefZeroAlone(constraints, size)
      requires OfflineBuilt(constraints, size, hcd.graph) && hcd == Hcd(hcd.graph, {}, map[], map[])
      modifies this, nodeFactory
      ensures exists s :: Searched(s, log)
      ensures Valid() && forall x: nat | x < size :: nodeFactory.root[x] == First(log, x)
      ensures forall x: nat, y: nat | x < size && y < size ::
                nodeFactory.root[x] == nodeFactory.root[y] <==> x == y || Round(constraints, Var(x), Var(y))
      ensures forall x: nat, y: nat | x < size && (y == x || Round(constraints, Var(x), Var(y))) :: nodeFactory.root[x] <= y
    {
      hide HcdInv, SccOrder, Lawful, Inv, IsForest, OfflineSuccs, RefZeroAlone, OfflineBuilt, Round, First;
      ghost var cs := constraints;
      BuiltIsStart(cs, size, hcd);
      OfflineIsLawful(cs, size);
      var detector := new CycleDetector(Detector(size), hcd, OfflineGraph(cs, size), OfflineBase(cs, size), OfflineSim(cs, size));
      var order := Listing(hcd.graph.Keys);
      detector.RunOnGraph(order);
      log := detector.log;
      hcd := detector.state;
      ghost var s := hcd;
      MergeAll(log);
      hcd := hcd.(graph := map[], mergeMap := map[]);
      assert Searched(s, log);
      forall x: nat, y: nat | x < size && y < size
        ensures nodeFactory.root[x] == nodeFactory.root[y] <==> x == y || Round(constraints, Var(x), Var(y))
      {
        if x != y {
          MergedIsRound(cs, size, log, x, y);
        }
      }
      forall x: nat | x < size ensures First(log, x) <= x && forall y: nat | Round(constraints, Var(x), Var(y)) :: First(log, x) <= y {
        TargetIsLeast(cs, size, log, x);
      }
    }

    /** Merge the nodes in the merge map. */
    method MergeAll(ghost log: seq<Component>)
      requires Valid() && nodeFactory.root == Identity(size) && RefZeroAlone(constraints, size)
      requires HcdInv(constraints, size, hcd, log) && SccOrder(OfflineGraph(constraints, size), log)
      requires AllListed(constraints, size, log)
      modifies nodeFactory
      ensures Valid() && forall x: nat | x < size :: nodeFactory.root[x] == First(log, x)
    {
      hide HcdInv, SccOrder, IsForest, OfflineSuccs, RefZeroAlone, First, Done;
      MergesAreNodes(constraints, size, hcd, log);
      MergeMapIs(constraints, size, hcd, log);
      var todo := hcd.mergeMap.Keys;
      while todo != {}
        invariant todo <= hcd.mergeMap.Keys
        invariant Valid() && forall x: nat | x < size ::
          nodeFactory.root[x] == if x in hcd.mergeMap.Keys - todo then hcd.mergeMap[x] else x
        decreases todo
      {
        var n :| n in todo;
        todo := todo - {n};
        nodeFactory.MergeNode(hcd.mergeMap[n], n);
      }
    }

    /** The collapse target of n, or nothing: the smallest node v such that values can flow from *n to v and from v to *n,
        if there is one; then everything n points to in a solution has the points-to set of the target. */
    method GetCollapseTarget(n: nat) returns (r: set<nat>)
      requires 0 < n < size && exists s, log :: Searched(s, log)
      ensures |r| <= 1 && (r != {} <==> exists v: nat :: Round(constraints, Deref(n), Var(v)))
      ensures forall q | q in r :: Round(constraints, Deref(n), Var(q)) && forall v: nat | Round(constraints, Deref(n), Var(v)) :: q <= v
      ensures forall q, l, o | q in r && IsSolution(l, constraints) && StoresLand(l, constraints) && o in At(l, n) :: At(l, o) == At(l, q)
    {
      r := if n in hcd.collapseMap then {hcd.collapseMap[n]} else {};
      ghost var s, log :| Searched(s, log);
      hide HcdInv, SccOrder, OfflineSuccs, Round, IsSolution, StoresLand, At;
      TargetFound(constraints, size, s, log, n);
      forall l | n in hcd.collapseMap && IsSolution(l, constraints) && StoresLand(l, constraints)
        ensures forall o | o in At(l, n) :: At(l, o) == At(l, hcd.collapseMap[n])
      {
        CollapseTargetIsSound(constraints, size, s, log, l, n);
      }
    }
  }

  lemma MergeMapIs(cs: seq<Constraint>, size: nat, s: Hcd, log: seq<Component>)
    requires InRange(cs, size) && SccOrder(OfflineGraph(cs, size), log) && HcdInv(cs, size, s, log)
    ensures forall x | x in s.mergeMap :: s.mergeMap[x] !in s.mergeMap
    ensures forall x: nat | x < size :: First(log, x) == if x in s.mergeMap then s.mergeMap[x] else x
  {
    forall x | x in s.mergeMap ensures s.mergeMap[x] !in s.mergeMap {
      FirstFacts(cs, size, log, x);
      assert Target(size, s, x) == First(log, x);
      assert Target(size, s, First(log, x)) == First(log, First(log, x));
    }
    forall x: nat | x < size ensures First(log, x) == if x in s.mergeMap then s.mergeMap[x] else x {
      assert Target(size, s, x) == First(log, x);
    }
  }

  /** The merges of offline cycle detection change no least solution, provided every pointer that is
      stored through points somewhere. */
  lemma OfflineMergesAreExact(cs: seq<Constraint>, size: nat, s: Hcd, log: seq<Component>, root: seq<nat>)
    requires InRange(cs, size) && SccOrder(OfflineGraph(cs, size), log) && HcdInv(cs, size, s, log)
    requires |root| == size && IsRep(root) && forall x: nat | x < size :: root[x] == First(log, x)
    requires StoresLand(Least(cs, Identity(size)), cs)
    ensures forall n: nat :: At(Least(cs, root), n) == At(Least(cs, Identity(size)), n)
  {
    var l := Least(cs, Identity(size));
    hide Least, SccOrder, HcdInv, StoresLand;
    LeastIsSolution(cs, Identity(size));
    MergeMapIs(cs, size, s, log);
    forall n: nat | n < size ensures At(l, n) == At(l, root[n]) {
      if n in s.mergeMap {
        MergesAreEqual(cs, size, s, log, l, n);
      }
    }
    LeastWithMerges(cs, size, root);
  }
}
