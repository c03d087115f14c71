/** Lazy cycle detection: the cycles found among the copy edges are collapsed while they are found. */
module OnlineCycles {
  import opened Constraints
  import opened NodeFactory
  import opened ConstraintGraphs
  import opened Graphs
  import opened CycleDetectors

  /** v arose from v0 by merging nodes: a representative holds what the nodes it stands for held. */
  ghost predicate Quotient(v0: View, v: View) {
    && Coarser(v0.root, v.root)
    && (forall n | 0 <= n < |v.root| :: v.root[n] < |v0.root| && v0.root[v.root[n]] == v.root[n])
    && (forall f: Field, n: nat | n < |v.root| :: Data(v0, f, n) <= Data(v, f, v.root[n]))
    && (forall f: Field, r, o {:trigger Came(v0, v, f, r, o)} | o in Data(v, f, r) :: Came(v0, v, f, r, o))
  }

  /** A node that r stands for held o. */
  ghost predicate Came(v0: View, v: View, f: Field, r: nat, o: nat) {
    exists x: nat :: x < |v.root| && x < |v0.root| && v.root[x] == r && v0.root[x] == x && o in Data(v0, f, x)
  }

  lemma QuotientSelf(v: View)
    requires WellFormed(v)
    ensures Quotient(v, v)
  {
    forall f: Field, r, o | o in Data(v, f, r) ensures Came(v, v, f, r, o) {
      assert r in Live(v);
    }
  }

  lemma CameAt(a: View, b: View, f: Field, x: nat, o: nat) returns (y: nat)
    requires Quotient(a, b) && o in Data(b, f, x)
    ensures y < |b.root| && y < |a.root| && b.root[y] == x && a.root[y] == y && o in Data(a, f, y)
  {
    hide Data;
    assert Came(a, b, f, x, o);
    y :| y < |b.root| && y < |a.root| && b.root[y] == x && a.root[y] == y && o in Data(a, f, y);
  }

  lemma QuotientRoot(b: View, c: View, y: nat)
    requires Quotient(b, c) && y < |b.root|
    ensures y < |c.root| && b.root[y] < |c.root| && c.root[b.root[y]] == c.root[y]
  {
    hide Data, Came;
  }

  lemma CameTrans(a: View, b: View, c: View, f: Field, r: nat, o: nat)
    requires Quotient(a, b) && Quotient(b, c) && Came(b, c, f, r, o)
    ensures Came(a, c, f, r, o)
  {
    hide Data, Quotient;
    var x: nat :| x < |c.root| && x < |b.root| && c.root[x] == r && b.root[x] == x && o in Data(b, f, x);
    var y := CameAt(a, b, f, x, o);
    QuotientRoot(b, c, y);
  }

  lemma QuotientTrans(a: View, b: View, c: View)
    requires Quotient(a, b) && Quotient(b, c) && IsRep(c.root)
    ensures Quotient(a, c)
  {
    forall f: Field, r, o | o in Data(c, f, r) ensures Came(a, c, f, r, o) {
      assert Came(b, c, f, r, o);
      CameTrans(a, b, c, f, r, o);
    }
    hide Data, Came;
    forall n | 0 <= n < |c.root| ensures c.root[n] < |a.root| && a.root[c.root[n]] == c.root[n] {
      assert b.root[c.root[n]] == c.root[n];
    }
    forall f: Field, n: nat | n < |c.root| ensures Data(a, f, n) <= Data(c, f, c.root[n]) {
      assert Data(a, f, n) <= Data(b, f, b.root[n]) <= Data(c, f, c.root[b.root[n]]);
    }
  }

  function DataAfter(v: View, dst: nat, src: nat, f: Field, n: nat): set<nat> {
    if n == src then {} else if n == dst then Data(v, f, dst) + Data(v, f, src) else Data(v, f, n)
  }

  lemma CollapseData(v: View, dst: nat, src: nat, f: Field, n: nat)
    requires dst in Live(v) && src in Live(v) && dst != src
    ensures Data(CollapseNodes(v, dst, src), f, n) == DataAfter(v, dst, src, f, n)
  {
  }

  lemma CollapseIsQuotient(v: View, dst: nat, src: nat)
    requires WellFormed(v) && dst in Live(v) && src in Live(v)
    ensures WellFormed(CollapseNodes(v, dst, src)) && Quotient(v, CollapseNodes(v, dst, src))
    ensures CollapseNodes(v, dst, src).root == Joined(v.root, dst, src)
  {
    if dst == src {
      QuotientSelf(v);
      assert Joined(v.root, dst, src) == v.root;
      return;
    }
    var w := CollapseNodes(v, dst, src);
    forall f: Field, n: nat ensures Data(w, f, n) == DataAfter(v, dst, src, f, n) {
      CollapseData(v, dst, src, f, n);
    }
    CollapseWellFormed(v, dst, src);
    CollapseQuotient(v, w, dst, src);
  }

  lemma CollapseWellFormed(v: View, dst: nat, src: nat)
    requires WellFormed(v) && dst in Live(v) && src in Live(v) && dst != src
    ensures WellFormed(CollapseNodes(v, dst, src))
  {
    var w := CollapseNodes(v, dst, src);
    forall f: Field, n, x | x in Data(w, f, n) ensures x < |w.root| {
      CollapseData(v, dst, src, f, n);
    }
  }

  lemma CollapseQuotient(v: View, w: View, dst: nat, src: nat)
    requires WellFormed(v) && dst in Live(v) && src in Live(v) && dst != src
    requires w.root == Joined(v.root, dst, src)
    requires forall f: Field, n: nat :: Data(w, f, n) == DataAfter(v, dst, src, f, n)
    ensures Quotient(v, w)
  {
    forall f: Field, r, o | o in Data(w, f, r) ensures Came(v, w, f, r, o) {
      var x := if r == dst && o !in Data(v, f, dst) then src else r;
      assert o in Data(v, f, x);
      assert x in Live(v);
    }
    forall f: Field, n: nat | n < |w.root| ensures Data(v, f, n) <= Data(w, f, w.root[n]) {
      if Data(v, f, n) != {} {
        var o :| o in Data(v, f, n);
        assert n in Live(v);
      }
    }
  }

  // ----- The detector's client -----

  function RepStep(v: View, i: nat): (View, nat) {
    var r := Find(v.root, i);
    (v.(graph := GetOrInsertNode(v.graph, r)), r)
  }

  function CopyEdges(v: View, n: nat): set<nat> {
    EdgesOf(v.graph, n).copies
  }

  function CollapseStep(v: View, node: nat, rep: nat): View {
    if rep < |v.root| && v.root[rep] < |v.root| then CollapseNodes(v, v.root[rep], Find(v.root, node)) else v
  }

  const CLIENT: Client<View> := Client(RepStep, CopyEdges, CollapseStep, (v: View, n: nat) => v)

  /** The copy edges between representatives. */
  function CopyGraph(v: View): Graph {
    map n | n in Live(v) :: Targets(v, Copies, n)
  }

  function Base(v: View): map<nat, nat> {
    map i: nat | i < |v.root| :: Find(v.root, i)
  }

  /** The state after the components in log were collapsed. */
  function Replay(v0: View, log: seq<Component>): View {
    if log == [] then v0 else Report(CLIENT, Replay(v0, log[..|log| - 1]), log[|log| - 1])
  }

  lemma {:induction false} FoldFacts(v: View, root: nat, others: seq<nat>)
    requires WellFormed(v) && root in Live(v) && root !in others && NoDups(others)
    requires forall x | x in others :: x in Live(v)
    ensures var w := Fold(CLIENT, v, root, others);
      && WellFormed(w) && Quotient(v, w)
      && (forall i | 0 <= i < |v.root| :: w.root[i] == if v.root[i] in others then root else v.root[i])
      && (forall f: Field, x | x != root && x !in others :: Data(w, f, x) == Data(v, f, x))
  {
    if others == [] {
      QuotientSelf(v);
    } else {
      var front, x := others[..|others| - 1], others[|others| - 1];
      FoldFacts(v, root, front);
      var u := Fold(CLIENT, v, root, front);
      assert x in others && x !in front;
      FoldStep(u, root, x);
      var w := Fold(CLIENT, v, root, others);
      assert w == CollapseNodes(u, root, x);
      QuotientTrans(v, u, w);
      hide Quotient, WellFormed, CollapseNodes, Data, Fold;
      assert others == front + [x];
    }
  }

  lemma FoldStep(u: View, root: nat, x: nat)
    requires WellFormed(u) && root in Live(u) && x in Live(u) && root != x
    ensures CollapseStep(u, x, root) == CollapseNodes(u, root, x)
    ensures WellFormed(CollapseNodes(u, root, x)) && Quotient(u, CollapseNodes(u, root, x))
    ensures CollapseNodes(u, root, x).root == Joined(u.root, root, x)
    ensures forall f: Field, n | n != root && n != x :: Data(CollapseNodes(u, root, x), f, n) == Data(u, f, n)
  {
    CollapseIsQuotient(u, root, x);
    forall f: Field, n: nat | n != root && n != x ensures Data(CollapseNodes(u, root, x), f, n) == Data(u, f, n) {
      CollapseData(u, root, x, f, n);
    }
  }

  lemma {:induction false} ReplayFacts(v0: View, log: seq<Component>)
    requires WellFormed(v0) && SccOrder(CopyGraph(v0), log)
    ensures var v := Replay(v0, log);
      && WellFormed(v) && Quotient(v0, v)
      && (forall i | 0 <= i < |v0.root| :: v.root[i] == Leader(log, v0.root[i]))
      && (forall f: Field, x | x !in Done(log) :: Data(v, f, x) == Data(v0, f, x))
  {
    if log == [] {
      QuotientSelf(v0);
    } else {
      var front, c := log[..|log| - 1], log[|log| - 1];
      ReplayFacts(v0, front);
      var u, v := Replay(v0, front), Replay(v0, log);
      ComponentIsLive(v0, u, front, c);
      FoldFacts(u, c.root, c.others);
      assert v == Fold(CLIENT, u, c.root, c.others);
      QuotientTrans(v0, u, v);
      hide Quotient, WellFormed, Fold, Data, SccOrder, ComesNext;
      forall i | 0 <= i < |v0.root| ensures v.root[i] == Leader(log, v0.root[i]) {
        LeadersStep(CopyGraph(v0), front, c, v0.root[i]);
      }
    }
  }

  lemma LeadersStep(g: Graph, front: seq<Component>, c: Component, x: nat)
    requires SccOrder(g, front) && ComesNext(g, Done(front), c)
    ensures var y := Leader(front, x);
      (if x in Nodes(c) then c.root else y) == (if y in c.others then c.root else y)
  {
    LeaderFacts(g, front, x);
  }

  lemma ComponentIsLive(v0: View, u: View, front: seq<Component>, c: Component)
    requires SccOrder(CopyGraph(v0), front) && ComesNext(CopyGraph(v0), Done(front), c)
    requires |u.root| == |v0.root| && forall i | 0 <= i < |v0.root| :: u.root[i] == Leader(front, v0.root[i])
    ensures forall x | x in Nodes(c) :: x in Live(u)
  {
    forall x | x in Nodes(c) ensures x in Live(u) {
      assert x in CopyGraph(v0);
      LeaderFacts(CopyGraph(v0), front, x);
    }
  }

  /** Equal but for graph nodes without edges, which lookups create. */
  ghost predicate Same(a: View, b: View) {
    && a.root == b.root && a.pts == b.pts
    && (forall n: nat :: EdgesOf(a.graph, n) == EdgesOf(b.graph, n))
  }

  lemma SameData(a: View, b: View)
    requires Same(a, b)
    ensures forall f: Field, n :: Data(a, f, n) == Data(b, f, n)
  {
  }

  lemma EdgesAfter(v: View, dst: nat, src: nat, n: nat)
    requires dst < |v.root| && dst != src
    ensures EdgesOf(CollapseNodes(v, dst, src).graph, n)
         == if n == src then Edges({}, {}, {})
            else if n == dst then Union(EdgesOf(v.graph, dst), EdgesOf(v.graph, src))
            else EdgesOf(v.graph, n)
  {
    var e := EdgesOf(v.graph, dst);
    assert Union(e, Edges({}, {}, {})) == e;
  }

  lemma SameCollapse(a: View, b: View, dst: nat, src: nat)
    requires Same(a, b) && dst < |a.root|
    ensures Same(CollapseNodes(a, dst, src), CollapseNodes(b, dst, src))
  {
    if dst != src {
      forall n: nat ensures EdgesOf(CollapseNodes(a, dst, src).graph, n) == EdgesOf(CollapseNodes(b, dst, src).graph, n) {
        EdgesAfter(a, dst, src, n);
        EdgesAfter(b, dst, src, n);
      }
    }
  }

  lemma {:induction false} SameFold(a: View, b: View, root: nat, others: seq<nat>)
    requires Same(a, b)
    ensures Same(Fold(CLIENT, a, root, others), Fold(CLIENT, b, root, others))
  {
    if others != [] {
      var front, x := others[..|others| - 1], others[|others| - 1];
      SameFold(a, b, root, front);
      var u, w := Fold(CLIENT, a, root, front), Fold(CLIENT, b, root, front);
      if root < |u.root| && u.root[root] < |u.root| {
        SameCollapse(u, w, u.root[root], Find(u.root, x));
      }
    }
  }

  /** The detector's account of its state: the components reported so far were collapsed. */
  ghost predicate Tracks(v0: View, v: View, log: seq<Component>) {
    WellFormed(v) && Same(v, Replay(v0, log))
  }

  ghost function Sim(v0: View): (View, seq<Component>) -> bool {
    (v, log) => Tracks(v0, v, log)
  }

  lemma GetRepIsLawful(v0: View, v: View, log: seq<Component>, i: nat)
    requires WellFormed(v0) && Tracks(v0, v, log) && SccOrder(CopyGraph(v0), log) && i < |v0.root|
    ensures GetRepLaw(CLIENT, Base(v0), Sim(v0), v, log, i)
  {
    ReplayFacts(v0, log);
    LeaderFacts(CopyGraph(v0), log, v0.root[i]);
    var (t, r) := RepStep(v, i);
    assert r in Live(v);
    TouchKeeps(v, r);
    assert Tracks(v0, t, log);
  }

  lemma TouchKeeps(v: View, r: nat)
    requires WellFormed(v) && r in Live(v)
    ensures var t := v.(graph := GetOrInsertNode(v.graph, r)); WellFormed(t) && Same(t, v)
  {
    var t := v.(graph := GetOrInsertNode(v.graph, r));
    SameData(t, v);
  }

  lemma ChildrenIsLawful(v0: View, v: View, log: seq<Component>, n: nat)
    requires WellFormed(v0) && Tracks(v0, v, log) && SccOrder(CopyGraph(v0), log)
    requires n in CopyGraph(v0) && n !in Done(log)
    ensures ChildrenLaw(CLIENT, CopyGraph(v0), Base(v0), v, n)
  {
    ReplayFacts(v0, log);
    SameData(v, Replay(v0, log));
    assert CLIENT.children(v, n) == Data(v, Copies, n) == Data(v0, Copies, n);
  }

  lemma ReportIsLawful(v0: View, v: View, log: seq<Component>, c: Component)
    requires WellFormed(v0) && Tracks(v0, v, log) && SccOrder(CopyGraph(v0), log)
    requires ComesNext(CopyGraph(v0), Done(log), c)
    ensures Tracks(v0, Report(CLIENT, v, c), log + [c])
  {
    var u := Replay(v0, log);
    ReplayFacts(v0, log);
    ComponentIsLive(v0, u, log, c);
    FoldFacts(v, c.root, c.others);
    SameFold(v, u, c.root, c.others);
    hide WellFormed, Same, SccOrder, Fold, Quotient;
    assert (log + [c])[..|log|] == log;
    assert Replay(v0, log + [c]) == Report(CLIENT, u, c);
  }

  lemma OnlineIsLawful(v0: View)
    requires WellFormed(v0)
    ensures Lawful(CLIENT, CopyGraph(v0), Base(v0), Sim(v0)) && Tracks(v0, v0, [])
  {
    var g := CopyGraph(v0);
    hide Tracks, SccOrder, ComesNext, Done, GetRepLaw, ChildrenLaw, Report;
    forall s, log, i | Sim(v0)(s, log) && SccOrder(g, log) && i in Base(v0) ensures GetRepLaw(CLIENT, Base(v0), Sim(v0), s, log, i) {
      GetRepIsLawful(v0, s, log, i);
    }
    forall s, log, n | Sim(v0)(s, log) && SccOrder(g, log) && n in g && n !in Done(log)
      ensures ChildrenLaw(CLIENT, g, Base(v0), s, n)
    {
      ChildrenIsLawful(v0, s, log, n);
    }
    forall s, log, c | Sim(v0)(s, log) && SccOrder(g, log) && ComesNext(g, Done(log), c)
      ensures Sim(v0)(Report(CLIENT, s, c), log + [c])
    {
      ReportIsLawful(v0, s, log, c);
    }
    TracksStart(v0);
  }

  lemma TracksStart(v0: View)
    requires WellFormed(v0)
    ensures Tracks(v0, v0, [])
  {
  }

  // ----- What collapsing keeps -----

  /** v arose from v0 by collapsing strongly connected components of the copy edges. */
  ghost predicate Collapsed(v0: View, v: View) {
    && WellFormed(v) && Quotient(v0, v)
    && forall x, y | x in Live(v0) && y in Live(v0) :: v.root[x] == v.root[y] ==> x == y || IsCollapsed(v0, v, x, y)
  }

  /** x and y are on a cycle, and everything on a cycle with x was merged with x. */
  ghost predicate IsCollapsed(v0: View, v: View, x: nat, y: nat)
    requires |v.root| == |v0.root|
  {
    && Mutual(CopyGraph(v0), x, y)
    && forall z | z in Live(v0) && Mutual(CopyGraph(v0), x, z) :: v.root[z] == v.root[x]
  }

  lemma TrackedIsCollapsed(v0: View, v: View, log: seq<Component>)
    requires WellFormed(v0) && Tracks(v0, v, log) && SccOrder(CopyGraph(v0), log)
    ensures Collapsed(v0, v)
  {
    var g, u := CopyGraph(v0), Replay(v0, log);
    ReplayFacts(v0, log);
    SameQuotient(v0, u, v);
    hide Tracks, Quotient, WellFormed;
    forall x, y | x in Live(v0) && y in Live(v0) && v.root[x] == v.root[y] && x != y ensures IsCollapsed(v0, v, x, y) {
      LeaderFacts(g, log, x);
      LeaderFacts(g, log, y);
      if x in Done(log) {
        LeadersAgree(g, log, x, y);
        forall z | z in Live(v0) && Mutual(g, x, z) ensures v.root[z] == v.root[x] {
          LeadersAgree(g, log, x, z);
        }
      }
    }
  }

  lemma SameQuotient(v0: View, u: View, v: View)
    requires Quotient(v0, u) && Same(v, u)
    ensures Quotient(v0, v)
  {
    SameData(v, u);
    hide Data, Same;
    forall f: Field, r, o | o in Data(v, f, r) ensures Came(v0, v, f, r, o) {
      assert Came(v0, u, f, r, o);
    }
  }

  lemma TargetsGrow(v0: View, v: View, f: Field, n: nat, r: nat)
    requires WellFormed(v0) && Quotient(v0, v) && n < |v.root| && r in Targets(v0, f, n)
    ensures r < |v.root| && v.root[r] in Targets(v, f, v.root[n])
  {
    var e :| e in Data(v0, f, n) && Find(v0.root, e) == r;
    assert e in Data(v, f, v.root[n]);
  }

  lemma CollapseCovers(v0: View, v: View, cs: seq<Constraint>)
    requires WellFormed(v0) && Quotient(v0, v) && InRange(cs, |v.root|) && CoversAll(v0, cs)
    ensures CoversAll(v, cs)
  {
    forall c | c in cs ensures Covers(v, c) {
      assert Covers(v0, c);
      var s, d := v0.root[c.src], v0.root[c.dest];
      match c.ty
      case AddrOf => assert c.src in Data(v0, Pts, d) && Data(v0, Pts, d) <= Data(v, Pts, v.root[d]);
      case Copy => TargetsGrow(v0, v, Copies, s, d);
      case Load => TargetsGrow(v0, v, Loads, s, d);
      case Store => TargetsGrow(v0, v, Stores, d, s);
    }
  }

  lemma SoundEdge(v0: View, l: PtsGraph, x: nat, y: nat)
    requires WellFormed(v0) && Sound(v0, l) && x in Live(v0) && y in Targets(v0, Copies, x)
    ensures At(l, x) <= At(l, y)
  {
    var e :| e in Data(v0, Copies, x) && Find(v0.root, e) == y;
    assert SoundAt(v0, l, x);
  }

  lemma {:induction false} SoundAlong(v0: View, l: PtsGraph, p: seq<nat>)
    requires WellFormed(v0) && Sound(v0, l) && IsPath(CopyGraph(v0), p)
    ensures At(l, p[0]) <= At(l, p[|p| - 1])
    decreases |p|
  {
    if |p| > 1 {
      assert p[1] in Succ(CopyGraph(v0), p[0]);
      SoundEdge(v0, l, p[0], p[1]);
      var q := p[1..];
      assert forall i | 0 <= i < |q| :: q[i] == p[i + 1];
      SoundAlong(v0, l, q);
    }
  }

  lemma SoundReaches(v0: View, l: PtsGraph, x: nat, y: nat)
    requires WellFormed(v0) && Sound(v0, l) && Reaches(CopyGraph(v0), x, y)
    ensures At(l, x) <= At(l, y)
  {
    var p: seq<nat> :| Joins(CopyGraph(v0), p, x, y);
    SoundAlong(v0, l, p);
  }

  lemma CollapseSound(v0: View, v: View, l: PtsGraph)
    requires WellFormed(v0) && Collapsed(v0, v) && Sound(v0, l)
    ensures Sound(v, l)
  {
    forall n: nat | n < |v.root| ensures At(l, n) == At(l, v.root[n]) {
      SoundMerged(v0, v, l, n);
    }
    forall n: nat | n < |v.root| ensures SoundAt(v, l, n) {
      CollapseSoundAt(v0, v, l, n);
    }
  }

  lemma SoundMerged(v0: View, v: View, l: PtsGraph, n: nat)
    requires WellFormed(v0) && Collapsed(v0, v) && Sound(v0, l) && n < |v.root|
    ensures At(l, n) == At(l, v.root[n])
  {
    var x, y := v0.root[n], v.root[n];
    assert v.root[x] == v.root[y] && x in Live(v0) && y in Live(v0);
    if x != y {
      assert IsCollapsed(v0, v, x, y);
      SoundReaches(v0, l, x, y);
      SoundReaches(v0, l, y, x);
    }
  }

  lemma CollapseSoundAt(v0: View, v: View, l: PtsGraph, n: nat)
    requires WellFormed(v0) && Collapsed(v0, v) && Sound(v0, l) && n < |v.root|
    requires Respects(l, v.root)
    ensures SoundAt(v, l, n)
  {
    forall f: Field, o | o in Data(v, f, n) ensures exists x: nat :: x in Live(v0) && v.root[x] == n && o in Data(v0, f, x) && SoundAt(v0, l, x) && At(l, x) == At(l, n) {
      assert Came(v0, v, f, n, o);
      var x: nat :| x < |v.root| && x < |v0.root| && v.root[x] == n && v0.root[x] == x && o in Data(v0, f, x);
      assert x in Live(v0);
    }
    assert At(v.pts, n) == Data(v, Pts, n);
  }

  lemma {:induction false} ClosedAlong(v0: View, p: seq<nat>)
    requires IsPath(CopyGraph(v0), p) && forall i | 0 <= i < |p| :: ClosedAt(v0, p[i])
    ensures At(v0.pts, p[0]) <= At(v0.pts, p[|p| - 1])
    decreases |p|
  {
    if |p| > 1 {
      assert p[1] in Succ(CopyGraph(v0), p[0]);
      assert ClosedAt(v0, p[0]);
      var q := p[1..];
      assert forall i | 0 <= i < |q| :: q[i] == p[i + 1];
      ClosedAlong(v0, q);
    }
  }

  /** Nodes that are merged, and all closed, already had the same points-to set. */
  lemma MergedHadTheSame(v0: View, v: View, x: nat, y: nat)
    requires WellFormed(v0) && Collapsed(v0, v)
    requires x in Live(v0) && y in Live(v0) && v.root[x] == v.root[y]
    requires forall z | z in Live(v0) && v.root[z] == v.root[x] :: ClosedAt(v0, z)
    ensures At(v0.pts, x) <= At(v0.pts, y)
  {
    if x != y {
      var g := CopyGraph(v0);
      assert IsCollapsed(v0, v, x, y);
      var p: seq<nat> :| Joins(g, p, x, y);
      forall i | 0 <= i < |p| ensures ClosedAt(v0, p[i]) {
        OnTheWay(g, p, i);
        ReachesTrans(g, p[i], y, x);
        assert p[i] in g;
        assert Mutual(g, x, p[i]);
      }
      ClosedAlong(v0, p);
    }
  }

  lemma PtsCame(v0: View, v: View, r: nat, o: nat, y: nat)
    requires WellFormed(v0) && Collapsed(v0, v) && r in Live(v) && o in At(v.pts, r)
    requires y in Live(v0) && v.root[y] == r
    requires forall z | z in Live(v0) && v.root[z] == r :: ClosedAt(v0, z)
    ensures o in At(v0.pts, y)
  {
    assert o in Data(v, Pts, r);
    assert Came(v0, v, Pts, r, o);
    var x: nat :| x < |v.root| && x < |v0.root| && v.root[x] == r && v0.root[x] == x && o in Data(v0, Pts, x);
    MergedHadTheSame(v0, v, x, y);
  }

  /** The node an edge of r came from, and where it led. */
  lemma EdgeCame(v0: View, v: View, f: Field, r: nat, t: nat) returns (y: nat, t0: nat)
    requires WellFormed(v0) && WellFormed(v) && Quotient(v0, v) && r in Live(v) && t in Targets(v, f, r)
    ensures y in Live(v0) && v.root[y] == r && t0 in Targets(v0, f, y) && t0 < |v.root| && v.root[t0] == t
  {
    var e :| e in Data(v, f, r) && Find(v.root, e) == t;
    assert Came(v0, v, f, r, e);
    y :| y < |v.root| && y < |v0.root| && v.root[y] == r && v0.root[y] == y && e in Data(v0, f, y);
    t0 := Find(v0.root, e);
  }

  lemma CollapseClosedAt(v0: View, v: View, r: nat)
    requires WellFormed(v0) && Collapsed(v0, v) && r in Live(v)
    requires forall z | z in Live(v0) && v.root[z] == r :: ClosedAt(v0, z)
    ensures ClosedAt(v, r)
  {
    forall t | t in Targets(v, Copies, r) ensures At(v.pts, r) <= At(v.pts, t) {
      var y, t0 := EdgeCame(v0, v, Copies, r, t);
      forall o | o in At(v.pts, r) ensures o in At(v.pts, t) {
        PtsCame(v0, v, r, o, y);
        assert ClosedAt(v0, y);
        assert o in Data(v0, Pts, t0) && Data(v0, Pts, t0) <= Data(v, Pts, v.root[t0]);
      }
    }
    forall o, t | o in At(v.pts, r) && t in Targets(v, Loads, r) ensures t in Targets(v, Copies, Find(v.root, o)) {
      var y, t0 := EdgeCame(v0, v, Loads, r, t);
      PtsCame(v0, v, r, o, y);
      assert ClosedAt(v0, y) && o in Data(v0, Pts, y);
      TargetsGrow(v0, v, Copies, Find(v0.root, o), t0);
    }
    forall o, t | o in At(v.pts, r) && t in Targets(v, Stores, r) ensures Find(v.root, o) in Targets(v, Copies, t) {
      var y, t0 := EdgeCame(v0, v, Stores, r, t);
      PtsCame(v0, v, r, o, y);
      assert ClosedAt(v0, y) && o in Data(v0, Pts, y);
      TargetsGrow(v0, v, Copies, t0, Find(v0.root, o));
    }
  }

  /** A representative stays closed unless it was merged with one that was not. */
  lemma CollapseClosed(v0: View, v: View, open: set<nat>)
    requires WellFormed(v0) && Collapsed(v0, v) && ClosedOutside(v0, open)
    ensures ClosedOutside(v, Reps(v.root, open))
  {
    forall r | r in Live(v) && r !in Reps(v.root, open) ensures ClosedAt(v, r) {
      forall z | z in Live(v0) && v.root[z] == r ensures ClosedAt(v0, z) {
        assert z in open ==> Find(v.root, z) in Reps(v.root, open);
      }
      CollapseClosedAt(v0, v, r);
    }
  }

  /** Merging two representatives leaves fewer; merging none changes no data. */
  lemma CollapseProgress(v0: View, v: View)
    requires WellFormed(v0) && WellFormed(v) && Quotient(v0, v)
    ensures Live(v) <= Live(v0)
    ensures Live(v) == Live(v0) ==> v.root == v0.root && forall f: Field, n: nat | n < |v.root| :: Data(v, f, n) == Data(v0, f, n)
  {
    if Live(v) == Live(v0) {
      forall n: nat | n < |v.root| ensures v.root[n] == v0.root[n] {
        assert v0.root[n] in Live(v0);
      }
      forall f: Field, n: nat | n < |v.root| ensures Data(v, f, n) == Data(v0, f, n) {
        if n in Live(v) {
          forall o | o in Data(v, f, n) ensures o in Data(v0, f, n) {
            assert Came(v0, v, f, n, o);
          }
        } else {
          assert Data(v, f, n) == {} == Data(v0, f, n);
        }
      }
    }
  }
}
