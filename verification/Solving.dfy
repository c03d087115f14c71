/** The constraint solver: two FIFO worklists over a graph that grows, and is collapsed, while it is solved. */
module Solving {
  import opened Constraints
  import opened ConstraintGraphs
  import opened Graphs
  import opened CycleDetectors
  import opened OnlineCycles

  /** A FIFO queue without duplicates. */
  class AndersWorkList {
    var list: seq<nat>
    var members: set<nat>

    ghost predicate Valid()
      reads this
    {
      members == Elems(list) && NoDups(list)
    }

    constructor ()
      ensures Valid() && list == []
    {
      list, members := [], {};
    }

    method Enqueue(elem: nat)
      requires Valid()
      modifies this
      ensures Valid() && list == if elem in old(list) then old(list) else old(list) + [elem]
    {
      if elem !in members {
        list := list + [elem];
        members := members + {elem};
      }
    }

    method Dequeue() returns (ret: nat)
      requires Valid() && list != []
      modifies this
      ensures Valid() && ret == old(list)[0] && list == old(list)[1..]
    {
      ret := list[0];
      list := list[1..];
      members := members - {ret};
    }
  }

  // ----- The steps of the solver, on values -----

  /** Copy edges from src to every node of dsts. */
  function CopyToAll(g: ConstraintGraph, src: nat, dsts: set<nat>): ConstraintGraph {
    if dsts == {} then g else g[src := EdgesOf(g, src).(copies := EdgesOf(g, src).copies + dsts)]
  }

  /** Copy edges from every node of srcs to dst. */
  function CopyFromAll(g: ConstraintGraph, srcs: set<nat>, dst: nat): ConstraintGraph {
    map n | n in g.Keys + srcs :: if n in srcs then EdgesOf(g, n).(copies := EdgesOf(g, n).copies + {dst}) else g[n]
  }

  function SetLoads(g: ConstraintGraph, n: nat, s: set<nat>): ConstraintGraph {
    g[n := EdgesOf(g, n).(loads := s)]
  }

  function SetStores(g: ConstraintGraph, n: nat, s: set<nat>): ConstraintGraph {
    g[n := EdgesOf(g, n).(stores := s)]
  }

  function SetCopies(g: ConstraintGraph, n: nat, s: set<nat>): ConstraintGraph {
    g[n := EdgesOf(g, n).(copies := s)]
  }

  /** Every node of ts also points to what is in p. */
  function Spread(pts: PtsGraph, ts: set<nat>, p: set<nat>): PtsGraph {
    map n | n in pts.Keys + ts :: if n in ts then At(pts, n) + p else pts[n]
  }

  /** The points-to facts and copy edges that could still be added. */
  ghost function Missing(v: View): set<(bool, nat, nat)> {
    (set n: nat, o: nat | n < |v.root| && o < |v.root| && o !in At(v.pts, n) :: (true, n, o))
    + (set n: nat, m: nat | n < |v.root| && m < |v.root| && v.root[m] == m && m !in Data(v, Copies, n) :: (false, n, m))
  }

  /** The state represents the constraints and claims nothing beyond l. */
  ghost predicate Good(v: View, cs: seq<Constraint>, l: PtsGraph) {
    WellFormed(v) && InRange(cs, |v.root|) && CoversAll(v, cs) && Sound(v, l)
  }

  /** v2 has the points-to sets of v1, the same load and store targets, and no fewer copy targets. */
  ghost predicate Extends(v1: View, v2: View) {
    && v2.root == v1.root && v2.pts == v1.pts
    && (forall n: nat :: Targets(v2, Loads, n) == Targets(v1, Loads, n))
    && (forall n: nat :: Targets(v2, Stores, n) == Targets(v1, Stores, n))
    && (forall n: nat :: Targets(v1, Copies, n) <= Targets(v2, Copies, n))
  }

  lemma ExtendsCovers(v1: View, v2: View, cs: seq<Constraint>)
    requires IsRep(v1.root) && Extends(v1, v2) && InRange(cs, |v1.root|) && CoversAll(v1, cs)
    ensures CoversAll(v2, cs)
  {
    hide Targets;
    forall c | c in cs ensures Covers(v2, c) {
      assert Covers(v1, c);
    }
  }

  lemma ExtendsClosed(v1: View, v2: View, open: set<nat>, changed: set<nat>)
    requires Extends(v1, v2) && ClosedOutside(v1, open)
    requires forall n: nat | n !in changed :: Targets(v2, Copies, n) == Targets(v1, Copies, n)
    ensures ClosedOutside(v2, open + changed)
  {
    hide Targets;
    forall n | n in Live(v2) && n !in open + changed ensures ClosedAt(v2, n) {
      assert n in Live(v1) && ClosedAt(v1, n);
    }
  }

  /** The load edges of n were turned into copy edges for every o in s. */
  ghost predicate LoadsDone(v: View, n: nat, s: set<nat>) {
    forall o, r | o in s && r in Targets(v, Loads, n) :: r in Targets(v, Copies, Find(v.root, o))
  }

  ghost predicate StoresDone(v: View, n: nat, s: set<nat>) {
    forall o, r | o in s && r in Targets(v, Stores, n) :: Find(v.root, o) in Targets(v, Copies, r)
  }

  lemma ExtendsDone(v1: View, v2: View, n: nat, s: set<nat>)
    requires Extends(v1, v2)
    ensures LoadsDone(v1, n, s) ==> LoadsDone(v2, n, s)
    ensures StoresDone(v1, n, s) ==> StoresDone(v2, n, s)
  {
    hide Targets;
  }

  lemma ExtendsTrans(a: View, b: View, c: View)
    requires Extends(a, b) && Extends(b, c)
    ensures Extends(a, c)
  {
    hide Targets;
  }

  /** The state after the load edges of node were processed for a node it points to, represented by a. */
  function AfterLoads(v: View, node: nat, a: nat): View {
    var r := Targets(v, Loads, node);
    v.(graph := SetLoads(CopyToAll(v.graph, a, r), node, r))
  }

  function AfterStores(v: View, node: nat, a: nat): View {
    var r := Targets(v, Stores, node);
    v.(graph := SetStores(CopyFromAll(v.graph, r, a), node, r))
  }

  lemma TargetsAreLive(v: View, f: Field, n: nat)
    requires WellFormed(v)
    ensures Targets(v, f, n) <= Live(v)
    ensures Reps(v.root, Targets(v, f, n)) == Targets(v, f, n)
  {
  }

  lemma RepsUnion(root: seq<nat>, a: set<nat>, b: set<nat>)
    ensures Reps(root, a + b) == Reps(root, a) + Reps(root, b)
  {
  }

  lemma LoadsData(v: View, node: nat, a: nat, n: nat)
    ensures var w := AfterLoads(v, node, a);
      && Data(w, Copies, n) == Data(v, Copies, n) + (if n == a then Targets(v, Loads, node) else {})
      && Data(w, Loads, n) == (if n == node then Targets(v, Loads, node) else Data(v, Loads, n))
      && Data(w, Stores, n) == Data(v, Stores, n)
      && Data(w, Pts, n) == Data(v, Pts, n)
  {
  }

  /** Representatives that are already among the data are already among the targets. */
  lemma TargetsGrown(v: View, f: Field, n: nat, s: set<nat>)
    requires s <= Live(v) && s <= Data(v, f, n)
    ensures Targets(v, f, n) + s == Targets(v, f, n)
  {
  }

  lemma LoadsKeepTargets(v: View, node: nat, a: nat, n: nat)
    requires WellFormed(v)
    ensures var w := AfterLoads(v, node, a);
      Targets(w, Loads, n) == Targets(v, Loads, n) && Targets(w, Stores, n) == Targets(v, Stores, n)
  {
    LoadsData(v, node, a, n);
    TargetsAreLive(v, Loads, node);
    hide WellFormed, Data, Live;
  }

  lemma LoadsAddTargets(v: View, node: nat, a: nat, n: nat)
    requires WellFormed(v)
    ensures Targets(AfterLoads(v, node, a), Copies, n) == Targets(v, Copies, n) + (if n == a then Targets(v, Loads, node) else {})
  {
    LoadsData(v, node, a, n);
    TargetsAreLive(v, Loads, node);
    hide WellFormed, Data, Live;
    if n == a {
      RepsUnion(v.root, Data(v, Copies, n), Targets(v, Loads, node));
    } else {
      assert Data(v, Copies, n) + {} == Data(v, Copies, n);
    }
  }

  lemma LoadsWellFormed(v: View, node: nat, a: nat)
    requires WellFormed(v) && node in Live(v) && a in Live(v)
    ensures WellFormed(AfterLoads(v, node, a))
  {
    var w := AfterLoads(v, node, a);
    TargetsAreLive(v, Loads, node);
    forall f: Field, n: nat, x | x in Data(w, f, n) ensures x < |w.root| {
      LoadsData(v, node, a, n);
    }
  }

  lemma LoadsExtends(v: View, node: nat, a: nat)
    requires WellFormed(v) && node in Live(v) && a in Live(v)
    ensures WellFormed(AfterLoads(v, node, a)) && Extends(v, AfterLoads(v, node, a))
    ensures Targets(v, Loads, node) <= Targets(AfterLoads(v, node, a), Copies, a)
    ensures forall n: nat | n != a || Targets(v, Loads, node) <= Data(v, Copies, a) ::
              Targets(AfterLoads(v, node, a), Copies, n) == Targets(v, Copies, n)
  {
    hide Targets, Data, WellFormed, Live, CopyToAll, SetLoads;
    var w := AfterLoads(v, node, a);
    LoadsWellFormed(v, node, a);
    assert w.root == v.root && w.pts == v.pts;
    TargetsAreLive(v, Loads, node);
    if Targets(v, Loads, node) <= Data(v, Copies, a) {
      TargetsGrown(v, Copies, a, Targets(v, Loads, node));
    }
    hide AfterLoads;
    forall n: nat ensures Targets(w, Loads, n) == Targets(v, Loads, n) && Targets(w, Stores, n) == Targets(v, Stores, n) {
      LoadsKeepTargets(v, node, a, n);
    }
    forall n: nat ensures Targets(w, Copies, n) == Targets(v, Copies, n) + (if n == a then Targets(v, Loads, node) else {}) {
      LoadsAddTargets(v, node, a, n);
    }
  }

  lemma SoundRespects(v: View, l: PtsGraph, n: nat)
    requires Sound(v, l) && n < |v.root|
    ensures SoundAt(v, l, n) && At(l, n) == At(l, v.root[n])
  {
  }

  /** The copy edge that a load edge from node to r adds for o is sound. */
  lemma LoadEdgeIsSound(v: View, l: PtsGraph, node: nat, o: nat, r: nat)
    requires WellFormed(v) && Sound(v, l) && node < |v.root| && o in At(l, node) && r in Targets(v, Loads, node)
    ensures r < |v.root| && o < |v.root| && At(l, v.root[o]) <= At(l, r)
  {
    var e :| e in Data(v, Loads, node) && Find(v.root, e) == r;
    SoundRespects(v, l, node);
    SoundRespects(v, l, e);
    SoundRespects(v, l, o);
  }

  lemma StoreEdgeIsSound(v: View, l: PtsGraph, node: nat, o: nat, r: nat)
    requires WellFormed(v) && Sound(v, l) && node < |v.root| && o in At(l, node) && r in Targets(v, Stores, node)
    ensures r < |v.root| && o < |v.root| && At(l, r) <= At(l, v.root[o])
  {
    var e :| e in Data(v, Stores, node) && Find(v.root, e) == r;
    SoundRespects(v, l, node);
    SoundRespects(v, l, e);
    SoundRespects(v, l, o);
  }

  lemma LoadsSound(v: View, l: PtsGraph, node: nat, o: nat)
    requires WellFormed(v) && Sound(v, l) && node in Live(v) && o in At(v.pts, node) && o < |v.root|
    ensures Sound(AfterLoads(v, node, v.root[o]), l)
  {
    var w := AfterLoads(v, node, v.root[o]);
    SoundRespects(v, l, node);
    forall n: nat | n < |w.root| ensures SoundAt(w, l, n) {
      SoundRespects(v, l, n);
      LoadsSoundAt(v, l, node, o, n);
    }
  }

  lemma LoadsSoundAt(v: View, l: PtsGraph, node: nat, o: nat, n: nat)
    requires WellFormed(v) && Sound(v, l) && node in Live(v) && o in At(l, node) && o < |v.root| && n < |v.root| && SoundAt(v, l, n)
    ensures SoundAt(AfterLoads(v, node, v.root[o]), l, n)
  {
    var a := v.root[o];
    var w := AfterLoads(v, node, a);
    LoadsData(v, node, a, n);
    hide AfterLoads, Targets, Sound, WellFormed;
    forall r | r in Targets(v, Loads, node) && n == a ensures At(l, n) <= At(l, r) {
      LoadEdgeIsSound(v, l, node, o, r);
    }
    forall r, x | r in Targets(v, Loads, node) && n == node && x in At(l, n) ensures At(l, x) <= At(l, r) {
      LoadEdgeIsSound(v, l, node, x, r);
      SoundRespects(v, l, x);
    }
    assert At(w.pts, n) == Data(w, Pts, n) == At(v.pts, n);
  }

  // The same for the store edges of node.

  lemma StoresData(v: View, node: nat, a: nat, n: nat)
    ensures var w := AfterStores(v, node, a);
      && Data(w, Copies, n) == Data(v, Copies, n) + (if n in Targets(v, Stores, node) then {a} else {})
      && Data(w, Loads, n) == Data(v, Loads, n)
      && Data(w, Stores, n) == (if n == node then Targets(v, Stores, node) else Data(v, Stores, n))
      && Data(w, Pts, n) == Data(v, Pts, n)
  {
  }

  lemma StoresKeepTargets(v: View, node: nat, a: nat, n: nat)
    requires WellFormed(v)
    ensures var w := AfterStores(v, node, a);
      Targets(w, Loads, n) == Targets(v, Loads, n) && Targets(w, Stores, n) == Targets(v, Stores, n)
  {
    StoresData(v, node, a, n);
    TargetsAreLive(v, Stores, node);
    hide WellFormed, Data, Live;
  }

  lemma StoresAddTargets(v: View, node: nat, a: nat, n: nat)
    requires WellFormed(v) && a in Live(v)
    ensures Targets(AfterStores(v, node, a), Copies, n)
         == Targets(v, Copies, n) + (if n in Targets(v, Stores, node) then {a} else {})
  {
    StoresData(v, node, a, n);
    hide WellFormed, Data;
    if n in Targets(v, Stores, node) {
      RepsUnion(v.root, Data(v, Copies, n), {a});
      assert Reps(v.root, {a}) == {a};
    } else {
      assert Data(v, Copies, n) + {} == Data(v, Copies, n);
    }
  }

  lemma StoresWellFormed(v: View, node: nat, a: nat)
    requires WellFormed(v) && node in Live(v) && a in Live(v)
    ensures WellFormed(AfterStores(v, node, a))
  {
    hide Data, Targets;
    var w := AfterStores(v, node, a);
    TargetsAreLive(v, Stores, node);
    assert w.root == v.root && w.pts == v.pts && w.graph.Keys == v.graph.Keys + Targets(v, Stores, node) + {node};
    forall f: Field, n: nat, x | x in Data(w, f, n) ensures x < |w.root| {
      StoresDataLive(v, node, a, f, n, x);
    }
  }

  lemma StoresDataLive(v: View, node: nat, a: nat, f: Field, n: nat, x: nat)
    requires WellFormed(v) && a in Live(v) && x in Data(AfterStores(v, node, a), f, n)
    ensures x < |v.root|
  {
    hide Data, Targets, AfterStores;
    TargetsAreLive(v, Stores, node);
    StoresData(v, node, a, n);
    assert f == Pts || f == Copies || f == Loads || f == Stores;
  }

  lemma StoresExtends(v: View, node: nat, a: nat)
    requires WellFormed(v) && node in Live(v) && a in Live(v)
    ensures WellFormed(AfterStores(v, node, a)) && Extends(v, AfterStores(v, node, a))
    ensures forall r | r in Targets(v, Stores, node) :: a in Targets(AfterStores(v, node, a), Copies, r)
    ensures forall n: nat | n !in Targets(v, Stores, node) || a in Data(v, Copies, n) ::
              Targets(AfterStores(v, node, a), Copies, n) == Targets(v, Copies, n)
  {
    var w := AfterStores(v, node, a);
    StoresWellFormed(v, node, a);
    assert w.root == v.root && w.pts == v.pts;
    forall n: nat | a in Data(v, Copies, n) ensures Targets(v, Copies, n) + {a} == Targets(v, Copies, n) {
      TargetsGrown(v, Copies, n, {a});
    }
    hide Targets, Data, AfterStores, WellFormed, Live;
    forall n: nat ensures Targets(w, Loads, n) == Targets(v, Loads, n) && Targets(w, Stores, n) == Targets(v, Stores, n) {
      StoresKeepTargets(v, node, a, n);
    }
    forall n: nat ensures Targets(w, Copies, n) == Targets(v, Copies, n) + (if n in Targets(v, Stores, node) then {a} else {}) {
      StoresAddTargets(v, node, a, n);
    }
  }

  lemma StoresSound(v: View, l: PtsGraph, node: nat, o: nat)
    requires WellFormed(v) && Sound(v, l) && node in Live(v) && o in At(v.pts, node) && o < |v.root|
    ensures Sound(AfterStores(v, node, v.root[o]), l)
  {
    var a := v.root[o];
    var w := AfterStores(v, node, a);
    SoundRespects(v, l, node);
    forall n: nat | n < |w.root| ensures SoundAt(w, l, n) {
      SoundRespects(v, l, n);
      StoresData(v, node, a, n);
      if n in Targets(v, Stores, node) {
        StoreEdgeIsSound(v, l, node, o, n);
      }
      forall r, x | r in Targets(v, Stores, node) && n == node && x in At(l, n) ensures At(l, r) <= At(l, x) {
        StoreEdgeIsSound(v, l, node, x, r);
        SoundRespects(v, l, x);
      }
      hide AfterStores, Targets, Sound, WellFormed;
      assert At(w.pts, n) == Data(w, Pts, n) == At(v.pts, n);
    }
  }

  // Propagation along the copy edges of node.

  /** Copy edges to merged nodes are redirected, except those that now lead back to node. */
  function Refreshed(root: seq<nat>, s: set<nat>, node: nat): set<nat> {
    set e | e in s :: if Find(root, e) == node then e else Find(root, e)
  }

  function AfterCopies(v: View, node: nat): View {
    v.(pts := Spread(v.pts, Targets(v, Copies, node) - {node}, At(v.pts, node)),
       graph := SetCopies(v.graph, node, Refreshed(v.root, Data(v, Copies, node), node)))
  }

  lemma CopiesData(v: View, node: nat, n: nat)
    ensures var w := AfterCopies(v, node);
      && Data(w, Copies, n) == (if n == node then Refreshed(v.root, Data(v, Copies, node), node) else Data(v, Copies, n))
      && Data(w, Loads, n) == Data(v, Loads, n)
      && Data(w, Stores, n) == Data(v, Stores, n)
      && At(w.pts, n) == At(v.pts, n) + (if n in Targets(v, Copies, node) && n != node then At(v.pts, node) else {})
  {
  }

  lemma CopiesKeepTargets(v: View, node: nat, f: Field, n: nat)
    requires WellFormed(v) && f != Pts
    ensures Targets(AfterCopies(v, node), f, n) == Targets(v, f, n)
  {
    CopiesData(v, node, n);
    assert AfterCopies(v, node).root == v.root;
    hide AfterCopies;
    if f == Copies && n == node {
      forall r ensures r in Reps(v.root, Refreshed(v.root, Data(v, Copies, node), node)) <==> r in Targets(v, Copies, node) {
        if r in Targets(v, Copies, node) {
          var e :| e in Data(v, Copies, node) && Find(v.root, e) == r;
          assert (if Find(v.root, e) == node then e else Find(v.root, e)) in Refreshed(v.root, Data(v, Copies, node), node);
        }
      }
    }
  }

  lemma DataInRange(v: View, f: Field, n: nat)
    requires WellFormed(v)
    ensures forall x | x in Data(v, f, n) :: x < |v.root| && v.root[x] < |v.root|
  {
  }

  lemma CopiesInRange(v: View, node: nat, f: Field, n: nat)
    requires WellFormed(v)
    ensures forall x | x in Data(AfterCopies(v, node), f, n) :: x < |v.root|
  {
    CopiesData(v, node, n);
    DataInRange(v, f, n);
    DataInRange(v, Pts, node);
    assert At(v.pts, n) == Data(v, Pts, n) && At(v.pts, node) == Data(v, Pts, node);
    assert At(AfterCopies(v, node).pts, n) == Data(AfterCopies(v, node), Pts, n);
    hide AfterCopies, Data, WellFormed, Targets;
    match f
    case Pts =>
    case Copies =>
    case Loads =>
    case Stores =>
  }

  lemma CopiesWellFormed(v: View, node: nat)
    requires WellFormed(v) && node in Live(v)
    ensures WellFormed(AfterCopies(v, node))
  {
    var w := AfterCopies(v, node);
    TargetsAreLive(v, Copies, node);
    assert w.graph.Keys == v.graph.Keys + {node};
    assert w.pts.Keys == v.pts.Keys + (Targets(v, Copies, node) - {node});
    assert w.root == v.root;
    hide Data, Targets, AfterCopies;
    forall f: Field, n: nat, x | x in Data(w, f, n) ensures x < |w.root| {
      CopiesInRange(v, node, f, n);
    }
  }

  lemma CopiesCover(v: View, cs: seq<Constraint>, node: nat)
    requires WellFormed(v) && InRange(cs, |v.root|) && CoversAll(v, cs)
    ensures CoversAll(AfterCopies(v, node), cs)
  {
    forall c | c in cs ensures Covers(AfterCopies(v, node), c) {
      assert Covers(v, c);
      var s, d := v.root[c.src], v.root[c.dest];
      CopiesData(v, node, d);
      CopiesKeepTargets(v, node, Copies, s);
      CopiesKeepTargets(v, node, Loads, s);
      CopiesKeepTargets(v, node, Stores, d);
      hide Targets;
    }
  }

  lemma CopyEdgeIsSound(v: View, l: PtsGraph, node: nat, r: nat)
    requires WellFormed(v) && Sound(v, l) && node < |v.root| && r in Targets(v, Copies, node)
    ensures r < |v.root| && At(l, node) <= At(l, r)
  {
    var e :| e in Data(v, Copies, node) && Find(v.root, e) == r;
    SoundRespects(v, l, node);
    SoundRespects(v, l, e);
  }

  lemma CopiedPtsSound(v: View, l: PtsGraph, node: nat, n: nat)
    requires WellFormed(v) && Sound(v, l) && node in Live(v) && n < |v.root|
    ensures At(AfterCopies(v, node).pts, n) <= At(l, n)
  {
    SoundRespects(v, l, node);
    SoundRespects(v, l, n);
    CopiesData(v, node, n);
    hide AfterCopies, Targets, Sound, WellFormed;
    if n in Targets(v, Copies, node) {
      CopyEdgeIsSound(v, l, node, n);
    }
  }

  lemma CopiesSoundAt(v: View, l: PtsGraph, node: nat, n: nat)
    requires WellFormed(v) && Sound(v, l) && node in Live(v) && n < |v.root|
    ensures SoundAt(AfterCopies(v, node), l, n)
  {
    var w := AfterCopies(v, node);
    SoundRespects(v, l, n);
    CopiesData(v, node, n);
    CopiedPtsSound(v, l, node, n);
    hide AfterCopies, Targets, Sound, WellFormed;
    forall e | e in Data(w, Copies, n) ensures At(l, n) <= At(l, e) {
      if n == node && e !in Data(v, Copies, node) {
        CopyEdgeIsSound(v, l, node, e);
      }
    }
  }

  lemma CopiesSound(v: View, l: PtsGraph, node: nat)
    requires WellFormed(v) && Sound(v, l) && node in Live(v)
    ensures Sound(AfterCopies(v, node), l)
  {
    forall n: nat | n < |v.root| ensures SoundAt(AfterCopies(v, node), l, n) {
      CopiesSoundAt(v, l, node, n);
    }
  }

  /** The targets that did not yet point to everything node points to. */
  function Lagging(v: View, node: nat): set<nat> {
    LaggingAmong(v, Targets(v, Copies, node), node)
  }

  function LaggingAmong(v: View, ts: set<nat>, node: nat): set<nat> {
    set t | t in ts && t != node && !(At(v.pts, node) <= At(v.pts, t))
  }

  /** w has the targets of v, and its points-to sets with p added at the nodes of ts. */
  ghost predicate Spreads(v: View, w: View, ts: set<nat>, p: set<nat>) {
    && w.root == v.root
    && (forall n: nat :: Targets(w, Copies, n) == Targets(v, Copies, n))
    && (forall n: nat :: Targets(w, Loads, n) == Targets(v, Loads, n))
    && (forall n: nat :: Targets(w, Stores, n) == Targets(v, Stores, n))
    && (forall n: nat :: At(w.pts, n) == At(v.pts, n) + (if n in ts then p else {}))
  }

  lemma CopiesSpread(v: View, node: nat)
    requires WellFormed(v)
    ensures Spreads(v, AfterCopies(v, node), Targets(v, Copies, node) - {node}, At(v.pts, node))
  {
    var w := AfterCopies(v, node);
    assert w.root == v.root;
    forall n: nat ensures Targets(w, Copies, n) == Targets(v, Copies, n)
                       && Targets(w, Loads, n) == Targets(v, Loads, n)
                       && Targets(w, Stores, n) == Targets(v, Stores, n)
                       && At(w.pts, n) == At(v.pts, n) + (if n in Targets(v, Copies, node) - {node} then At(v.pts, node) else {})
    {
      CopiesKeepTargets(v, node, Copies, n);
      CopiesKeepTargets(v, node, Loads, n);
      CopiesKeepTargets(v, node, Stores, n);
      CopiesData(v, node, n);
    }
    hide Targets, AfterCopies, WellFormed;
  }

  lemma SpreadClosed(v: View, w: View, ts: set<nat>, p: set<nat>, n: nat)
    requires Spreads(v, w, ts, p) && ClosedAt(v, n)
    requires n in ts ==> p <= At(v.pts, n)
    ensures ClosedAt(w, n)
  {
    hide Targets;
    assert At(w.pts, n) == At(v.pts, n);
  }

  lemma SpreadNode(v: View, w: View, node: nat)
    requires Spreads(v, w, Targets(v, Copies, node) - {node}, At(v.pts, node))
    requires LoadsDone(v, node, At(v.pts, node)) && StoresDone(v, node, At(v.pts, node))
    ensures ClosedAt(w, node)
  {
    hide Targets;
    assert At(w.pts, node) == At(v.pts, node);
  }

  lemma CopiesClosed(v: View, node: nat, open: set<nat>)
    requires WellFormed(v) && node in Live(v) && ClosedOutside(v, open + {node})
    requires LoadsDone(v, node, At(v.pts, node)) && StoresDone(v, node, At(v.pts, node))
    ensures ClosedOutside(AfterCopies(v, node), open + Lagging(v, node))
  {
    var w := AfterCopies(v, node);
    CopiesSpread(v, node);
    hide Targets, AfterCopies, WellFormed, LoadsDone, StoresDone, ClosedAt;
    forall n | n in Live(w) && n !in open + Lagging(v, node) ensures ClosedAt(w, n) {
      if n == node {
        SpreadNode(v, w, node);
      } else {
        SpreadClosed(v, w, Targets(v, Copies, node) - {node}, At(v.pts, node), n);
      }
    }
  }

  lemma MissingGrows(v: View, w: View)
    requires w.root == v.root
    requires forall n: nat :: At(v.pts, n) <= At(w.pts, n)
    requires forall n: nat, m: nat | m in Data(v, Copies, n) && m in Live(v) :: m in Data(w, Copies, n)
    ensures Missing(w) <= Missing(v)
  {
    forall x | x in Missing(w) ensures x in Missing(v) {
      if x.0 {
        assert x.2 !in At(v.pts, x.1);
      } else {
        assert x.2 in Live(v) && x.2 !in Data(v, Copies, x.1);
      }
    }
  }

  lemma RefreshedKeeps(root: seq<nat>, s: set<nat>, node: nat, m: nat)
    requires m in s && Find(root, m) == m
    ensures m in Refreshed(root, s, node)
  {
    assert (if Find(root, m) == node then m else Find(root, m)) == m;
  }

  lemma CopiesMissing(v: View, node: nat)
    requires WellFormed(v) && node in Live(v)
    ensures Missing(AfterCopies(v, node)) <= Missing(v)
    ensures Lagging(v, node) != {} ==> Missing(AfterCopies(v, node)) < Missing(v)
  {
    var w := AfterCopies(v, node);
    assert w.root == v.root;
    TargetsAreLive(v, Copies, node);
    assert forall o | o in At(v.pts, node) :: o in Data(v, Pts, node) && o < |v.root|;
    hide AfterCopies, Targets, Missing, Data, WellFormed;
    forall n: nat ensures At(v.pts, n) <= At(w.pts, n) {
      CopiesData(v, node, n);
    }
    forall n: nat, m: nat | m in Data(v, Copies, n) && m in Live(v) ensures m in Data(w, Copies, n) {
      CopiesData(v, node, n);
      RefreshedKeeps(v.root, Data(v, Copies, n), node, m);
    }
    MissingGrows(v, w);
    if t :| t in Lagging(v, node) {
      var o :| o in At(v.pts, node) && o !in At(v.pts, t);
      CopiesData(v, node, t);
      FactMissing(v, w, t, o);
    }
  }

  lemma FactMissing(v: View, w: View, n: nat, o: nat)
    requires Missing(w) <= Missing(v) && w.root == v.root && n < |v.root| && o < |v.root|
    requires o !in At(v.pts, n) && o in At(w.pts, n)
    ensures Missing(w) < Missing(v)
  {
    assert (true, n, o) in Missing(v) && (true, n, o) !in Missing(w);
  }

  lemma EdgeMissing(v: View, w: View, n: nat, m: nat)
    requires Missing(w) <= Missing(v) && w.root == v.root && n < |v.root| && m in Live(v)
    requires m !in Data(v, Copies, n) && m in Data(w, Copies, n)
    ensures Missing(w) < Missing(v)
  {
    assert (false, n, m) in Missing(v) && (false, n, m) !in Missing(w);
  }

  lemma LoadsMissing(v: View, node: nat, a: nat)
    requires WellFormed(v) && node in Live(v) && a in Live(v)
    ensures Missing(AfterLoads(v, node, a)) <= Missing(v)
    ensures !(Targets(v, Loads, node) <= Data(v, Copies, a)) ==> Missing(AfterLoads(v, node, a)) < Missing(v)
  {
    var w := AfterLoads(v, node, a);
    assert w.root == v.root && w.pts == v.pts;
    TargetsAreLive(v, Loads, node);
    LoadsData(v, node, a, a);
    hide AfterLoads, WellFormed, Targets, Missing, Data;
    forall n: nat, m: nat | m in Data(v, Copies, n) ensures m in Data(w, Copies, n) {
      LoadsData(v, node, a, n);
    }
    MissingGrows(v, w);
    if r :| r in Targets(v, Loads, node) && r !in Data(v, Copies, a) {
      EdgeMissing(v, w, a, r);
    }
  }

  lemma StoresMissing(v: View, node: nat, a: nat)
    requires WellFormed(v) && node in Live(v) && a in Live(v)
    ensures Missing(AfterStores(v, node, a)) <= Missing(v)
    ensures (exists r :: r in Targets(v, Stores, node) && a !in Data(v, Copies, r)) ==> Missing(AfterStores(v, node, a)) < Missing(v)
  {
    var w := AfterStores(v, node, a);
    assert w.root == v.root && w.pts == v.pts;
    TargetsAreLive(v, Stores, node);
    hide AfterStores, WellFormed, Targets, Missing, Data;
    forall n: nat, m: nat | m in Data(v, Copies, n) ensures m in Data(w, Copies, n) {
      StoresData(v, node, a, n);
    }
    MissingGrows(v, w);
    if r :| r in Targets(v, Stores, node) && a !in Data(v, Copies, r) {
      StoresData(v, node, a, r);
      EdgeMissing(v, w, r, a);
    }
  }

  // What each step keeps.

  ghost predicate Work(v: View, cs: seq<Constraint>, l: PtsGraph, open: set<nat>) {
    Good(v, cs, l) && ClosedOutside(v, open)
  }

  lemma PointeeIsLive(v: View, node: nat, o: nat)
    requires WellFormed(v) && o in At(v.pts, node)
    ensures o < |v.root| && v.root[o] in Live(v)
  {
    assert o in Data(v, Pts, node);
  }

  lemma WorkBasics(v: View, cs: seq<Constraint>, l: PtsGraph, open: set<nat>)
    requires Work(v, cs, l, open)
    ensures IsRep(v.root) && InRange(cs, |v.root|)
  {
  }

  lemma ExtendsLoads(v: View, w: View, node: nat, o: nat)
    requires Extends(v, w) && Targets(v, Loads, node) <= Targets(w, Copies, Find(v.root, o))
    ensures LoadsDone(w, node, {o}) && w.root == v.root
  {
    hide Targets;
  }

  lemma ExtendsStores(v: View, w: View, node: nat, o: nat)
    requires Extends(v, w) && forall r | r in Targets(v, Stores, node) :: Find(v.root, o) in Targets(w, Copies, r)
    ensures StoresDone(w, node, {o}) && w.root == v.root
  {
    hide Targets;
  }

  lemma LoadsWork(v: View, cs: seq<Constraint>, l: PtsGraph, node: nat, o: nat, open: set<nat>)
    requires Work(v, cs, l, open) && node in Live(v) && o in At(v.pts, node)
    ensures var w, ns := AfterLoads(v, node, Find(v.root, o)), NewSource(v, Find(v.root, o), Targets(v, Loads, node));
      && Work(w, cs, l, open + ns) && Extends(v, w) && LoadsDone(w, node, {o})
      && ns <= Live(v) && Missing(w) <= Missing(v) && (ns != {} ==> Missing(w) < Missing(v))
  {
    hide AfterLoads, Targets, WellFormed, Sound, CoversAll, ClosedOutside, Missing, Live, Data, Extends;
    PointeeIsLive(v, node, o);
    var a := v.root[o];
    var w, ns := AfterLoads(v, node, a), NewSource(v, a, Targets(v, Loads, node));
    LoadsExtends(v, node, a);
    LoadsSound(v, l, node, o);
    LoadsMissing(v, node, a);
    WorkBasics(v, cs, l, open);
    ExtendsCovers(v, w, cs);
    ExtendsClosed(v, w, open, ns);
    ExtendsLoads(v, w, node, o);
  }

  lemma StoresWork(v: View, cs: seq<Constraint>, l: PtsGraph, node: nat, o: nat, open: set<nat>)
    requires Work(v, cs, l, open) && node in Live(v) && o in At(v.pts, node)
    ensures var w, ns := AfterStores(v, node, Find(v.root, o)), NewSources(v, Targets(v, Stores, node), Find(v.root, o));
      && Work(w, cs, l, open + ns) && Extends(v, w) && StoresDone(w, node, {o})
      && ns <= Live(v) && Missing(w) <= Missing(v) && (ns != {} ==> Missing(w) < Missing(v))
  {
    hide AfterStores, Targets, WellFormed, Sound, CoversAll, ClosedOutside, Missing, Live, Data, Extends;
    PointeeIsLive(v, node, o);
    var a := v.root[o];
    var w, ns := AfterStores(v, node, a), NewSources(v, Targets(v, Stores, node), a);
    StoresExtends(v, node, a);
    StoresSound(v, l, node, o);
    StoresMissing(v, node, a);
    WorkBasics(v, cs, l, open);
    ExtendsCovers(v, w, cs);
    TargetsAreLive(v, Stores, node);
    ExtendsClosed(v, w, open, ns);
    ExtendsStores(v, w, node, o);
  }

  lemma CopiesWork(v: View, cs: seq<Constraint>, l: PtsGraph, node: nat, open: set<nat>)
    requires Work(v, cs, l, open + {node}) && node in Live(v)
    requires LoadsDone(v, node, At(v.pts, node)) && StoresDone(v, node, At(v.pts, node))
    ensures var w, ns := AfterCopies(v, node), Lagging(v, node);
      && Work(w, cs, l, open + ns) && w.root == v.root
      && ns <= Live(v) && Missing(w) <= Missing(v) && (ns != {} ==> Missing(w) < Missing(v))
  {
    CopiesWellFormed(v, node);
    CopiesSound(v, l, node);
    CopiesCover(v, cs, node);
    CopiesClosed(v, node, open);
    CopiesMissing(v, node);
    TargetsAreLive(v, Copies, node);
    assert AfterCopies(v, node).root == v.root;
    hide AfterCopies, Targets, WellFormed, Sound, CoversAll, ClosedOutside, Missing;
  }

  /** A node without points-to set or without edges has nothing to do. */
  lemma IdleIsClosed(v: View, node: nat, open: set<nat>)
    requires ClosedOutside(v, open + {node}) && (node !in v.graph || node !in v.pts)
    ensures ClosedOutside(v, open)
  {
    assert ClosedAt(v, node);
  }

  /** Collapsing cycles keeps the work, and either leaves fewer representatives or changes nothing. */
  lemma CollapseWork(v0: View, v: View, cs: seq<Constraint>, l: PtsGraph, open: set<nat>)
    requires Work(v0, cs, l, open) && Collapsed(v0, v)
    ensures Work(v, cs, l, Reps(v.root, open))
    ensures Coarser(v0.root, v.root)
    ensures Live(v) < Live(v0) || (Live(v) == Live(v0) && Missing(v) == Missing(v0))
  {
    hide Data, Live, Targets, Missing, CoversAll, Sound, ClosedOutside;
    CollapseCovers(v0, v, cs);
    CollapseSound(v0, v, l);
    CollapseClosed(v0, v, open);
    CollapseProgress(v0, v);
    if Live(v) == Live(v0) {
      MissingSame(v0, v);
    }
  }

  lemma MissingSame(v0: View, v: View)
    requires v.root == v0.root && forall f: Field, n: nat | n < |v.root| :: Data(v, f, n) == Data(v0, f, n)
    ensures Missing(v) == Missing(v0)
  {
    forall n: nat | n < |v.root| ensures At(v.pts, n) == At(v0.pts, n) && Data(v, Copies, n) == Data(v0, Copies, n) {
      assert Data(v, Pts, n) == Data(v0, Pts, n);
    }
    hide Data;
  }

  lemma RepsCoarser(before: seq<nat>, after: seq<nat>, s: set<nat>)
    requires Coarser(before, after) && forall n | n in s :: n < |before|
    ensures Reps(after, Reps(before, s)) == Reps(after, s)
  {
    forall r ensures r in Reps(after, Reps(before, s)) <==> r in Reps(after, s) {
      if n :| n in s && Find(after, n) == r {
        assert Find(before, n) in Reps(before, s);
      }
    }
  }

  lemma CoarserTrans(a: seq<nat>, b: seq<nat>, c: seq<nat>)
    requires Coarser(a, b) && Coarser(b, c)
    ensures Coarser(a, c)
  {
    forall n | 0 <= n < |a| ensures c[a[n]] == c[n] {
      assert b[a[n]] == b[n];
      assert c[b[n]] == c[n] && c[b[a[n]]] == c[a[n]];
    }
  }

  /** The state after constraint c was entered into the graph. */
  function Entered(v: View, c: Constraint): View {
    var s, d := Find(v.root, c.src), Find(v.root, c.dest);
    match c.ty
    case AddrOf => v.(pts := v.pts[d := At(v.pts, d) + {c.src}])
    case Load => v.(graph := InsertLoadEdge(v.graph, s, d))
    case Store => v.(graph := InsertStoreEdge(v.graph, d, s))
    case Copy => v.(graph := InsertCopyEdge(v.graph, s, d))
  }

  lemma EnteredData(v: View, c: Constraint, n: nat)
    ensures var w, s, d := Entered(v, c), Find(v.root, c.src), Find(v.root, c.dest);
      && Data(w, Pts, n) == Data(v, Pts, n) + (if c.ty.AddrOf? && n == d then {c.src} else {})
      && Data(w, Copies, n) == Data(v, Copies, n) + (if c.ty.Copy? && n == s then {d} else {})
      && Data(w, Loads, n) == Data(v, Loads, n) + (if c.ty.Load? && n == s then {d} else {})
      && Data(w, Stores, n) == Data(v, Stores, n) + (if c.ty.Store? && n == d then {s} else {})
  {
  }

  lemma EnteredWellFormed(v: View, c: Constraint)
    requires WellFormed(v) && c.src < |v.root| && c.dest < |v.root|
    ensures WellFormed(Entered(v, c))
  {
    var w := Entered(v, c);
    assert w.root == v.root && w.pts.Keys <= Live(v) && w.graph.Keys <= Live(v);
    forall f: Field, n: nat, x | x in Data(w, f, n) ensures x < |w.root| {
      EnteredData(v, c, n);
      hide Entered;
      assert f == Pts || f == Copies || f == Loads || f == Stores;
    }
    hide Data;
  }

  lemma EnteredTargets(v: View, c: Constraint, f: Field, n: nat)
    ensures Targets(v, f, n) <= Targets(Entered(v, c), f, n)
  {
    EnteredData(v, c, n);
    assert Entered(v, c).root == v.root;
    hide Entered, Data;
  }

  lemma EnteredCovers(v: View, c: Constraint, b: Constraint)
    requires WellFormed(v) && c.src < |v.root| && c.dest < |v.root| && b.src < |v.root| && b.dest < |v.root|
    requires b == c || Covers(v, b)
    ensures |Entered(v, c).root| == |v.root| && Covers(Entered(v, c), b)
  {
    var w, s, d := Entered(v, c), v.root[b.src], v.root[b.dest];
    EnteredData(v, c, s);
    EnteredData(v, c, d);
    EnteredTargets(v, c, Copies, s);
    EnteredTargets(v, c, Loads, s);
    EnteredTargets(v, c, Stores, d);
    assert w.root == v.root && At(v.pts, d) == Data(v, Pts, d) && At(w.pts, d) == Data(w, Pts, d);
    hide Entered, Data;
    if b == c {
      assert Find(w.root, d) == d && Find(w.root, s) == s;
    }
  }

  lemma EnteredSoundAt(v: View, c: Constraint, l: PtsGraph, n: nat)
    requires c.src < |v.root| && c.dest < |v.root| && SoundAt(v, l, n) && Holds(l, c)
    requires At(l, c.src) == At(l, v.root[c.src]) && At(l, c.dest) == At(l, v.root[c.dest])
    ensures SoundAt(Entered(v, c), l, n)
  {
    EnteredData(v, c, n);
    var w := Entered(v, c);
    assert At(v.pts, n) == Data(v, Pts, n) && At(w.pts, n) == Data(w, Pts, n);
    hide Entered, Data, At;
    match c.ty
    case AddrOf =>
    case Copy =>
    case Load =>
    case Store =>
  }

  lemma EnteredSound(v: View, c: Constraint, l: PtsGraph)
    requires WellFormed(v) && c.src < |v.root| && c.dest < |v.root| && Sound(v, l) && Holds(l, c)
    ensures Sound(Entered(v, c), l)
  {
    assert Entered(v, c).root == v.root;
    hide Entered, SoundAt, WellFormed, Holds;
    SoundRespects(v, l, c.src);
    SoundRespects(v, l, c.dest);
    forall n: nat | n < |v.root| ensures SoundAt(Entered(v, c), l, n) {
      SoundRespects(v, l, n);
      EnteredSoundAt(v, c, l, n);
    }
  }

  lemma CopyToAllStep(g: ConstraintGraph, src: nat, dsts: set<nat>, dst: nat)
    ensures InsertCopyEdge(CopyToAll(g, src, dsts), src, dst) == CopyToAll(g, src, dsts + {dst})
  {
    assert EdgesOf(g, src).copies + dsts + {dst} == EdgesOf(g, src).copies + (dsts + {dst});
    if dsts == {} {
      assert dsts + {dst} == {dst};
    }
  }

  lemma CopyFromAllStep(g: ConstraintGraph, srcs: set<nat>, dst: nat, src: nat)
    ensures InsertCopyEdge(CopyFromAll(g, srcs, dst), src, dst) == CopyFromAll(g, srcs + {src}, dst)
  {
    assert EdgesOf(g, src).copies + {dst} + {dst} == EdgesOf(g, src).copies + {dst};
  }

  lemma NewSourcesStep(v: View, rs: set<nat>, a: nat, r: nat, was: seq<nat>, mid: seq<nat>, now: seq<nat>)
    requires Queued(was, mid, NewSources(v, rs, a))
    requires now == if a in EdgesOf(CopyFromAll(v.graph, rs, a), r).copies || r in mid then mid else mid + [r]
    ensures Queued(was, now, NewSources(v, rs + {r}, a))
  {
    if r in rs || a in Data(v, Copies, r) {
      assert NewSources(v, rs + {r}, a) == NewSources(v, rs, a);
    } else {
      assert NewSources(v, rs + {r}, a) == NewSources(v, rs, a) + {r};
      QueuedMore(was, mid, now, NewSources(v, rs, a), r);
    }
  }

  lemma CopyFromAllCopies(g: ConstraintGraph, srcs: set<nat>, dst: nat)
    ensures forall n :: EdgesOf(CopyFromAll(g, srcs, dst), n).stores == EdgesOf(g, n).stores
  {
  }

  /** The entries an update map holds for an edge set. */
  function Stale(root: seq<nat>, s: set<nat>): map<nat, nat> {
    map d | d in s && Find(root, d) != d :: Find(root, d)
  }

  lemma StaleReplaced(root: seq<nat>, s: set<nat>)
    requires IsRep(root)
    ensures forall k | k in Stale(root, s) :: Stale(root, s)[k] !in Stale(root, s)
    ensures s - Stale(root, s).Keys + Stale(root, s).Values == Reps(root, s)
  {
    forall e ensures e in s - Stale(root, s).Keys + Stale(root, s).Values <==> e in Reps(root, s) {
      if d :| d in s && Find(root, d) == e {
        if d != e {
          assert d in Stale(root, s) && Stale(root, s)[d] == e;
        }
      }
    }
  }

  lemma StaleStep(root: seq<nat>, s: set<nat>, d: nat)
    ensures Stale(root, s + {d}) == if Find(root, d) == d then Stale(root, s) else Stale(root, s)[d := Find(root, d)]
    ensures Reps(root, s + {d}) == Reps(root, s) + {Find(root, d)}
  {
    RepsUnion(root, s, {d});
  }

  lemma CopyToAllCopies(g: ConstraintGraph, src: nat, dsts: set<nat>)
    ensures EdgesOf(CopyToAll(g, src, dsts), src).copies == EdgesOf(g, src).copies + dsts
    ensures forall n :: EdgesOf(CopyToAll(g, src, dsts), n).loads == EdgesOf(g, n).loads
  {
  }

  /** The nodes ns, and nothing else, were queued. */
  ghost predicate Queued(was: seq<nat>, now: seq<nat>, ns: set<nat>) {
    was <= now && Elems(now) == Elems(was) + ns && (ns == {} ==> now == was)
  }

  lemma QueuedMore(was: seq<nat>, mid: seq<nat>, now: seq<nat>, ns: set<nat>, n: nat)
    requires Queued(was, mid, ns) && now == if n in mid then mid else mid + [n]
    ensures Queued(was, now, ns + {n})
  {
    assert Elems(now) == Elems(mid) + {n};
  }

  /** The node to queue when copy edges from it to ts are added. */
  function NewSource(v: View, a: nat, ts: set<nat>): set<nat> {
    if ts <= Data(v, Copies, a) then {} else {a}
  }

  lemma NewSourceStep(v: View, a: nat, ts: set<nat>, t: nat, was: seq<nat>, mid: seq<nat>, now: seq<nat>)
    requires Queued(was, mid, NewSource(v, a, ts))
    requires now == if t in EdgesOf(v.graph, a).copies + ts || a in mid then mid else mid + [a]
    ensures Queued(was, now, NewSource(v, a, ts + {t}))
  {
  }

  /** The nodes to queue when copy edges from rs to a are added. */
  function NewSources(v: View, rs: set<nat>, a: nat): set<nat> {
    set r | r in rs && a !in Data(v, Copies, r)
  }

  function StaleBut(root: seq<nat>, s: set<nat>, node: nat): map<nat, nat> {
    map d | d in s && Find(root, d) != d && Find(root, d) != node :: Find(root, d)
  }

  lemma StaleButStep(root: seq<nat>, s: set<nat>, d: nat, node: nat)
    ensures StaleBut(root, s + {d}, node)
         == if Find(root, d) == d || Find(root, d) == node then StaleBut(root, s, node) else StaleBut(root, s, node)[d := Find(root, d)]
    ensures Reps(root, s + {d}) == Reps(root, s) + {Find(root, d)}
  {
    RepsUnion(root, s, {d});
  }

  lemma StaleButReplaced(root: seq<nat>, s: set<nat>, node: nat)
    requires IsRep(root)
    ensures forall k | k in StaleBut(root, s, node) :: StaleBut(root, s, node)[k] !in StaleBut(root, s, node)
    ensures s - StaleBut(root, s, node).Keys + StaleBut(root, s, node).Values == Refreshed(root, s, node)
  {
    var m := StaleBut(root, s, node);
    forall e ensures e in s - m.Keys + m.Values <==> e in Refreshed(root, s, node) {
      if d :| d in s && e == (if Find(root, d) == node then d else Find(root, d)) {
        if d != e {
          assert d in m && m[d] == e;
        }
      }
    }
  }

  /** One more target t of node was given p. */
  lemma SpreadStep(v: View, ts: set<nat>, node: nat, t: nat)
    requires t != node
    ensures var p := At(v.pts, node);
      var before, after := Spread(v.pts, ts - {node}, p), Spread(v.pts, ts + {t} - {node}, p);
      && after == before[t := At(before, t) + p]
      && (p <= At(before, t) <==> t !in LaggingAmong(v, ts + {t}, node) || t in ts)
      && LaggingAmong(v, ts + {t}, node) == LaggingAmong(v, ts, node) + (if p <= At(before, t) then {} else {t})
  {
    var p := At(v.pts, node);
    assert At(v.pts, t) + p + p == At(v.pts, t) + p;
    if p <= At(v.pts, t) {
      assert LaggingAmong(v, ts + {t}, node) == LaggingAmong(v, ts, node);
    } else if t !in ts {
      assert LaggingAmong(v, ts + {t}, node) == LaggingAmong(v, ts, node) + {t};
    } else {
      assert ts + {t} == ts;
    }
  }

  lemma SentNone(v: View, node: nat, list: seq<nat>)
    ensures v.pts == Spread(v.pts, Reps(v.root, {}) - {node}, At(v.pts, node))
    ensures map[] == StaleBut(v.root, {}, node)
    ensures Queued(list, list, LaggingAmong(v, Reps(v.root, {}), node))
  {
  }

  lemma SpreadSkip(v: View, ts: set<nat>, node: nat)
    ensures ts + {node} - {node} == ts - {node}
    ensures LaggingAmong(v, ts + {node}, node) == LaggingAmong(v, ts, node)
  {
  }

  /** The loop that applies an update map to an edge set. */
  method ReplaceEdges(edges: set<nat>, updateMap: map<nat, nat>) returns (r: set<nat>)
    requires updateMap.Keys <= edges
    requires forall k | k in updateMap :: updateMap[k] !in updateMap
    ensures r == edges - updateMap.Keys + updateMap.Values
  {
    r := edges;
    var todo := updateMap.Keys;
    while todo != {}
      invariant todo <= updateMap.Keys
      invariant r == edges - (updateMap.Keys - todo) + set k | k in updateMap.Keys - todo :: updateMap[k]
      decreases todo
    {
      var k :| k in todo;
      todo := todo - {k};
      if k in r {
        r := r - {k} + {updateMap[k]};
      }
    }
  }

  class Andersen {
    var root: seq<nat>
    var ptsGraph: PtsGraph
    var constraintGraph: ConstraintGraph

    function V(): View
      reads this
    {
      View(root, ptsGraph, constraintGraph)
    }

    /** Add a copy edge; a source that got a new edge is queued. */
    method AddCopyEdge(src: nat, dst: nat, next: AndersWorkList)
      requires next.Valid()
      modifies this`constraintGraph, next
      ensures next.Valid()
      ensures constraintGraph == InsertCopyEdge(old(constraintGraph), src, dst)
      ensures next.list == if dst in EdgesOf(old(constraintGraph), src).copies || src in old(next.list)
                           then old(next.list) else old(next.list) + [src]
    {
      if dst !in EdgesOf(constraintGraph, src).copies {
        constraintGraph := InsertCopyEdge(constraintGraph, src, dst);
        next.Enqueue(src);
      } else {
        assert EdgesOf(constraintGraph, src).copies + {dst} == EdgesOf(constraintGraph, src).copies;
      }
    }

    /** The load edges of node, for a node it points to whose representative is vRep. */
    method ProcessLoads(node: nat, vRep: nat, next: AndersWorkList)
      requires next.Valid() && IsRep(root)
      modifies this`constraintGraph, next
      ensures next.Valid()
      ensures V() == AfterLoads(old(V()), node, vRep)
      ensures Queued(old(next.list), next.list, NewSource(old(V()), vRep, Targets(old(V()), Loads, node)))
    {
      ghost var v := V();
      var dsts := EdgesOf(constraintGraph, node).loads;
      var updateMap: map<nat, nat> := map[];
      var todo := dsts;
      ghost var done: set<nat> := {};
      assert constraintGraph == CopyToAll(v.graph, vRep, Reps(root, done));
      assert updateMap == Stale(root, done);
      while todo != {}
        invariant done + todo == dsts && done !! todo && next.Valid()
        invariant constraintGraph == CopyToAll(v.graph, vRep, Reps(root, done))
        invariant updateMap == Stale(root, done)
        invariant Queued(old(next.list), next.list, NewSource(v, vRep, Reps(root, done)))
        decreases todo
      {
        hide CopyToAll, InsertCopyEdge, Stale, Reps, EdgesOf, Queued, NewSource;
        var dst :| dst in todo;
        var tgtNode := Find(root, dst);
        StaleStep(root, done, dst);
        CopyToAllStep(v.graph, vRep, Reps(root, done), tgtNode);
        CopyToAllCopies(v.graph, vRep, Reps(root, done));
        ghost var mid := next.list;
        AddCopyEdge(vRep, tgtNode, next);
        NewSourceStep(v, vRep, Reps(root, done), tgtNode, old(next.list), mid, next.list);
        if tgtNode != dst {
          updateMap := updateMap[dst := tgtNode];
        }
        todo, done := todo - {dst}, done + {dst};
      }
      assert done == dsts;
      StaleReplaced(root, dsts);
      CopyToAllCopies(v.graph, vRep, Reps(root, dsts));
      assert dsts == Data(v, Loads, node);
      hide CopyToAll, Reps, Stale, Queued, NewSource;
      var loads := ReplaceEdges(EdgesOf(constraintGraph, node).loads, updateMap);
      constraintGraph := SetLoads(constraintGraph, node, loads);
    }

    /** The store edges of node, for a node it points to whose representative is vRep. */
    method ProcessStores(node: nat, vRep: nat, next: AndersWorkList)
      requires next.Valid() && IsRep(root)
      modifies this`constraintGraph, next
      ensures next.Valid()
      ensures V() == AfterStores(old(V()), node, vRep)
      ensures Queued(old(next.list), next.list, NewSources(old(V()), Targets(old(V()), Stores, node), vRep))
    {
      ghost var v := V();
      var dsts := EdgesOf(constraintGraph, node).stores;
      var updateMap: map<nat, nat> := map[];
      var todo := dsts;
      ghost var done: set<nat> := {};
      assert constraintGraph == CopyFromAll(v.graph, Reps(root, done), vRep);
      assert updateMap == Stale(root, done);
      while todo != {}
        invariant done + todo == dsts && done !! todo && next.Valid()
        invariant constraintGraph == CopyFromAll(v.graph, Reps(root, done), vRep)
        invariant updateMap == Stale(root, done)
        invariant Queued(old(next.list), next.list, NewSources(v, Reps(root, done), vRep))
        decreases todo
      {
        hide CopyFromAll, InsertCopyEdge, Stale, Reps, EdgesOf, Queued, NewSources;
        var dst :| dst in todo;
        var tgtNode := Find(root, dst);
        StaleStep(root, done, dst);
        CopyFromAllStep(v.graph, Reps(root, done), vRep, tgtNode);
        ghost var mid := next.list;
        AddCopyEdge(tgtNode, vRep, next);
        NewSourcesStep(v, Reps(root, done), vRep, tgtNode, old(next.list), mid, next.list);
        if tgtNode != dst {
          updateMap := updateMap[dst := tgtNode];
        }
        todo, done := todo - {dst}, done + {dst};
      }
      assert done == dsts;
      StaleReplaced(root, dsts);
      CopyFromAllCopies(v.graph, Reps(root, dsts), vRep);
      assert dsts == Data(v, Stores, node);
      hide CopyFromAll, Reps, Stale, Queued, NewSources;
      var stores := ReplaceEdges(EdgesOf(constraintGraph, node).stores, updateMap);
      constraintGraph := SetStores(constraintGraph, node, stores);
    }

    method PropagateTo(node: nat, tgtNode: nat, ptsSet: set<nat>, next: AndersWorkList, lcd: bool,
                       candidates: set<nat>, checked: set<(nat, nat)>)
      returns (candidates': set<nat>, checked': set<(nat, nat)>)
      requires next.Valid()
      modifies this`ptsGraph, next
      ensures next.Valid()
      ensures ptsGraph == old(ptsGraph)[tgtNode := At(old(ptsGraph), tgtNode) + ptsSet]
      ensures next.list == if ptsSet <= At(old(ptsGraph), tgtNode) || tgtNode in old(next.list)
                           then old(next.list) else old(next.list) + [tgtNode]
      ensures var found := lcd && (node, tgtNode) !in checked && ptsSet == At(old(ptsGraph), tgtNode);
        && candidates' == (if found then candidates + {tgtNode} else candidates)
        && checked' == (if found then checked + {(node, tgtNode)} else checked)
    {
      candidates', checked' := candidates, checked;
      var tgtPtsSet := At(ptsGraph, tgtNode);
      ptsGraph := ptsGraph[tgtNode := tgtPtsSet + ptsSet];
      if !(ptsSet <= tgtPtsSet) {
        next.Enqueue(tgtNode);
      } else if lcd && (node, tgtNode) !in checked && ptsSet == tgtPtsSet {
        checked' := checked + {(node, tgtNode)};
        candidates' := candidates + {tgtNode};
      }
    }

    /** The points-to set of node was sent to the targets of the copy edges in `done`. */
    ghost predicate Sent(v: View, node: nat, done: set<nat>, updateMap: map<nat, nat>, was: seq<nat>, next: AndersWorkList)
      reads this, next
    {
      && next.Valid() && root == v.root && constraintGraph == v.graph
      && ptsGraph == Spread(v.pts, Reps(v.root, done) - {node}, At(v.pts, node))
      && updateMap == StaleBut(v.root, done, node)
      && Queued(was, next.list, LaggingAmong(v, Reps(v.root, done), node))
    }

    /** One iteration of the loop over the copy edges of node. */
    method CopyEdgeStep(node: nat, dst: nat, ptsSet: set<nat>, next: AndersWorkList, lcd: bool,
                        candidates: set<nat>, checked: set<(nat, nat)>, updateMap: map<nat, nat>,
                        ghost v: View, ghost done: set<nat>, ghost was: seq<nat>)
      returns (candidates': set<nat>, checked': set<(nat, nat)>, updateMap': map<nat, nat>)
      requires Sent(v, node, done, updateMap, was, next) && ptsSet == At(v.pts, node)
      modifies this`ptsGraph, next
      ensures Sent(v, node, done + {dst}, updateMap', was, next)
      ensures var tgtNode := Find(root, dst);
        var found := lcd && tgtNode != node && (node, tgtNode) !in checked && ptsSet == At(old(ptsGraph), tgtNode);
        && candidates' == (if found then candidates + {tgtNode} else candidates)
        && checked' == (if found then checked + {(node, tgtNode)} else checked)
    {
      hide Spread, StaleBut, Reps, EdgesOf, Queued, LaggingAmong;
      candidates', checked', updateMap' := candidates, checked, updateMap;
      var tgtNode := Find(root, dst);
      ghost var reps := Reps(root, done);
      StaleButStep(root, done, dst, node);
      if tgtNode == node {
        SpreadSkip(v, reps, node);
        return;
      }
      SpreadStep(v, reps, node, tgtNode);
      ghost var before, mid := ptsGraph, next.list;
      candidates', checked' := PropagateTo(node, tgtNode, ptsSet, next, lcd, candidates, checked);
      if !(ptsSet <= At(before, tgtNode)) {
        QueuedMore(was, mid, next.list, LaggingAmong(v, reps, node), tgtNode);
      } else {
        assert LaggingAmong(v, reps + {tgtNode}, node) == LaggingAmong(v, reps, node);
      }
      if tgtNode != dst {
        updateMap' := updateMap[dst := tgtNode];
      }
    }

    /** The points-to set of node flows along its copy edges; a target that gains from it is queued.
        With lazy cycle detection on, a target that gains nothing may become a cycle candidate. */
    method Propagate(node: nat, ptsSet: set<nat>, next: AndersWorkList, lcd: bool,
                     candidates: set<nat>, checked: set<(nat, nat)>)
      returns (candidates': set<nat>, checked': set<(nat, nat)>)
      requires next.Valid() && WellFormed(V()) && ptsSet == At(ptsGraph, node)
      requires forall n | n in candidates :: n < |root|
      modifies this`ptsGraph, this`constraintGraph, next
      ensures next.Valid()
      ensures V() == AfterCopies(old(V()), node)
      ensures Queued(old(next.list), next.list, Lagging(old(V()), node))
      ensures forall n | n in candidates' :: n < |root|
    {
      ghost var v := V();
      candidates', checked' := candidates, checked;
      var dsts := EdgesOf(constraintGraph, node).copies;
      var updateMap: map<nat, nat> := map[];
      var todo := dsts;
      ghost var done: set<nat> := {};
      assert dsts == Data(v, Copies, node) && forall e | e in dsts :: e < |root| && root[e] < |root|;
      SentNone(v, node, next.list);
      while todo != {}
        invariant done + todo == dsts && done !! todo
        invariant Sent(v, node, done, updateMap, old(next.list), next)
        invariant forall n | n in candidates' :: n < |root|
        decreases todo
      {
        hide Sent, WellFormed, Data, IsRep;
        var dst :| dst in todo;
        candidates', checked', updateMap := CopyEdgeStep(node, dst, ptsSet, next, lcd, candidates', checked', updateMap, v, done, old(next.list));
        todo, done := todo - {dst}, done + {dst};
      }
      assert done == dsts;
      StaleButReplaced(root, dsts, node);
      var copies := ReplaceEdges(EdgesOf(constraintGraph, node).copies, updateMap);
      constraintGraph := SetCopies(constraintGraph, node, copies);
    }

    /** Take one node off the worklist: node is its representative. */
    method ProcessNode(node: nat, next: AndersWorkList, lcd: bool, candidates: set<nat>, checked: set<(nat, nat)>,
                       ghost cs: seq<Constraint>, ghost l: PtsGraph, ghost open: set<nat>)
      returns (candidates': set<nat>, checked': set<(nat, nat)>)
      requires next.Valid() && node in Live(V())
      requires Work(V(), cs, l, open + Elems(next.list) + {node}) && Elems(next.list) <= Live(V())
      requires forall n | n in candidates :: n < |root|
      modifies this`ptsGraph, this`constraintGraph, next
      ensures next.Valid()
      ensures Work(V(), cs, l, open + Elems(next.list)) && Elems(next.list) <= Live(V())
      ensures Missing(V()) <= old(Missing(V()))
      ensures next.list != old(next.list) ==> Missing(V()) < old(Missing(V()))
      ensures forall n | n in candidates' :: n < |root|
    {
      hide WellFormed, Sound, CoversAll, ClosedOutside, Missing, AfterLoads, AfterStores, AfterCopies;
      candidates', checked' := candidates, checked;
      if node !in constraintGraph || node !in ptsGraph {
        IdleIsClosed(V(), node, open + Elems(next.list));
        return;
      }
      var ptsSet := ptsGraph[node];
      var todo := ptsSet;
      ghost var done: set<nat> := {};
      while todo != {}
        invariant done + todo == ptsSet && next.Valid() && ptsGraph == old(ptsGraph)
        invariant Work(V(), cs, l, open + Elems(next.list) + {node}) && Elems(next.list) <= Live(V())
        invariant LoadsDone(V(), node, done) && StoresDone(V(), node, done)
        invariant Missing(V()) <= old(Missing(V()))
        invariant next.list != old(next.list) ==> Missing(V()) < old(Missing(V()))
        decreases todo
      {
        var v :| v in todo;
        ProcessPointee(node, v, next, cs, l, open, done);
        todo, done := todo - {v}, done + {v};
      }
      assert done == ptsSet;
      ghost var v, o := V(), open + Elems(next.list);
      CopiesWork(v, cs, l, node, o);
      candidates', checked' := Propagate(node, ptsSet, next, lcd, candidates', checked');
      assert open + Elems(next.list) == o + Lagging(v, node);
    }

    /** The load and store edges of node, for the node v it points to. */
    method ProcessPointee(node: nat, v: nat, next: AndersWorkList,
                          ghost cs: seq<Constraint>, ghost l: PtsGraph, ghost open: set<nat>, ghost done: set<nat>)
      requires next.Valid() && node in Live(V()) && v in At(ptsGraph, node)
      requires Work(V(), cs, l, open + Elems(next.list) + {node}) && Elems(next.list) <= Live(V())
      requires LoadsDone(V(), node, done) && StoresDone(V(), node, done)
      modifies this`constraintGraph, next
      ensures next.Valid()
      ensures Work(V(), cs, l, open + Elems(next.list) + {node}) && Elems(next.list) <= Live(V())
      ensures LoadsDone(V(), node, done + {v}) && StoresDone(V(), node, done + {v})
      ensures Missing(V()) <= old(Missing(V()))
      ensures next.list != old(next.list) ==> Missing(V()) < old(Missing(V()))
    {
      hide WellFormed, Sound, CoversAll, ClosedOutside, Missing, AfterLoads, AfterStores, Targets, NewSource, NewSources;
      var vRep := Find(root, v);
      ghost var v0, o0 := V(), open + Elems(next.list) + {node};
      WorkBasics(v0, cs, l, o0);
      LoadsWork(v0, cs, l, node, v, o0);
      ExtendsDone(v0, AfterLoads(v0, node, vRep), node, done);
      ProcessLoads(node, vRep, next);
      ghost var v1 := V();
      assert LoadsDone(v1, node, done + {v});
      var o1 := open + Elems(next.list) + {node};
      assert o1 == o0 + NewSource(v0, vRep, Targets(v0, Loads, node));
      StoresWork(v1, cs, l, node, v, o1);
      ExtendsDone(v1, AfterStores(v1, node, vRep), node, done);
      ExtendsDone(v1, AfterStores(v1, node, vRep), node, done + {v});
      ProcessStores(node, vRep, next);
      assert open + Elems(next.list) + {node} == o1 + NewSources(v1, Targets(v1, Stores, node), vRep);
    }

    /** Lazy cycle detection: search from every candidate, collapsing the cycles found. */
    method DetectCycles(candidates: set<nat>)
      requires WellFormed(V()) && forall n | n in candidates :: n < |root|
      modifies this
      ensures Collapsed(old(V()), V())
    {
      ghost var v0 := V();
      hide WellFormed, Collapsed, Lawful, Tracks, CopyGraph, Inv;
      OnlineIsLawful(v0);
      var detector := new CycleDetector(CLIENT, V(), CopyGraph(v0), Base(v0), Sim(v0));
      var todo := candidates;
      while todo != {}
        invariant todo <= candidates && V() == v0
        invariant detector.g == CopyGraph(v0) && detector.base == Base(v0) && detector.sim == Sim(v0) && fresh(detector)
        invariant detector.Valid({})
        decreases todo
      {
        var node :| node in todo;
        todo := todo - {node};
        detector.RunOnNode(node);
      }
      TrackedIsCollapsed(v0, detector.state, detector.log);
      root, ptsGraph, constraintGraph := detector.state.root, detector.state.pts, detector.state.graph;
    }

    /** The same, with what it keeps of the solver's invariant. */
    method CollapseCycles(candidates: set<nat>, ghost list: seq<nat>, ghost rep: seq<nat>, ghost cs: seq<Constraint>, ghost l: PtsGraph)
      requires Work(V(), cs, l, Reps(root, Elems(list))) && Coarser(rep, root)
      requires (forall n | n in list :: n < |root|) && forall n | n in candidates :: n < |root|
      modifies this
      ensures Work(V(), cs, l, Reps(root, Elems(list))) && Coarser(rep, root)
      ensures Live(V()) < old(Live(V())) || (Live(V()) == old(Live(V())) && Missing(V()) == old(Missing(V())))
    {
      ghost var v0 := V();
      DetectCycles(candidates);
      hide WellFormed, CoversAll, Sound, ClosedOutside, Missing, Collapsed, Reps, Live;
      CollapseWork(v0, V(), cs, l, Reps(v0.root, Elems(list)));
      RepsCoarser(v0.root, root, Elems(list));
      CoarserTrans(rep, v0.root, root);
    }

    /** The nodes that can contribute right away. */
    method InitialWork(curr: AndersWorkList, ghost cs: seq<Constraint>, ghost l: PtsGraph)
      requires curr.Valid() && curr.list == [] && Good(V(), cs, l) && Coarser(root, root)
      modifies curr
      ensures curr.Valid() && Pending(curr.list, cs, l, root)
    {
      assert ptsGraph.Keys <= Live(V());
      hide Good, ClosedOutside, Coarser;
      var todo := ptsGraph.Keys;
      while todo != {}
        invariant todo <= ptsGraph.Keys && curr.Valid() && Elems(curr.list) <= Live(V())
        invariant forall n | n in ptsGraph && n !in todo && n in constraintGraph :: n in curr.list
        decreases todo
      {
        var node :| node in todo;
        todo := todo - {node};
        if Find(root, node) == node && node in constraintGraph {
          curr.Enqueue(node);
        }
      }
      UnqueuedIsClosed(V(), Elems(curr.list));
      LiveReps(root, Elems(curr.list));
      assert forall n | n in curr.list :: n in Elems(curr.list) && n in Live(V());
    }

    /** The main loop.  lcd switches lazy cycle detection on. */
    method SolveConstraints(cs: seq<Constraint>, lcd: bool)
      requires IsRep(root) && InRange(cs, |root|) && ptsGraph == map[] && constraintGraph == map[]
      modifies this
      ensures Coarser(old(root), root)
      ensures forall n: nat :: At(Meaning(V()), n) == At(Least(cs, old(root)), n)
    {
      BuildConstraintGraph(cs);
      ghost var l := Least(cs, root);
      var curr := new AndersWorkList();
      var next := new AndersWorkList();
      InitialWork(curr, cs, l);
      var candidates: set<nat> := {};
      var checked: set<(nat, nat)> := {};
      ghost var rep := root;
      hide Work, Missing, Meaning, Least, Reps;
      while curr.list != []
        invariant curr != next && curr.Valid() && next.Valid() && fresh(curr) && fresh(next) && next.list == []
        invariant Pending(curr.list, cs, l, rep) && forall n | n in candidates :: n < |root|
        decreases Live(V()), Missing(V()), |curr.list|
      {
        candidates, checked := Iterate(curr, next, lcd, candidates, checked, cs, l, rep);
        curr, next := next, curr;
      }
      NothingLeft(V(), cs, rep, curr.list);
    }

    /** The queued nodes are the only ones with work left. */
    ghost predicate Pending(list: seq<nat>, cs: seq<Constraint>, l: PtsGraph, rep: seq<nat>)
      reads this
    {
      Work(V(), cs, l, Reps(root, Elems(list))) && Coarser(rep, root) && forall n | n in list :: n < |root|
    }

    /** One iteration of the outer loop: cycle detection, then a pass over the current worklist. */
    method Iterate(curr: AndersWorkList, next: AndersWorkList, lcd: bool, candidates: set<nat>, checked: set<(nat, nat)>,
                   ghost cs: seq<Constraint>, ghost l: PtsGraph, ghost rep: seq<nat>)
      returns (candidates': set<nat>, checked': set<(nat, nat)>)
      requires curr != next && curr.Valid() && next.Valid() && next.list == []
      requires Pending(curr.list, cs, l, rep) && forall n | n in candidates :: n < |root|
      modifies this, curr, next
      ensures curr.Valid() && next.Valid() && curr.list == []
      ensures Pending(next.list, cs, l, rep) && forall n | n in candidates' :: n < |root|
      ensures Live(V()) < old(Live(V())) || (Live(V()) == old(Live(V())) && Missing(V()) <= old(Missing(V())))
      ensures Live(V()) == old(Live(V())) && Missing(V()) == old(Missing(V())) ==> next.list == []
    {
      hide Work, Missing, Reps;
      candidates', checked' := candidates, checked;
      if lcd && candidates != {} {
        CollapseCycles(candidates, curr.list, rep, cs, l);
        candidates' := {};
      }
      candidates', checked' := Pass(curr, next, lcd, candidates', checked', cs, l);
      LiveReps(root, Elems(next.list));
      assert forall n | n in next.list :: n in Elems(next.list) && n in Live(V());
    }

    /** One pass over the current worklist. */
    method Pass(curr: AndersWorkList, next: AndersWorkList, lcd: bool, candidates: set<nat>, checked: set<(nat, nat)>,
                ghost cs: seq<Constraint>, ghost l: PtsGraph)
      returns (candidates': set<nat>, checked': set<(nat, nat)>)
      requires curr != next && curr.Valid() && next.Valid() && next.list == []
      requires Work(V(), cs, l, Reps(root, Elems(curr.list))) && forall n | n in curr.list :: n < |root|
      requires forall n | n in candidates :: n < |root|
      modifies this`ptsGraph, this`constraintGraph, curr, next
      ensures curr.Valid() && next.Valid() && curr.list == []
      ensures Work(V(), cs, l, Elems(next.list)) && Elems(next.list) <= Live(V())
      ensures Missing(V()) <= old(Missing(V()))
      ensures next.list != [] ==> Missing(V()) < old(Missing(V()))
      ensures forall n | n in candidates' :: n < |root|
    {
      hide Good, ClosedOutside, Missing;
      candidates', checked' := candidates, checked;
      assert Reps(root, Elems(curr.list)) + Elems(next.list) == Reps(root, Elems(curr.list));
      while curr.list != []
        invariant curr.Valid() && next.Valid()
        invariant Work(V(), cs, l, Reps(root, Elems(curr.list)) + Elems(next.list)) && Elems(next.list) <= Live(V())
        invariant forall n | n in curr.list :: n < |root|
        invariant Missing(V()) <= old(Missing(V()))
        invariant next.list != [] ==> Missing(V()) < old(Missing(V()))
        invariant forall n | n in candidates' :: n < |root|
        decreases |curr.list|
      {
        ghost var list, open := curr.list, Reps(root, Elems(curr.list)) + Elems(next.list);
        WorkBasics(V(), cs, l, open);
        assert list[0] in list && list == [list[0]] + list[1..];
        var first := curr.Dequeue();
        var node := Find(root, first);
        assert forall n | n in curr.list :: n in list;
        assert Elems(list) == Elems(curr.list) + {first};
        RepsUnion(root, Elems(curr.list), {first});
        assert Reps(root, {first}) == {node};
        assert open == Reps(root, Elems(curr.list)) + Elems(next.list) + {node};
        candidates', checked' := ProcessNode(node, next, lcd, candidates', checked', cs, l, Reps(root, Elems(curr.list)));
      }
      assert Reps(root, Elems(curr.list)) + Elems(next.list) == Elems(next.list);
    }

    constructor (root: seq<nat>)
      ensures this.root == root && ptsGraph == map[] && constraintGraph == map[]
    {
      this.root, ptsGraph, constraintGraph := root, map[], map[];
    }

    /** Enter all constraints into the graph. */
    method BuildConstraintGraph(cs: seq<Constraint>)
      requires IsRep(root) && InRange(cs, |root|) && ptsGraph == map[] && constraintGraph == map[]
      modifies this`ptsGraph, this`constraintGraph
      ensures Good(V(), cs, Least(cs, root))
    {
      ghost var l := Least(cs, root);
      LeastIsSolution(cs, root);
      StartIsGood(root, cs);
      hide IsSolution, Least, EntersUpTo, Entered;
      for i := 0 to |cs|
        invariant V().root == old(root) && EntersUpTo(V(), cs, i, l)
      {
        EnterStep(V(), cs, i, l);
        EnterOne(cs[i]);
      }
      AllEntered(V(), cs, l);
    }

    method EnterOne(c: Constraint)
      modifies this`ptsGraph, this`constraintGraph
      ensures V() == Entered(old(V()), c)
    {
      var srcTgt := Find(root, c.src);
      var dstTgt := Find(root, c.dest);
      match c.ty {
        case AddrOf => ptsGraph := ptsGraph[dstTgt := At(ptsGraph, dstTgt) + {c.src}];
        case Load => constraintGraph := InsertLoadEdge(constraintGraph, srcTgt, dstTgt);
        case Store => constraintGraph := InsertStoreEdge(constraintGraph, dstTgt, srcTgt);
        case Copy => constraintGraph := InsertCopyEdge(constraintGraph, srcTgt, dstTgt);
      }
    }
  }

  /** A node without a points-to set, or without edges, is closed. */
  lemma UnqueuedIsClosed(v: View, s: set<nat>)
    requires forall n | n in v.pts && n in v.graph :: n in s
    ensures ClosedOutside(v, s)
  {
    forall n | n in Live(v) && n !in s ensures ClosedAt(v, n) {
      assert n in v.pts || At(v.pts, n) == {};
    }
  }

  /** With both worklists empty the state is the least solution. */
  lemma NothingLeft(v: View, cs: seq<Constraint>, rep: seq<nat>, list: seq<nat>)
    requires Work(v, cs, Least(cs, rep), Reps(v.root, Elems(list))) && list == []
    requires IsRep(rep) && Coarser(rep, v.root)
    ensures forall n: nat :: At(Meaning(v), n) == At(Least(cs, rep), n)
  {
    hide WellFormed, CoversAll, Sound, ClosedOutside, Least;
    assert Reps(v.root, Elems(list)) == {};
    ClosedIsLeast(v, cs, rep);
  }

  /** Representatives stand for themselves. */
  lemma LiveReps(root: seq<nat>, s: set<nat>)
    requires forall n | n in s :: n < |root| && root[n] == n
    ensures Reps(root, s) == s
  {
  }

  ghost predicate EntersUpTo(v: View, cs: seq<Constraint>, i: nat, l: PtsGraph) {
    && WellFormed(v) && Sound(v, l) && InRange(cs, |v.root|)
    && i <= |cs| && forall j | 0 <= j < i :: cs[j] in cs && Covers(v, cs[j])
  }

  lemma StartIsGood(root: seq<nat>, cs: seq<Constraint>)
    requires IsRep(root) && InRange(cs, |root|)
    ensures EntersUpTo(View(root, map[], map[]), cs, 0, Least(cs, root))
  {
    LeastIsSolution(cs, root);
  }

  lemma EnterStep(v: View, cs: seq<Constraint>, i: nat, l: PtsGraph)
    requires EntersUpTo(v, cs, i, l) && i < |cs| && IsSolution(l, cs)
    ensures Entered(v, cs[i]).root == v.root && EntersUpTo(Entered(v, cs[i]), cs, i + 1, l)
  {
    var c := cs[i];
    assert c in cs && Holds(l, c) && Entered(v, c).root == v.root;
    EnteredWellFormed(v, c);
    EnteredSound(v, c, l);
    hide WellFormed, Sound, Covers, Entered;
    forall j | 0 <= j < i + 1 ensures cs[j] in cs && Covers(Entered(v, c), cs[j]) {
      EnteredCovers(v, c, cs[j]);
    }
  }

  lemma AllEntered(v: View, cs: seq<Constraint>, l: PtsGraph)
    requires EntersUpTo(v, cs, |cs|, l)
    ensures Good(v, cs, l)
  {
  }
}