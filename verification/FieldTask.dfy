/** What the field-sensitive solver is given, and the points-to graphs that its state never goes beyond.

    Besides constraints and merges it is given the map from pointers to collapse targets that was
    found before the run.  What a mapped pointer points to is merged with its target, and one edge
    then does for all pointees of a load or store through it; so the state is not compared with
    solutions of the constraints alone, but with those in which these things hold.
 */
module FieldTasks {
  import opened Constraints
  import opened FieldConstraints
  import opened FieldStates

  datatype Task = Task(cs: seq<FieldConstraint>, root: seq<nat>, hcd: map<nat, nat>)

  // ----- Points-to graphs -----

  /** What a mapped pointer points to has the set of its target. */
  ghost predicate PointeesEqual(ly: Layout, hcd: map<nat, nat>, q: PtsGraph) {
    forall n, o | n in hcd && o in At(q, n) && IsObject(ly, o) && o != ly.i2p :: At(q, o) == At(q, hcd[n])
  }

  /** The edge between h and the destination or source of a load or store. */
  ghost predicate EdgeHolds(ly: Layout, q: PtsGraph, c: FieldConstraint, h: nat) {
    if c.ty.Load? then Tracked(ly, h, c.dest) ==> At(q, h) <= At(q, c.dest)
    else Tracked(ly, c.src, h) ==> At(q, c.src) <= At(q, h)
  }

  /** There are pointees, but no object other than i2p, through which nothing is loaded or stored. */
  ghost predicate IntOnly(ly: Layout, s: set<nat>) {
    s != {} && !MeetsObject(ly, s)
  }

  /** The edges hold of the plain constraints on mapped pointers without objects; r says which nodes are one. */
  ghost predicate IntEdges(ly: Layout, t: Task, q: PtsGraph, r: seq<nat>) {
    forall n, c | n in t.hcd && c in t.cs && Plain(c) && Find(r, Pointer(c)) == Find(r, n) && IntOnly(ly, At(q, n)) ::
      EdgeHolds(ly, q, c, t.hcd[n])
  }

  /** The points-to graphs that the solver's state stays within, once the nodes that r unites are merged. */
  ghost predicate Tame(ly: Layout, t: Task, q: PtsGraph, r: seq<nat>) {
    FieldSolution(ly, q, t.cs, t.root) && PointeesEqual(ly, t.hcd, q) && IntEdges(ly, t, q, r)
  }

  /** Those that it stays within whatever is merged. */
  ghost predicate Steady(ly: Layout, t: Task, q: PtsGraph) {
    && FieldSolution(ly, q, t.cs, t.root) && PointeesEqual(ly, t.hcd, q)
    && forall n, c | n in t.hcd && c in t.cs && Plain(c) && At(q, Pointer(c)) == At(q, n) && IntOnly(ly, At(q, n)) ::
         EdgeHolds(ly, q, c, t.hcd[n])
  }

  // ----- The task -----

  /** Constraints do not name node 0. */
  predicate NoNull(cs: seq<FieldConstraint>) {
    forall c | c in cs :: c.dest != 0 && c.src != 0
  }

  /** n is a representative through which some constraint loads, stores or computes a field. */
  ghost predicate Used(cs: seq<FieldConstraint>, root: seq<nat>, n: nat) {
    exists j :: 0 <= j < |cs| && !cs[j].ty.AddrOf? && !cs[j].ty.Copy? && Find(root, Pointer(cs[j])) == n
  }

  ghost predicate EqualInAll(ly: Layout, t: Task, n: nat, m: nat) {
    forall q: PtsGraph | Steady(ly, t, q) :: At(q, n) == At(q, m)
  }

  /** Pointers that are equal whatever is merged have one target: two different ones would have to be
      merged when the pointers are. */
  ghost predicate OneTarget(ly: Layout, t: Task) {
    forall n, m | n in t.hcd && m in t.hcd && EqualInAll(ly, t, n, m) :: Find(t.root, t.hcd[n]) == Find(t.root, t.hcd[m])
  }

  ghost predicate TaskOk(ly: Layout, t: Task) {
    && FieldInRange(ly, t.cs) && NoNull(t.cs) && |t.root| == |ly.sz| && IsRep(t.root)
    && TargetsOk(ly, t.hcd) && (forall n | n in t.hcd :: Used(t.cs, t.root, n) && Find(t.root, n) == n) && OneTarget(ly, t)
  }

  /** s unites what r unites. */
  ghost predicate Coarser(r: seq<nat>, s: seq<nat>) {
    |r| == |s| && forall n | 0 <= n < |r| :: r[n] < |s| && s[r[n]] == s[n]
  }

  /** Merging more makes fewer points-to graphs tame. */
  lemma TameFiner(ly: Layout, t: Task, q: PtsGraph, r: seq<nat>, s: seq<nat>)
    requires TaskOk(ly, t) && Coarser(r, s) && |r| == |ly.sz| && Tame(ly, t, q, s)
    ensures Tame(ly, t, q, r)
  {
    hide FieldSolution, PointeesEqual, EdgeHolds, OneTarget, Used, IntOnly;
    forall n, c | n in t.hcd && c in t.cs && Plain(c) && Find(r, Pointer(c)) == Find(r, n) && IntOnly(ly, At(q, n))
      ensures EdgeHolds(ly, q, c, t.hcd[n])
    {
      assert CanEnter(ly, c);
      assert s[r[n]] == s[n] && s[r[Pointer(c)]] == s[Pointer(c)];
    }
  }

  lemma SteadyIsTame(ly: Layout, t: Task, q: PtsGraph, r: seq<nat>)
    requires TaskOk(ly, t) && Steady(ly, t, q) && Respects(q, r) && |r| == |ly.sz|
    ensures Tame(ly, t, q, r)
  {
    hide FieldSolution, PointeesEqual, EdgeHolds, OneTarget, Used, IntOnly;
    forall n, c | n in t.hcd && c in t.cs && Plain(c) && Find(r, Pointer(c)) == Find(r, n) && IntOnly(ly, At(q, n))
      ensures EdgeHolds(ly, q, c, t.hcd[n])
    {
      assert CanEnter(ly, c);
      assert At(q, n) == At(q, r[n]) && At(q, Pointer(c)) == At(q, r[Pointer(c)]);
    }
  }

  /** In a tame graph the edge holds of every plain constraint on a mapped pointer that points to something. */
  lemma TameEdge(ly: Layout, t: Task, q: PtsGraph, r: seq<nat>, n: nat, c: FieldConstraint)
    requires TaskOk(ly, t) && Tame(ly, t, q, r) && n in t.hcd && c in t.cs && Plain(c) && Find(r, Pointer(c)) == Find(r, n)
    requires At(q, n) != {} && At(q, Pointer(c)) == At(q, n)
    ensures EdgeHolds(ly, q, c, t.hcd[n])
  {
    assert FieldHolds(ly, q, c);
    hide Tame, TaskOk, At;
    if MeetsObject(ly, At(q, n)) {
      var o :| o in At(q, n) && IsObject(ly, o) && o != ly.i2p;
      assert Fits(ly, o, 0) && o + 0 == o;
      assert At(q, o) == At(q, t.hcd[n]) by {
        PointeeEqual(ly, t, q, r, n, o);
      }
    } else {
      IntEdge(ly, t, q, r, n, c);
    }
  }

  lemma PointeeEqual(ly: Layout, t: Task, q: PtsGraph, r: seq<nat>, n: nat, o: nat)
    requires Tame(ly, t, q, r) && n in t.hcd && o in At(q, n) && IsObject(ly, o) && o != ly.i2p
    ensures At(q, o) == At(q, t.hcd[n])
  {
    hide FieldSolution, IntEdges, At;
  }

  lemma IntEdge(ly: Layout, t: Task, q: PtsGraph, r: seq<nat>, n: nat, c: FieldConstraint)
    requires Tame(ly, t, q, r) && n in t.hcd && c in t.cs && Plain(c) && Find(r, Pointer(c)) == Find(r, n) && IntOnly(ly, At(q, n))
    ensures EdgeHolds(ly, q, c, t.hcd[n])
  {
    hide FieldSolution, PointeesEqual, At, EdgeHolds;
  }

  /** a and b have one set in every tame graph. */
  ghost predicate Agree(ly: Layout, t: Task, r: seq<nat>, a: nat, b: nat) {
    forall q: PtsGraph | Tame(ly, t, q, r) :: At(q, a) == At(q, b)
  }

  lemma AgreeFiner(ly: Layout, t: Task, r: seq<nat>, s: seq<nat>, a: nat, b: nat)
    requires TaskOk(ly, t) && Coarser(r, s) && |r| == |ly.sz| && Agree(ly, t, r, a, b)
    ensures Agree(ly, t, s, a, b)
  {
    hide TaskOk, Tame, At;
    forall q: PtsGraph | Tame(ly, t, q, s) ensures At(q, a) == At(q, b) {
      TameFiner(ly, t, q, r, s);
    }
  }

  // ----- The state -----

  /** c is one of the constraints, up to merges. */
  ghost predicate Stems(v: FState, c: FieldConstraint, cs: seq<FieldConstraint>) {
    exists d :: d in cs && SameCons(v, c, d)
  }

  ghost predicate Origin(v: FState, cs: seq<FieldConstraint>) {
    forall k, n, id | 0 <= n < |List(v, k)| && id in List(v, k)[n] && id < |v.cplx| :: Stems(v, v.cplx[id], cs)
  }

  /** The representative of a mapped pointer is mapped to what its target was merged into. */
  ghost predicate MapsOn(v: FState, hcd: map<nat, nat>) {
    forall n {:trigger MapsAt(v, hcd, n)} | n in hcd :: MapsAt(v, hcd, n)
  }

  ghost predicate MapsAt(v: FState, hcd: map<nat, nat>, n: nat)
    requires n in hcd
  {
    Rep(v, n) in v.hcd && Rep(v, v.hcd[Rep(v, n)]) == Rep(v, hcd[n])
  }

  /** What a is mapped to is the target of a pointer that was merged with it. */
  ghost predicate Inherits(v: FState, hcd: map<nat, nat>, a: nat)
    requires a in v.hcd
  {
    exists n :: n in hcd && Rep(v, n) == Rep(v, a) && v.hcd[a] == hcd[n]
  }

  /** Nothing else is mapped. */
  ghost predicate MapsBack(v: FState, hcd: map<nat, nat>) {
    forall a {:trigger Inherits(v, hcd, a)} | a in v.hcd :: Inherits(v, hcd, a)
  }

  /** The state comes from the task, and goes beyond no tame points-to graph. */
  ghost predicate SoundFor(ly: Layout, v: FState, t: Task) {
    && TaskOk(ly, t) && Coarser(t.root, v.root) && Origin(v, t.cs) && MapsOn(v, t.hcd) && MapsBack(v, t.hcd)
    && (forall q: PtsGraph | Tame(ly, t, q, v.root) :: Sound(v, q))
    && (forall q: PtsGraph | Steady(ly, t, q) :: Respects(q, v.root))
  }

  lemma SoundIn(ly: Layout, v: FState, t: Task, q: PtsGraph)
    requires SoundFor(ly, v, t) && Tame(ly, t, q, v.root)
    ensures Sound(v, q) && Respects(q, v.root) && TaskOk(ly, t)
  {
    hide TaskOk, Origin, MapsOn, MapsBack, Coarser;
  }

  /** A step that leaves merges and targets alone need only be sound in every tame graph. */
  lemma StepSoundFor(ly: Layout, v: FState, w: FState, t: Task)
    requires SoundFor(ly, v, t) && w.root == v.root && w.hcd == v.hcd && Origin(w, t.cs)
    requires forall q: PtsGraph | Tame(ly, t, q, v.root) :: Sound(w, q)
    ensures SoundFor(ly, w, t)
  {
    hide TaskOk, Origin, Sound, Steady, Tame, Coarser, Respects, MapsOn, MapsBack;
    SameMapsOn(v, w, t.hcd);
    SameMapsBack(v, w, t.hcd);
  }

  lemma SameMapsOn(v: FState, w: FState, hcd: map<nat, nat>)
    requires MapsOn(v, hcd) && w.root == v.root && w.hcd == v.hcd
    ensures MapsOn(w, hcd)
  {
    forall n | n in hcd ensures MapsAt(w, hcd, n) {
      assert MapsAt(v, hcd, n);
    }
  }

  lemma SameMapsBack(v: FState, w: FState, hcd: map<nat, nat>)
    requires MapsBack(v, hcd) && w.root == v.root && w.hcd == v.hcd
    ensures MapsBack(w, hcd)
  {
    forall a | a in w.hcd ensures Inherits(w, hcd, a) {
      assert Inherits(v, hcd, a);
    }
  }

  lemma SameHolds(ly: Layout, v: FState, q: PtsGraph, c: FieldConstraint, d: FieldConstraint)
    requires Sizes(ly, v) && Respects(q, v.root) && SameCons(v, d, c) && FieldHolds(ly, q, c) && !c.ty.AddrOf?
    requires c.dest < |v.root| && c.src < |v.root| && d.dest < |v.root| && d.src < |v.root|
    ensures FieldHolds(ly, q, d)
  {
    assert At(q, c.dest) == At(q, Rep(v, c.dest)) == At(q, d.dest);
    assert At(q, c.src) == At(q, Rep(v, c.src)) == At(q, d.src);
    IsI2p(ly, v, c.dest, d.dest);
    IsI2p(ly, v, c.src, d.src);
    hide At, Respects;
  }

  lemma IsI2p(ly: Layout, v: FState, a: nat, b: nat)
    requires Sizes(ly, v) && a < |v.root| && b < |v.root| && Rep(v, a) == Rep(v, b)
    ensures a == ly.i2p <==> b == ly.i2p
  {
  }

  /** What a listed constraint is one of. */
  lemma StemOf(ly: Layout, v: FState, t: Task, k: Kind, n: nat, id: nat) returns (d: FieldConstraint)
    requires WellFormed(ly, v) && SoundFor(ly, v, t) && n < |List(v, k)| && id in List(v, k)[n]
    ensures id < |v.cplx| && d in t.cs && SameCons(v, v.cplx[id], d) && ListedOk(ly, v, k, n, id)
    ensures 0 < d.dest < |v.root| && 0 < d.src < |v.root| && Sizes(ly, v)
  {
    assert ListedOk(ly, v, k, n, id);
    assert Stems(v, v.cplx[id], t.cs);
    d :| d in t.cs && SameCons(v, v.cplx[id], d);
    assert CanEnter(ly, d) && d.dest != 0 && d.src != 0 && |v.root| == |ly.sz|;
    hide SoundFor, WellFormed, SameCons, ListedOk, Stems;
  }

  /** Listed constraints hold in every tame graph. */
  lemma ListedHolds(ly: Layout, v: FState, t: Task, q: PtsGraph, k: Kind, n: nat, id: nat)
    requires WellFormed(ly, v) && SoundFor(ly, v, t) && Tame(ly, t, q, v.root) && n < |List(v, k)| && id in List(v, k)[n]
    ensures id < |v.cplx| && FieldHolds(ly, q, v.cplx[id]) && ListedOk(ly, v, k, n, id)
  {
    var d := StemOf(ly, v, t, k, n, id);
    SoundIn(ly, v, t, q);
    assert FieldHolds(ly, q, d);
    hide WellFormed, SoundFor, Tame, FieldHolds, Sound, Respects, Sizes, TaskOk;
    SameHolds(ly, v, q, d, v.cplx[id]);
  }

  // ----- Collapse targets -----

  /** The pointer whose target a node was given. */
  lemma GivenBy(ly: Layout, v: FState, t: Task, a: nat) returns (n: nat)
    requires Sizes(ly, v) && SoundFor(ly, v, t) && a in v.hcd && a < |v.root|
    ensures n in t.hcd && n < |v.root| && Rep(v, n) == Rep(v, a) && v.hcd[a] == t.hcd[n] && t.hcd[n] < |v.root|
    ensures forall q | Respects(q, v.root) :: At(q, n) == At(q, a)
  {
    hide MapsOn, Origin, Tame, Steady, Sound, Coarser, At;
    assert Inherits(v, t.hcd, a);
    n :| n in t.hcd && Rep(v, n) == Rep(v, a) && v.hcd[a] == t.hcd[n];
    assert n < |v.root| && t.hcd[n] < |v.root|;
    hide SoundFor;
    forall q | Respects(q, v.root) ensures At(q, n) == At(q, a) {
      assert At(q, n) == At(q, v.root[n]) && At(q, a) == At(q, v.root[a]);
    }
  }

  /** In every tame graph the pointees of a mapped node have the set of what it is mapped to. */
  lemma TargetEqual(ly: Layout, v: FState, t: Task, q: PtsGraph, n: nat, o: nat)
    requires Sizes(ly, v) && SoundFor(ly, v, t) && Tame(ly, t, q, v.root) && n in v.hcd && n < |v.root|
    requires o in At(q, n) && IsObject(ly, o) && o != ly.i2p
    ensures At(q, o) == At(q, v.hcd[n])
  {
    hide SoundFor, Tame, Sound, Respects, At, TaskOk;
    SoundIn(ly, v, t, q);
    var m := GivenBy(ly, v, t, n);
    PointeeEqual(ly, t, q, v.root, m, o);
  }

  /** Nodes that are equal in every tame graph are mapped to one node, if they are mapped. */
  lemma SameTarget(ly: Layout, v: FState, t: Task, a: nat, b: nat)
    requires Sizes(ly, v) && SoundFor(ly, v, t) && a in v.hcd && b in v.hcd && a < |v.root| && b < |v.root|
    requires Agree(ly, t, v.root, a, b)
    ensures Rep(v, v.hcd[a]) == Rep(v, v.hcd[b])
  {
    hide MapsOn, MapsBack, Origin, At, Tame, Steady, Respects, Sound, FieldInRange, Used;
    var n := GivenBy(ly, v, t, a);
    var m := GivenBy(ly, v, t, b);
    assert Coarser(t.root, v.root) && OneTarget(ly, t) && TaskOk(ly, t);
    forall q: PtsGraph | Steady(ly, t, q) ensures At(q, n) == At(q, m) {
      assert Respects(q, v.root);
      SteadyIsTame(ly, t, q, v.root);
    }
    assert EqualInAll(ly, t, n, m);
    assert Find(t.root, t.hcd[n]) == Find(t.root, t.hcd[m]);
    hide SoundFor, TaskOk;
  }

  /** Nodes that agree stand for nodes that agree. */
  lemma AgreeReps(ly: Layout, v: FState, t: Task, a: nat, b: nat)
    requires Sizes(ly, v) && SoundFor(ly, v, t) && a < |v.root| && b < |v.root| && Agree(ly, t, v.root, a, b)
    ensures Agree(ly, t, v.root, Rep(v, a), Rep(v, b))
  {
    hide SoundFor, Tame, At, Sizes;
    forall q: PtsGraph | Tame(ly, t, q, v.root) ensures At(q, Rep(v, a)) == At(q, Rep(v, b)) {
      SoundIn(ly, v, t, q);
      assert At(q, a) == At(q, v.root[a]) && At(q, b) == At(q, v.root[b]);
    }
  }
}
