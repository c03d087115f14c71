/** What a visit to a node of the field-sensitive solver keeps, and why the run ends. */
module FieldVisits {
  import opened Constraints
  import opened FieldConstraints
  import opened FieldStates
  import opened FieldTasks
  import opened FieldSteps
  import opened FieldInit

  // ----- Queued nodes -----

  /** An entry for m that will not be skipped: its key is not below m's visit time. */
  predicate Waits(entries: map<nat, nat>, vt: seq<nat>, m: nat) {
    m in entries && m < |vt| && entries[m] >= vt[m]
  }

  function OpenIn(curr: map<nat, nat>, next: map<nat, nat>, vt: seq<nat>): set<nat> {
    set m: nat | m < |vt| && (Waits(curr, vt, m) || Waits(next, vt, m))
  }

  lemma OpenLive(ly: Layout, v: FState, open: set<nat>, open2: set<nat>)
    requires LoopInv(ly, v, open) && forall m | m in Live(v) && m in open :: m in open2
    ensures LoopInv(ly, v, open2)
  {
    hide ClosedFor, WellFormed;
  }

  // ----- Progress -----

  /** Points-to facts and edges to representatives that could still be added. */
  ghost function Missing(v: FState): set<(bool, nat, nat)> {
    (set n: nat, o: nat | n < |v.root| && n < |v.pts| && o < |v.root| && v.root[n] == n && o !in v.pts[n] :: (true, n, o))
    + (set n: nat, r: nat | n < |v.root| && n < |v.copies| && r < |v.root| && v.root[r] == r && v.root[n] == n && r !in v.copies[n] :: (false, n, r))
  }

  /** Points-to facts that were not propagated yet. */
  ghost function Unpropagated(v: FState): set<(nat, nat)> {
    set n, o | 0 <= n < |v.pts| && n < |v.prev| && o in v.pts[n] && o !in v.prev[n] :: (n, o)
  }

  /** w has no fewer facts and edges; the lists of constraints are left open. */
  ghost predicate Evolves(v: FState, w: FState) {
    && w.root == v.root && w.hcd == v.hcd && w.prev == v.prev && |w.pts| == |v.pts| && |w.copies| == |v.copies|
    && (forall n | 0 <= n < |v.pts| :: v.pts[n] <= w.pts[n])
    && (forall n | 0 <= n < |v.copies| :: v.copies[n] <= w.copies[n])
  }

  lemma EvolvesTrans(u: FState, v: FState, w: FState)
    requires Evolves(u, v) && Evolves(v, w)
    ensures Evolves(u, w)
  {
  }

  lemma EvolvesMissing(v: FState, w: FState)
    requires Evolves(v, w)
    ensures Missing(w) <= Missing(v)
  {
  }

  /** Solving a node with unpropagated facts makes progress. */
  lemma SolvedProgress(ly: Layout, v: FState, u: FState, w: FState, n: nat)
    requires WellFormed(ly, v) && WellFormed(ly, w) && n in Live(v) && v.pts[n] - v.prev[n] != {}
    requires u == v.(prev := v.prev[n := v.pts[n]]) && Evolves(u, w)
    ensures Missing(w) < Missing(v) || (Missing(w) == Missing(v) && Unpropagated(w) < Unpropagated(v))
  {
    EvolvesMissing(u, w);
    assert Missing(u) == Missing(v);
    if m, o :| 0 <= m < |v.pts| && o in w.pts[m] && o !in v.pts[m] {
      assert IsObject(ly, o);
      assert m in Live(v);
      assert (true, m, o) in Missing(v) && (true, m, o) !in Missing(w);
    } else {
      assert Unpropagated(w) <= Unpropagated(v);
      var o :| o in v.pts[n] - v.prev[n];
      assert (n, o) in Unpropagated(v) && (n, o) !in Unpropagated(w);
    }
  }

  // ----- Constraints applied to the new pointees -----

  /** Constraint c on n was applied to d; if n is mapped, it needed to be, as it is not plain. */
  ghost predicate Handled(ly: Layout, v: FState, n: nat, c: FieldConstraint, d: set<nat>) {
    Applied(ly, v, c, d) && (n in v.hcd ==> !Plain(c))
  }

  lemma AppliedIsHandled(ly: Layout, v: FState, w: FState, n: nat, id: nat, d: set<nat>)
    requires Evolves(v, w) && w.cplx == v.cplx && id < |v.cplx| && Applied(ly, w, v.cplx[id], d) && (n in v.hcd ==> !Plain(v.cplx[id]))
    ensures Handled(ly, w, n, w.cplx[id], d)
  {
    hide Applied;
  }

  /** All constraints in list k of node n were applied to d. */
  ghost predicate DoneFor(ly: Layout, v: FState, k: Kind, n: nat, d: set<nat>) {
    n < |List(v, k)| && forall id | id in List(v, k)[n] :: id < |v.cplx| && Handled(ly, v, n, v.cplx[id], d)
  }

  lemma GrowsDone(ly: Layout, v: FState, w: FState, k: Kind, n: nat, d: set<nat>)
    requires Grows(v, w) && DoneFor(ly, v, k, n, d)
    ensures DoneFor(ly, w, k, n, d)
  {
    forall id | id in List(w, k)[n] ensures Handled(ly, w, n, w.cplx[id], d) {
      assert id in List(v, k)[n];
      GrowsApplied(ly, v, w, v.cplx[id], d);
    }
  }

  lemma AlikeDone(ly: Layout, v: FState, w: FState, k: Kind, n: nat, d: set<nat>)
    requires Sizes(ly, v) && Alike(ly, v, w) && DoneFor(ly, v, k, n, d)
    ensures DoneFor(ly, w, k, n, d)
  {
    forall id | id in List(w, k)[n] ensures Handled(ly, w, n, w.cplx[id], d) {
      assert id in List(v, k)[n];
      AlikeApplied(ly, v, w, v.cplx[id], w.cplx[id], d);
    }
  }

  lemma DropDone(ly: Layout, v: FState, j: Kind, n: nat, id: nat, k: Kind, d: set<nat>)
    requires n < |List(v, j)| && DoneFor(ly, v, k, n, d)
    ensures DoneFor(ly, Drop(v, j, n, id), k, n, d)
  {
    var w := Drop(v, j, n, id);
    DropLists(v, j, n, id);
    forall i | i in List(w, k)[n] ensures i < |w.cplx| && Handled(ly, w, n, w.cplx[i], d) {
      assert i in List(v, k)[n];
      SameApplied(ly, v, w, v.cplx[i], d);
    }
  }

  lemma AppliedUnion(ly: Layout, v: FState, c: FieldConstraint, s: set<nat>, d: set<nat>)
    requires Applied(ly, v, c, s) && Applied(ly, v, c, d)
    ensures Applied(ly, v, c, s + d)
  {
  }

  lemma CollapsedBoth(ly: Layout, v: FState, n: nat, s: set<nat>, d: set<nat>)
    requires Collapsed(ly, v, n, s) && Together(ly, v, n, d)
    requires DoneFor(ly, v, KLoad, n, d) && DoneFor(ly, v, KStore, n, d) && DoneFor(ly, v, KGep, n, d)
    ensures Collapsed(ly, v, n, s + d)
  {
    hide Applied;
    if n in v.hcd {
      forall k, id | n < |List(v, k)| && id in List(v, k)[n] && id < |v.cplx| ensures !Plain(v.cplx[id]) {
        assert DoneFor(ly, v, k, n, d);
        assert Handled(ly, v, n, v.cplx[id], d);
      }
    }
  }

  /** The constraints on n done and d copied along its edges, n is closed for both parts. */
  lemma NodeDone(ly: Layout, v: FState, open: set<nat>, n: nat, s: set<nat>, d: set<nat>)
    requires NodeInv(ly, v, open, n, s) && Copied(v, n, d) && Together(ly, v, n, d) && v.prev[n] == s + d
    requires DoneFor(ly, v, KLoad, n, d) && DoneFor(ly, v, KStore, n, d) && DoneFor(ly, v, KGep, n, d)
    ensures LoopInv(ly, v, open)
  {
    CollapsedBoth(ly, v, n, s, d);
    hide Collapsed, Together;
    forall k, id | id in List(v, k)[n] ensures ListedOk(ly, v, k, n, id) && Applied(ly, v, v.cplx[id], s + d) {
      assert DoneFor(ly, v, k, n, d);
      AppliedUnion(ly, v, v.cplx[id], s, d);
    }
    assert ClosedFor(ly, v, n, s + d);
    hide ClosedFor, WellFormed;
  }

  /** A node that was merged is queued, so nothing more is asked of it. */
  lemma NodeAgain(ly: Layout, v: FState, open: set<nat>, n: nat)
    requires NodeInv(ly, v, open, n, {}) && v.prev[n] == {} && n in open
    ensures LoopInv(ly, v, open)
  {
    hide ClosedFor, WellFormed;
  }

  // ----- One pointee, one constraint -----

  /** The edge that constraint id of kind k asks for, for pointee o. */
  function EdgeFrom(v: FState, k: Kind, c: FieldConstraint, o: nat): nat {
    if k == KLoad then Rep(v, o + c.off) else Rep(v, c.src)
  }

  function EdgeTo(v: FState, k: Kind, c: FieldConstraint, o: nat): nat {
    if k == KLoad then Rep(v, c.dest) else Rep(v, o + c.off)
  }

  lemma EdgeEnds(ly: Layout, v: FState, k: Kind, n: nat, id: nat, o: nat)
    requires WellFormed(ly, v) && n < |v.root| && id in List(v, k)[n] && k != KGep
    requires id < |v.cplx| && Fits(ly, o, v.cplx[id].off)
    ensures EdgeFrom(v, k, v.cplx[id], o) != 0
    ensures IsKind(k, v.cplx[id]) && EdgeFrom(v, k, v.cplx[id], o) in Live(v) && EdgeTo(v, k, v.cplx[id], o) in Live(v)
  {
    assert ListedOk(ly, v, k, n, id);
    assert IsObject(ly, o + v.cplx[id].off);
  }

  /** While n is being solved the state covers the constraints and is sound. */
  ghost predicate Solving(ly: Layout, v: FState, open: set<nat>, n: nat, s: set<nat>, t: Task) {
    NodeInv(ly, v, open, n, s) && CoversAll(ly, v, t.cs) && SoundFor(ly, v, t)
  }

  /** The step from v to w opens at most b. */
  ghost predicate Steps(ly: Layout, v: FState, w: FState, b: nat, open: set<nat>, n: nat, s: set<nat>, t: Task) {
    && b in Live(v) && Grows(v, w) && b < |v.pts|
    && Solving(ly, w, open + {b}, n, s, t)
    && (w.pts[b] == v.pts[b] ==> Solving(ly, w, open, n, s, t))
  }

  lemma StepSteps(ly: Layout, v: FState, w: FState, b: nat, open: set<nat>, n: nat, s: set<nat>, t: Task)
    requires Solving(ly, v, open, n, s, t) && b in Live(v) && WellFormed(ly, w) && Grows(v, w) && NewEdgesOk(v, w)
    requires forall q: PtsGraph | Tame(ly, t, q, v.root) :: Sound(w, q)
    requires forall m | 0 <= m < |v.pts| && m != b :: w.pts[m] == v.pts[m]
    ensures Steps(ly, v, w, b, open, n, s, t)
  {
    hide ClosedFor, DataOk, ListsOk, Covers, NewEdgesOk, SoundFor, Sound, Tame;
    GrowsCovers(ly, v, w, t.cs);
    GrowsSoundFor(ly, v, w, t);
    StepKeeps(ly, v, w, open, open + {b}, n, s);
    if w.pts[b] == v.pts[b] {
      StepKeeps(ly, v, w, open, open, n, s);
    }
  }

  lemma SolvingSizes(ly: Layout, v: FState, open: set<nat>, n: nat, s: set<nat>, t: Task)
    requires Solving(ly, v, open, n, s, t)
    ensures WellFormed(ly, v) && |v.root| == |v.pts| == |v.prev| == |v.copies| == |v.loads| == |v.stores| == |v.geps| == |ly.sz|
    ensures n in Live(v) && s <= v.pts[n] && SoundFor(ly, v, t)
  {
    hide SoundFor;
  }

  lemma EdgeStep(ly: Layout, v: FState, open: set<nat>, n: nat, s: set<nat>, t: Task, k: Kind, id: nat, o: nat)
    requires Solving(ly, v, open, n, s, t)
    requires n < |List(v, k)| && id in List(v, k)[n] && k != KGep && id < |v.cplx| && n < |v.pts| && o in v.pts[n] && Fits(ly, o, v.cplx[id].off)
    ensures var a, b := EdgeFrom(v, k, v.cplx[id], o), EdgeTo(v, k, v.cplx[id], o);
      && a < |v.pts| && a < |v.copies| && b < |v.pts|
      && Steps(ly, v, AddEdge(ly, v, a, b), b, open, n, s, t) && AppliedTo(ly, AddEdge(ly, v, a, b), v.cplx[id], o)
  {
    hide NodeInv, WellFormed, AddEdge, CoversAll, Sound, SoundFor, Tame, At, Fits, AppliedTo, NewEdgesOk, Steps, Grows, Live;
    SolvingSizes(ly, v, open, n, s, t);
    EdgeEnds(ly, v, k, n, id, o);
    var a, b := EdgeFrom(v, k, v.cplx[id], o), EdgeTo(v, k, v.cplx[id], o);
    LiveRange(v, a);
    LiveRange(v, b);
    AddEdgeFacts(ly, v, a, b);
    forall q: PtsGraph | Tame(ly, t, q, v.root) ensures Sound(AddEdge(ly, v, a, b), q) {
      EdgeIsSound(ly, v, t, q, k, n, id, o);
      AddEdgeSound(ly, v, a, b, q);
    }
    StepSteps(ly, v, AddEdge(ly, v, a, b), b, open, n, s, t);
    EdgeApplies(ly, v, AddEdge(ly, v, a, b), k, id, o);
  }

  lemma EdgeApplies(ly: Layout, v: FState, w: FState, k: Kind, id: nat, o: nat)
    requires id < |v.cplx| && IsKind(k, v.cplx[id]) && k != KGep && Grows(v, w)
    requires HasEdge(ly, w, EdgeFrom(v, k, v.cplx[id], o), EdgeTo(v, k, v.cplx[id], o))
    ensures AppliedTo(ly, w, v.cplx[id], o)
  {
    assert w.root == v.root;
    hide HasEdge, Grows;
  }

  lemma AppliedToStays(ly: Layout, v: FState, w: FState, c: FieldConstraint, o: nat)
    requires Grows(v, w) && AppliedTo(ly, v, c, o)
    ensures AppliedTo(ly, w, c, o)
  {
  }

  /** What a GEP constraint derives from pointees of n are objects that its destination points to. */
  lemma FieldsAreSound(ly: Layout, v: FState, n: nat, t: Task, q: PtsGraph, id: nat, d: set<nat>)
    requires WellFormed(ly, v) && SoundFor(ly, v, t) && Tame(ly, t, q, v.root)
    requires n < |v.geps| && id in v.geps[n] && id < |v.cplx| && n < |v.pts| && d <= v.pts[n]
    ensures Sound(v, q) && Fields(ly, d, v.cplx[id].off) <= At(q, Rep(v, v.cplx[id].dest))
  {
    hide SoundFor, Tame, DataOk, ListsOk, Sound, LayoutOk;
    var c := v.cplx[id];
    assert id in List(v, KGep)[n];
    ListedHolds(ly, v, t, q, KGep, n, id);
    SoundIn(ly, v, t, q);
    SoundAtRep(ly, v, q, c.dest);
    SoundAtRep(ly, v, q, c.src);
    assert d <= At(q, n) by {
      SoundPts(v, q, n);
    }
    hide ListedOk, At, Sizes;
    forall o | o in Fields(ly, d, c.off) ensures o in At(q, Rep(v, c.dest)) {
      var x :| x in d && Fits(ly, x, c.off) && x + c.off == o;
    }
  }

  lemma SoundPts(v: FState, q: PtsGraph, n: nat)
    requires Sound(v, q) && n < |v.pts|
    ensures v.pts[n] <= At(q, n)
  {
  }

  lemma FieldsAreObjects(ly: Layout, v: FState, n: nat, id: nat, d: set<nat>)
    requires WellFormed(ly, v) && n < |v.geps| && id in v.geps[n]
    ensures id < |v.cplx| && Rep(v, v.cplx[id].dest) in Live(v) && v.cplx[id].ty.Gep?
    ensures forall o | o in Fields(ly, d, v.cplx[id].off) :: IsObject(ly, o)
  {
    assert id in List(v, KGep)[n] && ListedOk(ly, v, KGep, n, id);
    hide DataOk, ListsOk;
  }

  lemma FieldsApplied(ly: Layout, v: FState, c: FieldConstraint, d: set<nat>)
    requires c.ty.Gep? && Rep(v, c.dest) < |v.pts|
    ensures Applied(ly, AddPts(v, Rep(v, c.dest), Fields(ly, d, c.off)), c, d)
  {
    var w := AddPts(v, Rep(v, c.dest), Fields(ly, d, c.off));
    forall o | o in d && Fits(ly, o, c.off) ensures AppliedTo(ly, w, c, o) {
      assert o + c.off in Fields(ly, d, c.off);
    }
  }

  /** What a GEP constraint adds. */
  lemma GepStep(ly: Layout, v: FState, open: set<nat>, n: nat, s: set<nat>, t: Task, id: nat, d: set<nat>)
    requires Solving(ly, v, open, n, s, t)
    requires n < |v.geps| && id in v.geps[n] && id < |v.cplx| && n < |v.pts| && d <= v.pts[n]
    ensures var b := Rep(v, v.cplx[id].dest);
      && b < |v.pts| && var w := AddPts(v, b, Fields(ly, d, v.cplx[id].off));
      && Steps(ly, v, w, b, open, n, s, t) && Applied(ly, w, v.cplx[id], d)
  {
    hide NodeInv, WellFormed, CoversAll, Sound, SoundFor, Tame, Fields, Applied, At, Steps, NewEdgesOk;
    SolvingSizes(ly, v, open, n, s, t);
    FieldsAreObjects(ly, v, n, id, d);
    var b, f := Rep(v, v.cplx[id].dest), Fields(ly, d, v.cplx[id].off);
    FieldsApplied(ly, v, v.cplx[id], d);
    AddPtsFacts(ly, v, b, f);
    forall q: PtsGraph | Tame(ly, t, q, v.root) ensures Sound(AddPts(v, b, f), q) {
      FieldsAreSound(ly, v, n, t, q, id, d);
      AddPtsSound(ly, v, b, f, q);
    }
    AddPtsOthers(v, b, f);
    StepSteps(ly, v, AddPts(v, b, f), b, open, n, s, t);
  }

  lemma AddPtsOthers(v: FState, b: nat, s: set<nat>)
    requires b < |v.pts|
    ensures forall m | 0 <= m < |v.pts| && m != b :: AddPts(v, b, s).pts[m] == v.pts[m]
  {
  }

  /** Copying d along one edge of n. */
  lemma PropStep(ly: Layout, v: FState, open: set<nat>, n: nat, s: set<nat>, t: Task, e: nat, d: set<nat>)
    requires Solving(ly, v, open, n, s, t) && n < |v.copies| && n < |v.pts| && e in v.copies[n] && d <= v.pts[n]
    ensures Rep(v, e) < |v.pts| && Steps(ly, v, AddPts(v, Rep(v, e), d), Rep(v, e), open, n, s, t)
  {
    hide NodeInv, CoversAll, Sound, SoundFor, Tame, At, Steps;
    SolvingSizes(ly, v, open, n, s, t);
    var b := Rep(v, e);
    assert e < |v.root| && b in Live(v);
    assert forall o | o in d :: IsObject(ly, o);
    hide WellFormed;
    AddPtsFacts(ly, v, b, d);
    forall q: PtsGraph | Tame(ly, t, q, v.root) ensures Sound(AddPts(v, b, d), q) {
      SoundIn(ly, v, t, q);
      EdgePts(ly, v, q, n, e);
      AddPtsSound(ly, v, b, d, q);
    }
    AddPtsOthers(v, b, d);
    StepSteps(ly, v, AddPts(v, b, d), b, open, n, s, t);
  }

  /** A copy edge in the state holds in what the state does not go beyond. */
  lemma EdgePts(ly: Layout, v: FState, q: PtsGraph, n: nat, e: nat)
    requires WellFormed(ly, v) && Sound(v, q) && n < |v.copies| && e in v.copies[n] && n < |v.pts|
    ensures v.pts[n] <= At(q, Rep(v, e))
  {
    assert e < |v.root| && At(q, n) <= At(q, e);
    SoundPts(v, q, n);
    SoundAtRep(ly, v, q, e);
    hide WellFormed, Sound, At;
  }

  ghost predicate InList(v: FState, n: nat, k: Kind, id: nat, d: set<nat>) {
    n < |v.pts| && n < |List(v, k)| && id in List(v, k)[n] && id < |v.cplx| && d <= v.pts[n]
  }

  /** Constraint id waits for n, and d are pointees of n. */
  ghost predicate Waiting(ly: Layout, v: FState, n: nat, k: Kind, id: nat, d: set<nat>) {
    && n < |v.pts| && n < |List(v, k)| && id in List(v, k)[n] && id < |v.cplx| && k != KGep && d <= v.pts[n]
  }

  lemma WaitingStays(ly: Layout, v: FState, w: FState, n: nat, k: Kind, id: nat, d: set<nat>)
    requires Waiting(ly, v, n, k, id, d) && Grows(v, w)
    ensures Waiting(ly, w, n, k, id, d)
  {
  }

  lemma WaitingOne(ly: Layout, v: FState, n: nat, k: Kind, id: nat, d: set<nat>, o: nat)
    requires Waiting(ly, v, n, k, id, d) && o in d
    ensures Waiting(ly, v, n, k, id, {o})
  {
  }

  lemma GrowsRoot(v: FState, w: FState)
    requires Grows(v, w)
    ensures w.root == v.root && w.cplx == v.cplx && w.hcd == v.hcd
  {
  }

  /** Constraint id, which waits for n, was applied to d except for those in todo. */
  ghost predicate EdgePart(ly: Layout, v0: FState, v: FState, n: nat, k: Kind, id: nat, d: set<nat>, todo: set<nat>) {
    && Waiting(ly, v, n, k, id, d) && Grows(v0, v)
    && (forall o | o in todo :: o in d && Fits(ly, o, v.cplx[id].off))
    && (forall o | o in d && Fits(ly, o, v.cplx[id].off) && o !in todo :: AppliedTo(ly, v, v.cplx[id], o))
  }

  lemma EdgeNext(ly: Layout, v0: FState, v: FState, n: nat, k: Kind, id: nat, d: set<nat>, todo: set<nat>, o: nat)
    requires EdgePart(ly, v0, v, n, k, id, d, todo) && o in todo
    ensures id < |v.cplx| == |v0.cplx| && Waiting(ly, v, n, k, id, {o}) && Fits(ly, o, v.cplx[id].off)
    ensures k == KLoad ==> EdgeTo(v, k, v.cplx[id], o) == Find(v0.root, v0.cplx[id].dest)
  {
    WaitingOne(ly, v, n, k, id, d, o);
    GrowsRoot(v0, v);
    hide Grows, AppliedTo;
  }

  lemma EdgeDone(ly: Layout, v0: FState, v: FState, w: FState, n: nat, k: Kind, id: nat, d: set<nat>, todo: set<nat>, o: nat)
    requires EdgePart(ly, v0, v, n, k, id, d, todo) && o in todo && Grows(v, w)
    requires id < |w.cplx| && AppliedTo(ly, w, w.cplx[id], o)
    ensures EdgePart(ly, v0, w, n, k, id, d, todo - {o})
  {
    GrowsTrans(v0, v, w);
    GrowsRoot(v, w);
    WaitingStays(ly, v, w, n, k, id, d);
    hide Grows, AppliedTo, Waiting;
    forall i | i in d && Fits(ly, i, w.cplx[id].off) && i !in todo - {o} ensures AppliedTo(ly, w, w.cplx[id], i) {
      if i != o {
        AppliedToStays(ly, v, w, v.cplx[id], i);
      }
    }
  }

  lemma EdgesDone(ly: Layout, v0: FState, v: FState, n: nat, k: Kind, id: nat, d: set<nat>)
    requires EdgePart(ly, v0, v, n, k, id, d, {})
    ensures Grows(v0, v) && id < |v.cplx| && Applied(ly, v, v.cplx[id], d)
  {
    hide AppliedTo, Fits;
  }

  lemma StepsIs(ly: Layout, v: FState, w: FState, b: nat, open: set<nat>, n: nat, s: set<nat>, t: Task)
    requires Steps(ly, v, w, b, open, n, s, t)
    ensures w == v.(pts := w.pts, copies := w.copies) && |w.pts| == |v.pts| && Grows(v, w)
    ensures b < |v.pts| && Solving(ly, w, open + {b}, n, s, t) && (w.pts[b] == v.pts[b] ==> Solving(ly, w, open, n, s, t))
  {
  }

  lemma DestInRange(ly: Layout, v: FState, k: Kind, n: nat, id: nat)
    requires WellFormed(ly, v) && n < |v.root| && id in List(v, k)[n]
    ensures id < |v.cplx| && Rep(v, v.cplx[id].dest) < |ly.sz|
  {
    assert ListedOk(ly, v, k, n, id);
  }

  lemma Pushed(curr: map<nat, nat>, next: map<nat, nat>, vt: seq<nat>, n: nat)
    requires n < |vt|
    ensures OpenIn(curr, next[n := vt[n]], vt) == OpenIn(curr, next, vt) + {n}
  {
  }

  // ----- One list of constraints, partly done -----

  ghost predicate Twin(v: FState, n: nat, k: Kind, c: FieldConstraint, todo: set<nat>)
    requires n < |List(v, k)|
  {
    exists i :: i in List(v, k)[n] && i !in todo && i < |v.cplx| && v.cplx[i] == c
  }

  /** Of list k of n, all but todo were applied to d, and those in seen are among them. */
  ghost predicate Partly(ly: Layout, v: FState, n: nat, k: Kind, d: set<nat>, done: set<Kind>, todo: set<nat>, seen: set<FieldConstraint>) {
    && n < |v.pts| && d <= v.pts[n] && n < |List(v, k)| && todo <= List(v, k)[n]
    && (forall j | j in done :: DoneFor(ly, v, j, n, d))
    && (forall i | i in List(v, k)[n] && i !in todo :: i < |v.cplx| && Handled(ly, v, n, v.cplx[i], d))
    && (forall c | c in seen :: Twin(v, n, k, c, todo) || ByHcd(ly, v, c))
  }

  ghost predicate Begun(ly: Layout, v: FState, n: nat, k: Kind, d: set<nat>, done: set<Kind>) {
    && n < |v.pts| && d <= v.pts[n] && n < |List(v, k)|
    && (forall j | j in done :: DoneFor(ly, v, j, n, d))
  }

  /** hcdRep is what hcd maps n to, or 0. */
  ghost predicate Target(v: FState, n: nat, hcdRep: nat) {
    if n in v.hcd then hcdRep != 0 && Rep(v, v.hcd[n]) == hcdRep && n < |v.pts| && v.pts[n] != {} else hcdRep == 0
  }

  lemma TargetStays(v: FState, w: FState, n: nat, hcdRep: nat)
    requires Target(v, n, hcdRep) && Evolves(v, w)
    ensures Target(w, n, hcdRep)
  {
  }

  /** Constraint id is a load or store through n without an offset. */
  ghost predicate OneEdge(v: FState, n: nat, k: Kind, id: nat, hcdRep: nat) {
    hcdRep != 0 && k != KGep && n < |List(v, k)| && id in List(v, k)[n] && id < |v.cplx| && v.cplx[id].off == 0
  }

  /** A constraint that is not to be done by one edge is not plain, if n is mapped. */
  lemma NotByEdge(ly: Layout, v: FState, k: Kind, n: nat, id: nat, hcdRep: nat)
    requires WellFormed(ly, v) && n < |List(v, k)| && id in List(v, k)[n] && Target(v, n, hcdRep)
    requires id < |v.cplx| && !(hcdRep != 0 && k != KGep && v.cplx[id].off == 0)
    ensures n in v.hcd ==> !Plain(v.cplx[id])
  {
    assert ListedOk(ly, v, k, n, id);
    hide DataOk, ListsOk, LayoutOk;
  }

  ghost predicate SpareIn(ly: Layout, v: FState, k: Kind, n: nat, id: nat) {
    n < |List(v, k)| && Spare(ly, v, k, n, id)
  }

  function HcdFrom(v: FState, k: Kind, c: FieldConstraint, h: nat): nat {
    if k == KLoad then h else Rep(v, c.src)
  }

  function HcdTo(v: FState, k: Kind, c: FieldConstraint, h: nat): nat {
    if k == KLoad then Rep(v, c.dest) else h
  }

  /** The edge that stands for all pointees of a listed load or store, from or to what n is mapped to. */
  lemma HcdEnds(ly: Layout, v: FState, k: Kind, n: nat, id: nat, h: nat)
    requires WellFormed(ly, v) && n < |v.root| && OneEdge(v, n, k, id, h) && Target(v, n, h)
    ensures var c := v.cplx[id]; var a, b := HcdFrom(v, k, c, h), HcdTo(v, k, c, h);
      && a in Live(v) && b in Live(v) && a != 0 && Plain(c) && IsKind(k, c) && Rep(v, Pointer(c)) == n && Rep(v, n) == n
      && (Tracked(ly, a, b) ==> Tracked(ly, v.hcd[n], if k == KLoad then c.dest else c.src))
  {
    var c := v.cplx[id];
    assert ListedOk(ly, v, k, n, id);
    assert v.hcd[n] < |v.root|;
    hide DataOk, ListsOk, LayoutOk;
  }

  /** A tame points-to graph has the edge, because the constraint is one of those that were given. */
  lemma HcdEdgeIsSound(ly: Layout, v: FState, t: Task, q: PtsGraph, k: Kind, n: nat, id: nat, h: nat)
    requires WellFormed(ly, v) && SoundFor(ly, v, t) && Tame(ly, t, q, v.root) && n < |v.root| && OneEdge(v, n, k, id, h) && Target(v, n, h)
    ensures Sound(v, q)
    ensures var c := v.cplx[id]; var a, b := HcdFrom(v, k, c, h), HcdTo(v, k, c, h);
      Tracked(ly, a, b) ==> At(q, a) <= At(q, b)
  {
    hide SoundFor, Tame, WellFormed, Sound, Live;
    var c := v.cplx[id];
    HcdEnds(ly, v, k, n, id, h);
    SoundIn(ly, v, t, q);
    var d := StemOf(ly, v, t, k, n, id);
    var m := GivenBy(ly, v, t, n);
    assert At(q, n) != {} by {
      SoundPts(v, q, n);
    }
    hide Target, OneEdge, ListedOk;
    SameEnds(ly, v, q, c, d);
    assert Plain(d) && Rep(v, Pointer(d)) == n == Rep(v, m) && At(q, Pointer(d)) == At(q, n);
    TameEdge(ly, t, q, v.root, m, d);
    SoundAtRep(ly, v, q, v.hcd[n]);
    hide Sizes, At, TaskOk, IsKind;
  }

  lemma SameEnds(ly: Layout, v: FState, q: PtsGraph, c: FieldConstraint, d: FieldConstraint)
    requires Sizes(ly, v) && Sound(v, q) && SameCons(v, c, d) && c.dest < |v.root| && c.src < |v.root| && d.dest < |v.root| && d.src < |v.root|
    ensures At(q, d.dest) == At(q, Rep(v, c.dest)) && At(q, d.src) == At(q, Rep(v, c.src)) && At(q, Pointer(d)) == At(q, Rep(v, Pointer(c)))
    ensures (d.dest == ly.i2p <==> c.dest == ly.i2p) && (d.src == ly.i2p <==> c.src == ly.i2p)
  {
    SoundAtRep(ly, v, q, d.dest);
    SoundAtRep(ly, v, q, d.src);
    IsI2p(ly, v, c.dest, d.dest);
    IsI2p(ly, v, c.src, d.src);
    hide Sizes, Sound, At;
  }

  lemma HcdStep(ly: Layout, v: FState, open: set<nat>, n: nat, s: set<nat>, t: Task, k: Kind, id: nat, h: nat)
    requires Solving(ly, v, open, n, s, t) && OneEdge(v, n, k, id, h) && Target(v, n, h)
    ensures var a, b := HcdFrom(v, k, v.cplx[id], h), HcdTo(v, k, v.cplx[id], h);
      && a < |v.pts| && a < |v.copies| && b < |v.pts| && |v.pts| == |v.copies| == |v.root| == |ly.sz|
      && Steps(ly, v, AddEdge(ly, v, a, b), b, open, n, s, t) && ByHcd(ly, AddEdge(ly, v, a, b), v.cplx[id])
  {
    hide NodeInv, WellFormed, AddEdge, CoversAll, Sound, SoundFor, Tame, At, Target, HasEdge, NewEdgesOk, Steps, Grows;
    SolvingSizes(ly, v, open, n, s, t);
    HcdEnds(ly, v, k, n, id, h);
    var a, b := HcdFrom(v, k, v.cplx[id], h), HcdTo(v, k, v.cplx[id], h);
    LiveRange(v, a);
    LiveRange(v, b);
    hide Live, HcdFrom, HcdTo, OneEdge;
    AddEdgeFacts(ly, v, a, b);
    forall q: PtsGraph | Tame(ly, t, q, v.root) ensures Sound(AddEdge(ly, v, a, b), q) {
      HcdEdgeIsSound(ly, v, t, q, k, n, id, h);
      AddEdgeSound(ly, v, a, b, q);
    }
    StepSteps(ly, v, AddEdge(ly, v, a, b), b, open, n, s, t);
    EdgeIsByHcd(ly, v, AddEdge(ly, v, a, b), k, n, id, h);
  }

  lemma LiveRange(v: FState, n: nat)
    requires n in Live(v)
    ensures n < |v.root|
  {
  }

  lemma EdgeIsByHcd(ly: Layout, v: FState, w: FState, k: Kind, n: nat, id: nat, h: nat)
    requires WellFormed(ly, v) && n < |v.root| && OneEdge(v, n, k, id, h) && Target(v, n, h) && Grows(v, w)
    requires HasEdge(ly, w, HcdFrom(v, k, v.cplx[id], h), HcdTo(v, k, v.cplx[id], h))
    ensures ByHcd(ly, w, v.cplx[id])
  {
    hide WellFormed, HasEdge;
    HcdEnds(ly, v, k, n, id, h);
    GrowsRoot(v, w);
    hide Grows, Live;
  }

  lemma InCplx(ly: Layout, v: FState, k: Kind, n: nat, id: nat)
    requires WellFormed(ly, v) && n < |v.root| && n < |List(v, k)| && (id in List(v, k)[n])
    ensures id < |v.cplx| && v.cplx[id].dest < |v.root| && v.cplx[id].src < |v.root|
  {
    assert ListedOk(ly, v, k, n, id);
  }

  lemma UpdateSolving(ly: Layout, v: FState, open: set<nat>, n: nat, s: set<nat>, t: Task, k: Kind, id: nat)
    requires Solving(ly, v, open, n, s, t) && n < |List(v, k)| && id in List(v, k)[n]
    ensures id < |v.cplx| && WellFormed(ly, v) && Alike(ly, v, Update(v, id)) && Solving(ly, Update(v, id), open, n, s, t)
  {
    SolvingSizes(ly, v, open, n, s, t);
    InCplx(ly, v, k, n, id);
    UpdateAlike(ly, v, id);
    hide NodeInv, CoversAll, SoundFor, Alike, Update;
    AlikeKeeps(ly, v, Update(v, id), open, n, s);
    AlikeCovers(ly, v, Update(v, id), t.cs);
    AlikeSoundFor(ly, v, Update(v, id), t);
  }

  lemma UpdatePartly(ly: Layout, v: FState, n: nat, k: Kind, id: nat, d: set<nat>, done: set<Kind>, todo: set<nat>, seen: set<FieldConstraint>)
    requires Partly(ly, v, n, k, d, done, todo, seen) && id in todo && id < |v.cplx| && Sizes(ly, v) && Alike(ly, v, Update(v, id))
    ensures Partly(ly, Update(v, id), n, k, d, done, todo, seen)
  {
    var w := Update(v, id);
    assert w.root == v.root && w.pts == v.pts && w.copies == v.copies && List(w, k) == List(v, k);
    hide Alike, Sizes, DoneFor, Applied;
    forall j | j in done ensures DoneFor(ly, w, j, n, d) {
      AlikeDone(ly, v, w, j, n, d);
    }
    forall i | i in List(w, k)[n] && i !in todo ensures i < |w.cplx| && Handled(ly, w, n, w.cplx[i], d) {
      SameApplied(ly, v, w, v.cplx[i], d);
    }
    hide ByHcd;
    forall c | c in seen ensures Twin(w, n, k, c, todo) || ByHcd(ly, w, c) {
      if ByHcd(ly, v, c) {
        ByHcdStays(ly, v, w, c);
      } else {
        var i :| i in List(v, k)[n] && i !in todo && i < |v.cplx| && v.cplx[i] == c;
        assert w.cplx[i] == c;
      }
    }
  }

  lemma UpdateStep(ly: Layout, v: FState, open: set<nat>, n: nat, s: set<nat>, t: Task,
                   k: Kind, id: nat, d: set<nat>, done: set<Kind>, todo: set<nat>, seen: set<FieldConstraint>)
    requires Solving(ly, v, open, n, s, t) && Partly(ly, v, n, k, d, done, todo, seen) && id in todo
    ensures id < |v.cplx| && Solving(ly, Update(v, id), open, n, s, t)
    ensures Partly(ly, Update(v, id), n, k, d, done, todo, seen)
  {
    assert n < |List(v, k)| && id in List(v, k)[n];
    hide Solving, Partly, Alike, Update, DataOk, ListsOk;
    UpdateSolving(ly, v, open, n, s, t, k, id);
    UpdatePartly(ly, v, n, k, id, d, done, todo, seen);
  }

  lemma UpdateEvolves(v: FState, id: nat)
    requires id < |v.cplx|
    ensures Evolves(v, Update(v, id))
  {
  }

  lemma DropSolving(ly: Layout, v: FState, open: set<nat>, n: nat, s: set<nat>, t: Task, k: Kind, id: nat)
    requires Solving(ly, v, open, n, s, t) && SpareIn(ly, v, k, n, id)
    ensures Solving(ly, Drop(v, k, n, id), open, n, s, t)
  {
    SolvingSizes(ly, v, open, n, s, t);
    hide NodeInv, CoversAll, SoundFor, Drop, List, WellFormed, Spare;
    DropKeeps(ly, v, k, n, id, open, s);
    DropCovers(ly, v, k, n, id, t.cs);
    DropSoundFor(ly, v, k, n, id, t);
  }

  lemma DropPartly(ly: Layout, v: FState, n: nat, k: Kind, id: nat, d: set<nat>, done: set<Kind>, todo: set<nat>, seen: set<FieldConstraint>)
    requires Partly(ly, v, n, k, d, done, todo, seen) && id in todo
    ensures Partly(ly, Drop(v, k, n, id), n, k, d, done, todo - {id}, seen)
  {
    var w := Drop(v, k, n, id);
    DropLists(v, k, n, id);
    hide Drop, List, DoneFor, Applied, ByHcd;
    forall j | j in done ensures DoneFor(ly, w, j, n, d) {
      DropDone(ly, v, k, n, id, j, d);
    }
    forall i | i in List(w, k)[n] && i !in todo - {id} ensures i < |w.cplx| && Handled(ly, w, n, w.cplx[i], d) {
      SameApplied(ly, v, w, v.cplx[i], d);
    }
    forall c | c in seen ensures Twin(w, n, k, c, todo - {id}) || ByHcd(ly, w, c) {
      if ByHcd(ly, v, c) {
        DropByHcd(ly, v, k, n, id, c);
      } else {
        assert Twin(v, n, k, c, todo);
      }
    }
  }

  /** What was seen has a twin that is listed still, or an edge that does for it. */
  lemma SeenIsSpare(ly: Layout, v: FState, n: nat, k: Kind, id: nat, d: set<nat>, done: set<Kind>, todo: set<nat>, seen: set<FieldConstraint>)
    requires Partly(ly, v, n, k, d, done, todo, seen) && id in todo && id < |v.cplx| && v.cplx[id] in seen
    ensures SpareIn(ly, v, k, n, id)
  {
    hide DoneFor, Applied, ByHcd;
    if !ByHcd(ly, v, v.cplx[id]) {
      assert Twin(v, n, k, v.cplx[id], todo);
      var twin :| twin in List(v, k)[n] && twin !in todo && twin < |v.cplx| && v.cplx[twin] == v.cplx[id];
    }
  }

  lemma EdgeIsSpare(ly: Layout, v: FState, n: nat, k: Kind, id: nat, d: set<nat>, done: set<Kind>, todo: set<nat>, seen: set<FieldConstraint>)
    requires Partly(ly, v, n, k, d, done, todo, seen) && id in todo && id < |v.cplx| && ByHcd(ly, v, v.cplx[id])
    ensures SpareIn(ly, v, k, n, id)
  {
  }

  lemma DropKeepsByHcd(ly: Layout, v: FState, k: Kind, n: nat, id: nat)
    requires SpareIn(ly, v, k, n, id)
    ensures n < |List(v, k)| && id < |v.cplx| == |Drop(v, k, n, id).cplx| && Drop(v, k, n, id).cplx == v.cplx
    ensures ByHcd(ly, v, v.cplx[id]) ==> ByHcd(ly, Drop(v, k, n, id), v.cplx[id])
  {
    DropLists(v, k, n, id);
    hide Drop, ByHcd;
    if ByHcd(ly, v, v.cplx[id]) {
      DropByHcd(ly, v, k, n, id, v.cplx[id]);
    }
  }

  lemma PartlyByHcd(ly: Layout, v: FState, n: nat, k: Kind, c: FieldConstraint, d: set<nat>, done: set<Kind>, todo: set<nat>, seen: set<FieldConstraint>)
    requires Partly(ly, v, n, k, d, done, todo, seen) && ByHcd(ly, v, c)
    ensures Partly(ly, v, n, k, d, done, todo, seen + {c})
  {
    hide Handled, DoneFor, ByHcd, Twin;
  }

  lemma DropStep(ly: Layout, v: FState, open: set<nat>, n: nat, s: set<nat>, t: Task,
                 k: Kind, id: nat, d: set<nat>, done: set<Kind>, todo: set<nat>, seen: set<FieldConstraint>)
    requires Solving(ly, v, open, n, s, t) && Partly(ly, v, n, k, d, done, todo, seen) && id in todo && SpareIn(ly, v, k, n, id)
    ensures n < |List(v, k)| && Solving(ly, Drop(v, k, n, id), open, n, s, t)
    ensures Partly(ly, Drop(v, k, n, id), n, k, d, done, todo - {id}, seen)
  {
    hide Solving, Partly, Drop, List, Spare;
    DropSolving(ly, v, open, n, s, t, k, id);
    DropPartly(ly, v, n, k, id, d, done, todo, seen);
  }

  lemma DropEvolves(v: FState, k: Kind, n: nat, id: nat)
    requires n < |List(v, k)|
    ensures Evolves(v, Drop(v, k, n, id))
  {
  }

  lemma PartlyListed(ly: Layout, v: FState, n: nat, k: Kind, id: nat, c: FieldConstraint, d: set<nat>, done: set<Kind>, todo: set<nat>, seen: set<FieldConstraint>)
    requires Partly(ly, v, n, k, d, done, todo, seen) && id in todo && id < |v.cplx| && v.cplx[id] == c
    ensures InList(v, n, k, id, d) && n < |List(v, k)|
  {
  }

  lemma PartlyGrows(ly: Layout, v: FState, w: FState, n: nat, k: Kind, d: set<nat>, done: set<Kind>, todo: set<nat>, seen: set<FieldConstraint>)
    requires Partly(ly, v, n, k, d, done, todo, seen) && Grows(v, w)
    ensures Partly(ly, w, n, k, d, done, todo, seen)
  {
    assert List(w, k) == List(v, k) && w.cplx == v.cplx && v.pts[n] <= w.pts[n];
    forall j | j in done ensures DoneFor(ly, w, j, n, d) {
      GrowsDone(ly, v, w, j, n, d);
    }
    forall i | i in List(w, k)[n] && i !in todo ensures i < |w.cplx| && Handled(ly, w, n, w.cplx[i], d) {
      GrowsApplied(ly, v, w, v.cplx[i], d);
    }
    assert w.root == v.root && w.hcd == v.hcd && |w.copies| == |v.copies| && forall m | 0 <= m < |v.copies| :: v.copies[m] <= w.copies[m];
    hide Handled, DoneFor, Grows, ByHcd;
    forall c | c in seen ensures Twin(w, n, k, c, todo) || ByHcd(ly, w, c) {
      if ByHcd(ly, v, c) {
        ByHcdStays(ly, v, w, c);
      } else {
        assert Twin(v, n, k, c, todo);
      }
    }
  }

  lemma PartlySolved(ly: Layout, v: FState, n: nat, k: Kind, id: nat, c: FieldConstraint, d: set<nat>, done: set<Kind>, todo: set<nat>, seen: set<FieldConstraint>)
    requires Partly(ly, v, n, k, d, done, todo, seen) && id in todo && id < |v.cplx| && v.cplx[id] == c && Handled(ly, v, n, c, d)
    ensures Partly(ly, v, n, k, d, done, todo - {id}, seen + {c})
  {
    hide Handled, DoneFor, ByHcd;
    forall b | b in seen + {c} ensures Twin(v, n, k, b, todo - {id}) || ByHcd(ly, v, b) {
      if b in seen && !ByHcd(ly, v, b) {
        assert Twin(v, n, k, b, todo);
      }
    }
  }

  lemma GrowsEvolves(v: FState, w: FState)
    requires Grows(v, w)
    ensures Evolves(v, w) && w.cplx == v.cplx
  {
  }

  lemma PartlyAll(ly: Layout, v: FState, n: nat, k: Kind, d: set<nat>, done: set<Kind>, seen: set<FieldConstraint>)
    requires Partly(ly, v, n, k, d, done, {}, seen)
    ensures forall j | j in done + {k} :: DoneFor(ly, v, j, n, d)
    ensures n < |v.pts| && d <= v.pts[n]
  {
  }

  // ----- A visit to a node -----

  /** What holds between visits. */
  ghost predicate Between(ly: Layout, v: FState, open: set<nat>, t: Task) {
    LoopInv(ly, v, open) && CoversAll(ly, v, t.cs) && SoundFor(ly, v, t)
  }

  /** Fewer facts and edges are missing, or none fewer but fewer are to be propagated. */
  ghost predicate Progress(v: FState, w: FState) {
    Missing(w) < Missing(v) || (Missing(w) == Missing(v) && Unpropagated(w) < Unpropagated(v))
  }

  ghost predicate OnEdge(v: FState, n: nat, e: nat, d: set<nat>) {
    n < |v.copies| && n < |v.pts| && e in v.copies[n] && d <= v.pts[n]
  }

  /** For the first time n and the target of its edge have one points-to set, not empty. */
  ghost predicate MayBeCycle(v: FState, n: nat, dest: nat, checked: set<(nat, nat)>) {
    (n, dest) !in checked && n < |v.pts| && dest < |v.pts| && v.pts[n] != {} && v.pts[n] == v.pts[dest]
  }

  ghost predicate CopiedTo(v: FState, e: nat, d: set<nat>) {
    Rep(v, e) < |v.pts| && d <= v.pts[Rep(v, e)]
  }

  /** All edges of n but todo were followed; seen are the representatives they lead to. */
  ghost predicate PropLoop(v0: FState, v: FState, n: nat, todo: set<nat>, seen: set<nat>, d: set<nat>) {
    && Grows(v0, v) && v.copies == v0.copies && n < |v.copies| && n < |v.pts| && d <= v.pts[n] && todo <= v.copies[n]
    && (forall x | x in seen :: x < |v.pts| && d <= v.pts[x])
    && (forall e | e in v.copies[n] && e !in todo :: CopiedTo(v, e, d))
  }

  lemma PropEdge(ly: Layout, v0: FState, v: FState, n: nat, e: nat, dest: nat, todo: set<nat>, seen: set<nat>, d: set<nat>)
    requires PropLoop(v0, v, n, todo, seen, d) && e in todo && dest == Find(v.root, e)
    ensures OnEdge(v, n, e, d) && dest == Rep(v, e)
    ensures dest == n || dest in seen ==> PropLoop(v0, v, n, todo - {e}, seen, d)
  {
  }

  lemma PropNext(v0: FState, v: FState, w: FState, n: nat, e: nat, todo: set<nat>, seen: set<nat>, d: set<nat>)
    requires PropLoop(v0, v, n, todo, seen, d) && e in todo && Grows(v, w) && w.copies == v.copies && CopiedTo(w, e, d)
    ensures PropLoop(v0, w, n, todo - {e}, seen + {Rep(v, e)}, d)
  {
    GrowsTrans(v0, v, w);
    forall x | x in w.copies[n] && x !in todo - {e} ensures CopiedTo(w, x, d) {
      assert x == e || CopiedTo(v, x, d);
    }
  }

  lemma PropAll(v0: FState, v: FState, n: nat, seen: set<nat>, d: set<nat>)
    requires PropLoop(v0, v, n, {}, seen, d)
    ensures Grows(v0, v) && n < |v.copies| && Copied(v, n, d)
  {
    forall e | e in v.copies[n] ensures CopiedTo(v, e, d) {
    }
  }

  lemma BetweenSizes(ly: Layout, v: FState, open: set<nat>, t: Task)
    requires Between(ly, v, open, t)
    ensures WellFormed(ly, v) && |v.root| == |v.pts| == |v.prev| == |v.copies| == |v.loads| == |v.stores| == |v.geps| == |ly.sz| > 0
  {
  }

  lemma Visited(curr: map<nat, nat>, next: map<nat, nat>, vt: seq<nat>, n: nat, t: nat)
    requires n < |vt|
    ensures OpenIn(curr, next, vt) + {n} <= OpenIn(curr, next, vt[n := t]) + {n}
  {
  }

  lemma BetweenOpen(ly: Layout, v: FState, open: set<nat>, open2: set<nat>, t: Task)
    requires Between(ly, v, open, t) && forall m | m in Live(v) && m in open :: m in open2
    ensures Between(ly, v, open2, t)
  {
    OpenLive(ly, v, open, open2);
  }

  lemma IdleNode(ly: Layout, v: FState, open: set<nat>, n: nat, t: Task)
    requires Between(ly, v, open + {n}, t) && n in Live(v) && n < |v.pts| && n < |v.prev| && v.pts[n] - v.prev[n] == {}
    ensures Between(ly, v, open, t)
  {
    assert v.prev[n] <= v.pts[n];
    assert forall o | o in v.pts[n] :: o in v.prev[n] || o in v.pts[n] - v.prev[n];
    assert v.prev[n] == v.pts[n];
    hide ClosedFor, WellFormed, SoundFor, CoversAll;
  }

  lemma StartNode(ly: Layout, v: FState, u: FState, open: set<nat>, n: nat, t: Task)
    requires Between(ly, v, open + {n}, t) && n in Live(v) && n < |v.pts| && n < |v.prev|
    requires u == v.(prev := v.prev[n := v.pts[n]])
    ensures Solving(ly, u, open, n, v.prev[n], t) && Begun(ly, u, n, KLoad, v.pts[n] - v.prev[n], {})
  {
    assert v.prev[n] <= v.pts[n] && |v.prev| == |v.pts| == |v.root| && |List(u, KLoad)| == |v.root|;
    hide SoundFor, Covers, DataOk;
    assert forall i | 0 <= i < |u.prev| :: u.prev[i] <= v.pts[i] by {
      PrevsBelow(ly, v);
    }
    PrevChange(ly, v, u, t);
    hide ListsOk;
    forall m | m in Live(u) ensures ClosedFor(ly, u, m, v.prev[m]) && (m !in open + {n} ==> ClosedFor(ly, u, m, u.pts[m])) {
      PrevClosed(ly, v, u, m, v.prev[m]);
      if m !in open + {n} {
        PrevClosed(ly, v, u, m, v.pts[m]);
      }
    }
    hide ClosedFor, Applied;
  }

  lemma PrevsBelow(ly: Layout, v: FState)
    requires WellFormed(ly, v)
    ensures |v.prev| == |v.pts| && forall i | 0 <= i < |v.prev| :: v.prev[i] <= v.pts[i]
  {
  }

  lemma PrevWellFormed(ly: Layout, v: FState, u: FState)
    requires WellFormed(ly, v) && u == v.(prev := u.prev) && |u.prev| == |v.prev| && forall n | 0 <= n < |u.prev| :: u.prev[n] <= v.pts[n]
    ensures WellFormed(ly, u)
  {
    forall k, n, id | 0 <= n < |List(u, k)| && id in List(u, k)[n] ensures ListedOk(ly, u, k, n, id) {
      assert ListedOk(ly, v, k, n, id);
    }
  }

  /** What was propagated matters to nothing but the closedness it is compared with. */
  lemma PrevChange(ly: Layout, v: FState, u: FState, t: Task)
    requires WellFormed(ly, v) && u == v.(prev := u.prev) && |u.prev| == |v.prev| && forall n | 0 <= n < |u.prev| :: u.prev[n] <= v.pts[n]
    requires CoversAll(ly, v, t.cs) && SoundFor(ly, v, t)
    ensures WellFormed(ly, u) && CoversAll(ly, u, t.cs) && SoundFor(ly, u, t)
  {
    PrevWellFormed(ly, v, u);
    PrevCovers(ly, v, u, t.cs);
    hide WellFormed, TaskOk, MapsOn, MapsBack, Tame, Steady;
    forall k, n, id | 0 <= n < |List(u, k)| && id in List(u, k)[n] && id < |u.cplx| ensures Stems(u, u.cplx[id], t.cs) {
      assert id in List(v, k)[n];
      assert Stems(v, v.cplx[id], t.cs);
    }
    StepSoundFor(ly, v, u, t);
  }

  lemma PrevStated(ly: Layout, v: FState, u: FState, c: FieldConstraint)
    requires Sizes(ly, v) && Sizes(ly, u) && u == v.(prev := u.prev) && c.dest < |v.root| && c.src < |v.root| && Stated(ly, v, c)
    ensures Stated(ly, u, c)
  {
    if !c.ty.Copy? && !c.ty.AddrOf? {
      var id :| id in List(v, KindOf(c))[v.root[Pointer(c)]] && id < |v.cplx| && SameCons(v, v.cplx[id], c);
      assert id in List(u, KindOf(c))[u.root[Pointer(c)]] && SameCons(u, u.cplx[id], c);
    }
  }

  lemma PrevCovers(ly: Layout, v: FState, u: FState, cs: seq<FieldConstraint>)
    requires Sizes(ly, v) && Sizes(ly, u) && u == v.(prev := u.prev) && CoversAll(ly, v, cs)
    ensures CoversAll(ly, u, cs)
  {
    hide Stated, ByHcd;
    forall c | c in cs ensures c.dest < |u.root| && c.src < |u.root| && Covers(ly, u, c) {
      if Stated(ly, v, c) {
        PrevStated(ly, v, u, c);
      } else {
        assert Covers(ly, v, c);
        ByHcdStays(ly, v, u, c);
      }
    }
  }

  lemma PrevClosed(ly: Layout, v: FState, u: FState, m: nat, s: set<nat>)
    requires WellFormed(ly, v) && WellFormed(ly, u) && u == v.(prev := u.prev) && m < |v.root| && ClosedFor(ly, v, m, s)
    ensures ClosedFor(ly, u, m, s)
  {
    CollapsedStays(ly, v, u, m, s);
    hide Collapsed;
    forall k, id | id in List(u, k)[m] ensures ListedOk(ly, u, k, m, id) && Applied(ly, u, u.cplx[id], s) {
      assert id in List(v, k)[m] && ListedOk(ly, v, k, m, id) && Applied(ly, v, v.cplx[id], s);
      SameApplied(ly, v, u, v.cplx[id], s);
    }
    hide Applied;
  }

  lemma BegunNext(ly: Layout, v: FState, n: nat, k: Kind, d: set<nat>, done: set<Kind>, open: set<nat>, s: set<nat>, t: Task)
    requires Solving(ly, v, open, n, s, t) && (forall j | j in done :: DoneFor(ly, v, j, n, d)) && n < |v.pts| && d <= v.pts[n]
    ensures Begun(ly, v, n, k, d, done)
  {
    SolvingSizes(ly, v, open, n, s, t);
  }

  // ----- The worklist -----

  lemma HasLeast(m: map<nat, nat>, some: nat)
    requires some in m
    ensures exists n :: n in m && forall k | k in m :: m[n] <= m[k]
    decreases m[some]
  {
    if n :| n in m && m[n] < m[some] {
      HasLeast(m, n);
    }
  }

  lemma SwapOpen(next: map<nat, nat>, vt: seq<nat>)
    ensures OpenIn(next, map[], vt) == OpenIn(map[], next, vt)
  {
  }

  lemma NothingWaits(curr: map<nat, nat>, next: map<nat, nat>, vt: seq<nat>)
    ensures curr == next == map[] ==> OpenIn(curr, next, vt) == {}
  {
  }

  lemma Popped(curr: map<nat, nat>, next: map<nat, nat>, vt: seq<nat>, n: nat)
    requires n in curr && n < |vt|
    ensures OpenIn(curr, next, vt) <= OpenIn(curr - {n}, next, vt) + {n}
    ensures curr[n] < vt[n] ==> OpenIn(curr, next, vt) <= OpenIn(curr - {n}, next, vt)
    ensures |curr - {n}| + 1 == |curr|
  {
    assert curr == (curr - {n})[n := curr[n]];
  }

  /** A node that is visited sooner waits still. */
  lemma SoonerWaits(curr: map<nat, nat>, next: map<nat, nat>, vt: seq<nat>, vt2: seq<nat>, a: nat)
    requires |vt2| == |vt| && forall m | 0 <= m < |vt| :: vt2[m] <= vt[m]
    ensures OpenIn(curr, next, vt) <= OpenIn(curr, next, vt2)
  {
  }

  lemma EnteredRange(ly: Layout, v: FState, t: Task)
    requires EnteredTo(ly, v, t, |t.cs|)
    ensures |v.pts| == |v.copies| == |v.loads| == |v.stores| == |v.geps| == |v.root| == |ly.sz|
    ensures forall n | n in Live(v) :: n < |v.root|
  {
  }

  lemma AllBetween(ly: Layout, v: FState, t: Task, open: set<nat>)
    requires EnteredTo(ly, v, t, |t.cs|) && forall n | n in Live(v) && n !in open :: Idle(v, n)
    ensures Between(ly, v, open, t)
  {
    hide EnteredTo, Idle, LoopInv, CoversAll, SoundFor, Live;
    AllEntered(ly, v, t, open);
  }
}
