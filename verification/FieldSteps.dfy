/** The steps of the field-sensitive solver on values: what each keeps, adds and leaves alone. */
module FieldSteps {
  import opened Constraints
  import opened FieldConstraints
  import opened FieldStates
  import opened FieldTasks

  /** w has more points-to facts and copy edges. */
  ghost predicate Grows(v: FState, w: FState) {
    && w == v.(pts := w.pts, copies := w.copies) && |w.pts| == |v.pts| && |w.copies| == |v.copies|
    && (forall n | 0 <= n < |v.pts| :: v.pts[n] <= w.pts[n])
    && (forall n | 0 <= n < |v.copies| :: v.copies[n] <= w.copies[n])
  }

  lemma GrowsTrans(u: FState, v: FState, w: FState)
    requires Grows(u, v) && Grows(v, w)
    ensures Grows(u, w)
  {
  }

  lemma GrowsApplied(ly: Layout, v: FState, w: FState, c: FieldConstraint, s: set<nat>)
    requires Grows(v, w) && Applied(ly, v, c, s)
    ensures Applied(ly, w, c, s)
  {
    forall o | o in s && Fits(ly, o, c.off) ensures AppliedTo(ly, w, c, o) {
      assert AppliedTo(ly, v, c, o);
    }
  }

  /** Along new edges everything was copied. */
  ghost predicate NewEdgesOk(v: FState, w: FState)
    requires Grows(v, w)
  {
    forall m, e | 0 <= m < |v.copies| && m < |v.pts| && e in w.copies[m] && e !in v.copies[m] ::
      Rep(w, e) < |w.pts| && v.pts[m] <= w.pts[Rep(w, e)]
  }

  /** With no more constraints on n, and as many plain ones, n is as collapsed as it was. */
  lemma CollapsedStays(ly: Layout, v: FState, w: FState, n: nat, s: set<nat>)
    requires w.root == v.root && w.hcd == v.hcd && |w.cplx| == |v.cplx| && Collapsed(ly, v, n, s)
    requires forall k, id | n < |List(w, k)| && id in List(w, k)[n] :: n < |List(v, k)| && id in List(v, k)[n]
    requires forall id | 0 <= id < |v.cplx| && Plain(w.cplx[id]) :: Plain(v.cplx[id])
    ensures Collapsed(ly, w, n, s)
  {
    hide Plain;
  }

  lemma GrowsClosed(ly: Layout, v: FState, w: FState, m: nat, s: set<nat>)
    requires WellFormed(ly, v) && WellFormed(ly, w) && Grows(v, w) && NewEdgesOk(v, w)
    requires m < |v.root| && s <= v.pts[m] && ClosedFor(ly, v, m, s)
    ensures ClosedFor(ly, w, m, s)
  {
    CollapsedStays(ly, v, w, m, s);
    hide Collapsed;
    forall e | e in w.copies[m] ensures Rep(w, e) < |w.pts| && s <= w.pts[Rep(w, e)] {
      if e in v.copies[m] {
        assert Rep(v, e) < |v.pts| && s <= v.pts[Rep(v, e)];
      }
    }
    forall k, id | id in List(w, k)[m] ensures ListedOk(ly, w, k, m, id) && Applied(ly, w, w.cplx[id], s) {
      assert id in List(v, k)[m] && ListedOk(ly, v, k, m, id) && Applied(ly, v, v.cplx[id], s);
      GrowsApplied(ly, v, w, v.cplx[id], s);
    }
  }

  /** A step that grows the state while n is being solved keeps the invariant, if the nodes whose
      points-to sets grew are open. */
  lemma StepKeeps(ly: Layout, v: FState, w: FState, open: set<nat>, open2: set<nat>, n: nat, s: set<nat>)
    requires NodeInv(ly, v, open, n, s) && WellFormed(ly, w) && Grows(v, w) && NewEdgesOk(v, w) && open <= open2
    requires forall m | m in Live(v) && m !in open2 :: w.pts[m] == v.pts[m]
    ensures NodeInv(ly, w, open2, n, s)
  {
    hide ClosedFor, DataOk, ListsOk, NewEdgesOk;
    assert Live(w) == Live(v);
    forall m | m in Live(w) && m != n ensures ClosedFor(ly, w, m, w.prev[m]) && (m !in open2 ==> ClosedFor(ly, w, m, w.pts[m])) {
      PrevBelow(ly, v, m);
      GrowsClosed(ly, v, w, m, v.prev[m]);
      if m !in open2 {
        GrowsClosed(ly, v, w, m, v.pts[m]);
      }
    }
    GrowsClosed(ly, v, w, n, s);
  }

  lemma PrevBelow(ly: Layout, v: FState, m: nat)
    requires WellFormed(ly, v) && m < |v.root|
    ensures v.prev[m] <= v.pts[m]
  {
  }

  // ----- Adding a copy edge -----

  /** add_copy_edge. */
  function AddEdge(ly: Layout, v: FState, a: nat, b: nat): FState
    requires a < |v.copies| && a < |v.pts| && b < |v.pts|
  {
    if !Tracked(ly, a, b) || a == b || b in v.copies[a] then v
    else v.(copies := v.copies[a := v.copies[a] + {b}], pts := v.pts[b := v.pts[b] + v.pts[a]])
  }

  lemma AddEdgeFacts(ly: Layout, v: FState, a: nat, b: nat)
    requires WellFormed(ly, v) && a in Live(v) && b in Live(v) && a != 0
    ensures var w := AddEdge(ly, v, a, b);
      WellFormed(ly, w) && Grows(v, w) && NewEdgesOk(v, w) && HasEdge(ly, w, a, b)
    ensures forall m | 0 <= m < |v.pts| && m != b :: AddEdge(ly, v, a, b).pts[m] == v.pts[m]
  {
    var w := AddEdge(ly, v, a, b);
    assert Rep(w, b) == b;
    forall k, n, id | 0 <= n < |List(w, k)| && id in List(w, k)[n] ensures ListedOk(ly, w, k, n, id) {
      assert ListedOk(ly, v, k, n, id);
    }
    hide ListsOk;
  }

  lemma AddEdgeSound(ly: Layout, v: FState, a: nat, b: nat, q: PtsGraph)
    requires WellFormed(ly, v) && a in Live(v) && b in Live(v) && Sound(v, q)
    requires Tracked(ly, a, b) ==> At(q, a) <= At(q, b)
    ensures Sound(AddEdge(ly, v, a, b), q)
  {
    hide Respects, At, ListsOk, LayoutOk;
  }

  /** A step that adds facts and edges need only be sound in every tame graph. */
  lemma GrowsSoundFor(ly: Layout, v: FState, w: FState, t: Task)
    requires SoundFor(ly, v, t) && Grows(v, w) && forall q: PtsGraph | Tame(ly, t, q, v.root) :: Sound(w, q)
    ensures SoundFor(ly, w, t)
  {
    hide TaskOk, MapsOn, MapsBack, Sound, Tame, Steady;
    forall k, n, id | 0 <= n < |List(w, k)| && id in List(w, k)[n] && id < |w.cplx| ensures Stems(w, w.cplx[id], t.cs) {
      assert id in List(v, k)[n];
      assert Stems(v, v.cplx[id], t.cs);
    }
    StepSoundFor(ly, v, w, t);
  }

  /** With no fewer edges the edge is there still. */
  lemma ByHcdStays(ly: Layout, v: FState, w: FState, c: FieldConstraint)
    requires w.root == v.root && w.hcd == v.hcd && |w.copies| == |v.copies|
    requires (forall n | 0 <= n < |v.copies| :: v.copies[n] <= w.copies[n]) && ByHcd(ly, v, c)
    ensures ByHcd(ly, w, c)
  {
  }

  lemma GrowsStated(ly: Layout, v: FState, w: FState, c: FieldConstraint)
    requires Sizes(ly, v) && Sizes(ly, w) && Grows(v, w) && c.dest < |v.root| && c.src < |v.root| && Stated(ly, v, c)
    ensures Stated(ly, w, c)
  {
    if c.ty.Copy? && v.root[c.src] != v.root[c.dest] {
      var e :| e in v.copies[v.root[c.src]] && Rep(v, e) == v.root[c.dest];
      assert e in w.copies[v.root[c.src]];
    } else if !c.ty.Copy? && !c.ty.AddrOf? {
      var id :| id in List(v, KindOf(c))[v.root[Pointer(c)]] && id < |v.cplx| && SameCons(v, v.cplx[id], c);
      assert id in List(w, KindOf(c))[w.root[Pointer(c)]] && SameCons(w, w.cplx[id], c);
    }
  }

  lemma GrowsCovers(ly: Layout, v: FState, w: FState, cs: seq<FieldConstraint>)
    requires Sizes(ly, v) && Grows(v, w) && CoversAll(ly, v, cs)
    ensures Sizes(ly, w) && CoversAll(ly, w, cs)
  {
    assert Sizes(ly, w);
    hide ByHcd, Stated;
    forall c | c in cs ensures c.dest < |w.root| && c.src < |w.root| && Covers(ly, w, c) {
      if Stated(ly, v, c) {
        GrowsStated(ly, v, w, c);
      } else {
        assert Covers(ly, v, c);
        ByHcdStays(ly, v, w, c);
      }
    }
  }

  /** The edge that a load or store constraint adds for a pointee is sound. */
  lemma EdgeIsSound(ly: Layout, v: FState, t: Task, q: PtsGraph, k: Kind, n: nat, id: nat, o: nat)
    requires WellFormed(ly, v) && SoundFor(ly, v, t) && Tame(ly, t, q, v.root) && n < |List(v, k)| && id in List(v, k)[n] && k != KGep
    requires n < |v.pts| && o in v.pts[n] && id < |v.cplx| && Fits(ly, o, v.cplx[id].off)
    ensures Sound(v, q)
    ensures o + v.cplx[id].off < |v.root| && v.cplx[id].dest < |v.root| && v.cplx[id].src < |v.root|
    ensures var c := v.cplx[id]; var f := Rep(v, o + c.off);
      && (k == KLoad ==> Tracked(ly, f, Rep(v, c.dest)) ==> At(q, f) <= At(q, Rep(v, c.dest)))
      && (k == KStore ==> Tracked(ly, Rep(v, c.src), f) ==> At(q, Rep(v, c.src)) <= At(q, f))
  {
    hide SoundFor, Tame, ListsOk, DataOk;
    ListedHolds(ly, v, t, q, k, n, id);
    SoundIn(ly, v, t, q);
    var c := v.cplx[id];
    assert IsObject(ly, o + c.off) && o in At(q, n) && At(q, n) == At(q, Pointer(c));
    assert Sizes(ly, v);
    hide WellFormed, Sound, At, LayoutOk;
    SoundAtRep(ly, v, q, o + c.off);
    SoundAtRep(ly, v, q, c.dest);
    SoundAtRep(ly, v, q, c.src);
    RepOfI2p(ly, v, o + c.off);
    RepOfI2p(ly, v, c.dest);
    RepOfI2p(ly, v, c.src);
    hide Sizes;
  }

  lemma SoundAtRep(ly: Layout, v: FState, q: PtsGraph, n: nat)
    requires Sizes(ly, v) && Sound(v, q) && n < |v.root|
    ensures At(q, n) == At(q, Rep(v, n))
  {
  }

  /** i2p is never merged. */
  lemma RepOfI2p(ly: Layout, v: FState, n: nat)
    requires Sizes(ly, v) && n < |v.root|
    ensures Rep(v, n) == ly.i2p <==> n == ly.i2p
  {
  }

  // ----- Growing one points-to set -----

  /** Node b also points to what is in s. */
  function AddPts(v: FState, b: nat, s: set<nat>): FState
    requires b < |v.pts|
  {
    v.(pts := v.pts[b := v.pts[b] + s])
  }

  lemma AddPtsFacts(ly: Layout, v: FState, b: nat, s: set<nat>)
    requires WellFormed(ly, v) && b in Live(v) && forall o | o in s :: IsObject(ly, o)
    ensures WellFormed(ly, AddPts(v, b, s)) && Grows(v, AddPts(v, b, s)) && NewEdgesOk(v, AddPts(v, b, s))
  {
    var w := AddPts(v, b, s);
    forall k, n, id | 0 <= n < |List(w, k)| && id in List(w, k)[n] ensures ListedOk(ly, w, k, n, id) {
      assert ListedOk(ly, v, k, n, id);
    }
    hide ListsOk;
  }

  lemma AddPtsSound(ly: Layout, v: FState, b: nat, s: set<nat>, q: PtsGraph)
    requires WellFormed(ly, v) && b in Live(v) && Sound(v, q) && s <= At(q, b)
    ensures Sound(AddPts(v, b, s), q)
  {
    hide Respects, At, ListsOk, LayoutOk;
  }

  /** What a GEP constraint derives from s. */
  function Fields(ly: Layout, s: set<nat>, off: nat): set<nat> {
    set o | o in s && Fits(ly, o, off) :: o + off
  }

  // ----- The lists of constraints -----

  /** One list of one node replaced. */
  function SetList(v: FState, k: Kind, n: nat, s: set<nat>): FState
    requires n < |List(v, k)|
  {
    match k
    case KLoad => v.(loads := v.loads[n := s])
    case KStore => v.(stores := v.stores[n := s])
    case KGep => v.(geps := v.geps[n := s])
  }

  /** The constraint with the representatives of its nodes. */
  function Updated(v: FState, c: FieldConstraint): FieldConstraint {
    c.(dest := Rep(v, c.dest), src := Rep(v, c.src))
  }

  lemma UpdatedSame(ly: Layout, v: FState, c: FieldConstraint)
    requires Sizes(ly, v) && c.dest < |v.root| && c.src < |v.root|
    ensures SameCons(v, Updated(v, c), c) && Updated(v, c).dest < |v.root| && Updated(v, c).src < |v.root|
    ensures (Updated(v, c).dest == 0 <==> c.dest == 0) && (Updated(v, c).src == 0 <==> c.src == 0)
    ensures Rep(v, Pointer(Updated(v, c))) == Rep(v, Pointer(c))
  {
  }

  function Update(v: FState, id: nat): FState
    requires id < |v.cplx|
  {
    v.(cplx := v.cplx[id := Updated(v, v.cplx[id])])
  }

  /** The two states differ in equivalent constraints only. */
  ghost predicate Alike(ly: Layout, v: FState, w: FState) {
    && w == v.(cplx := w.cplx) && |w.cplx| == |v.cplx|
    && forall id | 0 <= id < |v.cplx| :: SameCons(v, w.cplx[id], v.cplx[id])
         && (0 < v.cplx[id].dest < |v.root| && 0 < v.cplx[id].src < |v.root| ==> 0 < w.cplx[id].dest < |v.root| && 0 < w.cplx[id].src < |v.root|)
  }

  lemma UpdateAlike(ly: Layout, v: FState, id: nat)
    requires Sizes(ly, v) && id < |v.cplx| && v.cplx[id].dest < |v.root| && v.cplx[id].src < |v.root|
    ensures Alike(ly, v, Update(v, id))
  {
    UpdatedSame(ly, v, v.cplx[id]);
  }

  lemma AlikeListed(ly: Layout, v: FState, w: FState, k: Kind, n: nat, id: nat)
    requires Sizes(ly, v) && Alike(ly, v, w) && ListedOk(ly, v, k, n, id)
    ensures ListedOk(ly, w, k, n, id)
  {
    assert SameCons(v, w.cplx[id], v.cplx[id]);
  }

  lemma AlikeApplied(ly: Layout, v: FState, w: FState, c: FieldConstraint, d: FieldConstraint, s: set<nat>)
    requires Sizes(ly, v) && Alike(ly, v, w) && SameCons(v, d, c) && Applied(ly, v, c, s)
    ensures Applied(ly, w, d, s)
  {
    forall o | o in s && Fits(ly, o, d.off) ensures AppliedTo(ly, w, d, o) {
      assert AppliedTo(ly, v, c, o);
    }
  }

  lemma AlikeClosed(ly: Layout, v: FState, w: FState, m: nat, s: set<nat>)
    requires WellFormed(ly, v) && WellFormed(ly, w) && Alike(ly, v, w) && m < |v.root| && ClosedFor(ly, v, m, s)
    ensures ClosedFor(ly, w, m, s)
  {
    CollapsedStays(ly, v, w, m, s);
    hide Collapsed;
    forall k, id | id in List(w, k)[m] ensures ListedOk(ly, w, k, m, id) && Applied(ly, w, w.cplx[id], s) {
      assert id in List(v, k)[m] && ListedOk(ly, v, k, m, id) && Applied(ly, v, v.cplx[id], s);
      AlikeListed(ly, v, w, k, m, id);
      AlikeApplied(ly, v, w, v.cplx[id], w.cplx[id], s);
    }
    hide Applied;
  }

  lemma AlikeWellFormed(ly: Layout, v: FState, w: FState)
    requires WellFormed(ly, v) && Alike(ly, v, w)
    ensures WellFormed(ly, w)
  {
    forall k, n, id | 0 <= n < |List(w, k)| && id in List(w, k)[n] ensures ListedOk(ly, w, k, n, id) {
      assert ListedOk(ly, v, k, n, id);
      AlikeListed(ly, v, w, k, n, id);
    }
    hide ListsOk;
  }

  lemma AlikeKeeps(ly: Layout, v: FState, w: FState, open: set<nat>, n: nat, s: set<nat>)
    requires NodeInv(ly, v, open, n, s) && Alike(ly, v, w)
    ensures NodeInv(ly, w, open, n, s)
  {
    AlikeWellFormed(ly, v, w);
    hide ClosedFor, DataOk, ListsOk, Alike;
    assert w == v.(cplx := w.cplx) by {
      AlikeIs(ly, v, w);
    }
    forall m | m in Live(w) && m != n ensures ClosedFor(ly, w, m, w.prev[m]) && (m !in open ==> ClosedFor(ly, w, m, w.pts[m])) {
      AlikeClosed(ly, v, w, m, v.prev[m]);
      if m !in open {
        AlikeClosed(ly, v, w, m, v.pts[m]);
      }
    }
    AlikeClosed(ly, v, w, n, s);
  }

  lemma AlikeIs(ly: Layout, v: FState, w: FState)
    requires Alike(ly, v, w)
    ensures w == v.(cplx := w.cplx)
  {
  }

  lemma AlikeStated(ly: Layout, v: FState, w: FState, c: FieldConstraint)
    requires Sizes(ly, v) && Sizes(ly, w) && Alike(ly, v, w) && c.dest < |v.root| && c.src < |v.root| && Stated(ly, v, c)
    ensures Stated(ly, w, c)
  {
    if !c.ty.Copy? && !c.ty.AddrOf? {
      var id :| id in List(v, KindOf(c))[v.root[Pointer(c)]] && id < |v.cplx| && SameCons(v, v.cplx[id], c);
      assert SameCons(v, w.cplx[id], v.cplx[id]);
      assert id in List(w, KindOf(c))[w.root[Pointer(c)]] && SameCons(w, w.cplx[id], c);
    }
  }

  lemma AlikeCovers(ly: Layout, v: FState, w: FState, cs: seq<FieldConstraint>)
    requires Sizes(ly, v) && Alike(ly, v, w) && CoversAll(ly, v, cs)
    ensures Sizes(ly, w) && CoversAll(ly, w, cs)
  {
    assert Sizes(ly, w);
    hide ByHcd, Stated;
    forall c | c in cs ensures c.dest < |w.root| && c.src < |w.root| && Covers(ly, w, c) {
      if Stated(ly, v, c) {
        AlikeStated(ly, v, w, c);
      } else {
        assert Covers(ly, v, c);
        ByHcdStays(ly, v, w, c);
      }
    }
  }

  lemma AlikeSoundFor(ly: Layout, v: FState, w: FState, t: Task)
    requires SoundFor(ly, v, t) && Alike(ly, v, w)
    ensures SoundFor(ly, w, t)
  {
    hide TaskOk, MapsOn, MapsBack, Tame, Steady;
    forall k, n, id | 0 <= n < |List(w, k)| && id in List(w, k)[n] && id < |w.cplx| ensures Stems(w, w.cplx[id], t.cs) {
      assert id in List(v, k)[n] && SameCons(v, w.cplx[id], v.cplx[id]);
      assert Stems(v, v.cplx[id], t.cs);
      var d :| d in t.cs && SameCons(v, v.cplx[id], d);
      assert SameCons(w, w.cplx[id], d);
    }
    StepSoundFor(ly, v, w, t);
  }

  /** A constraint that is listed twice is dropped once. */
  function Drop(v: FState, k: Kind, n: nat, id: nat): FState
    requires n < |List(v, k)|
  {
    SetList(v, k, n, List(v, k)[n] - {id})
  }

  lemma DropLists(v: FState, k: Kind, n: nat, id: nat)
    requires n < |List(v, k)|
    ensures var w := Drop(v, k, n, id);
      && w == v.(loads := w.loads, stores := w.stores, geps := w.geps)
      && forall j :: |List(w, j)| == |List(v, j)|
           && forall m | 0 <= m < |List(v, j)| :: List(w, j)[m] == if j == k && m == n then List(v, k)[n] - {id} else List(v, j)[m]
  {
  }

  lemma DropWellFormed(ly: Layout, v: FState, k: Kind, n: nat, id: nat)
    requires WellFormed(ly, v) && n < |v.root|
    ensures WellFormed(ly, Drop(v, k, n, id))
  {
    var w := Drop(v, k, n, id);
    DropLists(v, k, n, id);
    hide Drop;
    assert |List(w, KLoad)| == |w.loads| && |List(w, KStore)| == |w.stores| && |List(w, KGep)| == |w.geps|;
    forall j, m, i | 0 <= m < |List(w, j)| && i in List(w, j)[m] ensures ListedOk(ly, w, j, m, i) {
      assert i in List(v, j)[m] && ListedOk(ly, v, j, m, i);
    }
  }

  lemma DropClosed(ly: Layout, v: FState, k: Kind, n: nat, id: nat, m: nat, s: set<nat>)
    requires WellFormed(ly, v) && n < |v.root| && m < |v.root| && ClosedFor(ly, v, m, s)
    requires WellFormed(ly, Drop(v, k, n, id))
    ensures ClosedFor(ly, Drop(v, k, n, id), m, s)
  {
    var w := Drop(v, k, n, id);
    DropLists(v, k, n, id);
    hide Drop;
    assert Copied(w, m, s);
    CollapsedStays(ly, v, w, m, s);
    hide Collapsed;
    forall j, i | i in List(w, j)[m] ensures ListedOk(ly, w, j, m, i) && Applied(ly, w, w.cplx[i], s) {
      assert i in List(v, j)[m] && ListedOk(ly, v, j, m, i) && Applied(ly, v, v.cplx[i], s);
      SameApplied(ly, v, w, v.cplx[i], s);
    }
  }

  lemma SameApplied(ly: Layout, v: FState, w: FState, c: FieldConstraint, s: set<nat>)
    requires w.root == v.root && w.pts == v.pts && w.copies == v.copies && Applied(ly, v, c, s)
    ensures Applied(ly, w, c, s)
  {
    forall o | o in s && Fits(ly, o, c.off) ensures AppliedTo(ly, w, c, o) {
      assert AppliedTo(ly, v, c, o);
    }
  }

  lemma DropKeeps(ly: Layout, v: FState, k: Kind, n: nat, id: nat, open: set<nat>, s: set<nat>)
    requires NodeInv(ly, v, open, n, s)
    ensures NodeInv(ly, Drop(v, k, n, id), open, n, s)
  {
    var w := Drop(v, k, n, id);
    DropWellFormed(ly, v, k, n, id);
    DropLists(v, k, n, id);
    hide Drop, ClosedFor, DataOk, ListsOk;
    forall m | m in Live(w) && m != n ensures ClosedFor(ly, w, m, w.prev[m]) && (m !in open ==> ClosedFor(ly, w, m, w.pts[m])) {
      DropClosed(ly, v, k, n, id, m, v.prev[m]);
      if m !in open {
        DropClosed(ly, v, k, n, id, m, v.pts[m]);
      }
    }
    DropClosed(ly, v, k, n, id, n, s);
  }

  lemma DropSoundFor(ly: Layout, v: FState, k: Kind, n: nat, id: nat, t: Task)
    requires n < |List(v, k)| && SoundFor(ly, v, t)
    ensures SoundFor(ly, Drop(v, k, n, id), t)
  {
    var w := Drop(v, k, n, id);
    DropLists(v, k, n, id);
    hide Drop, TaskOk, MapsOn, MapsBack, Tame, Steady;
    forall j, m, i | 0 <= m < |List(w, j)| && i in List(w, j)[m] && i < |w.cplx| ensures Stems(w, w.cplx[i], t.cs) {
      assert i in List(v, j)[m];
      assert Stems(v, v.cplx[i], t.cs);
    }
    StepSoundFor(ly, v, w, t);
  }

  /** What was listed is listed still, or its twin is. */
  lemma DropListed(v: FState, k: Kind, n: nat, id: nat, twin: nat, k2: Kind, n2: nat, i: nat) returns (j: nat)
    requires n < |List(v, k)| && n2 < |List(v, k2)| && i in List(v, k2)[n2] && i < |v.cplx|
    requires id < |v.cplx| && twin < |v.cplx| && twin in List(v, k)[n] && twin != id && v.cplx[twin] == v.cplx[id]
    ensures var w := Drop(v, k, n, id);
      w.root == v.root && w.cplx == v.cplx && |List(w, k2)| == |List(v, k2)| && j in List(w, k2)[n2] && j < |v.cplx| && v.cplx[j] == v.cplx[i]
  {
    DropLists(v, k, n, id);
    j := if i == id && k2 == k && n2 == n then twin else i;
    hide Drop, List;
  }

  /** Constraint id is in the list twice, or an edge does for it. */
  ghost predicate Spare(ly: Layout, v: FState, k: Kind, n: nat, id: nat)
    requires n < |List(v, k)|
  {
    id < |v.cplx| && (ByHcd(ly, v, v.cplx[id]) || exists twin :: twin < |v.cplx| && twin in List(v, k)[n] && twin != id && v.cplx[twin] == v.cplx[id])
  }

  lemma DropByHcd(ly: Layout, v: FState, k: Kind, n: nat, id: nat, c: FieldConstraint)
    requires n < |List(v, k)| && ByHcd(ly, v, c)
    ensures ByHcd(ly, Drop(v, k, n, id), c)
  {
    DropLists(v, k, n, id);
    hide Drop, ByHcd;
    ByHcdStays(ly, v, Drop(v, k, n, id), c);
  }

  lemma SameByHcd(ly: Layout, v: FState, c: FieldConstraint, d: FieldConstraint)
    requires SameCons(v, d, c) && ByHcd(ly, v, d)
    ensures ByHcd(ly, v, c)
  {
  }

  lemma DropListedCovers(ly: Layout, v: FState, k: Kind, n: nat, id: nat, c: FieldConstraint, i: nat)
    requires WellFormed(ly, v) && n < |List(v, k)| && c.dest < |v.root| && c.src < |v.root| && Spare(ly, v, k, n, id) && !c.ty.AddrOf? && !c.ty.Copy?
    requires i in List(v, KindOf(c))[v.root[Pointer(c)]] && i < |v.cplx| && SameCons(v, v.cplx[i], c)
    requires Sizes(ly, Drop(v, k, n, id)) && Drop(v, k, n, id).root == v.root
    ensures Covers(ly, Drop(v, k, n, id), c)
  {
    hide Drop, DataOk, ListsOk, List, ByHcd, SameCons;
    if ByHcd(ly, v, v.cplx[id]) {
      if i == id {
        SameByHcd(ly, v, c, v.cplx[i]);
        DropByHcd(ly, v, k, n, id, c);
      } else {
        DropLists(v, k, n, id);
        ListSizes(ly, v, KindOf(c));
        assert i in List(Drop(v, k, n, id), KindOf(c))[v.root[Pointer(c)]];
        SameStays(v, Drop(v, k, n, id), v.cplx[i], c);
      }
    } else {
      var twin :| twin < |v.cplx| && twin in List(v, k)[n] && twin != id && v.cplx[twin] == v.cplx[id];
      ListSizes(ly, v, KindOf(c));
      var j := DropListed(v, k, n, id, twin, KindOf(c), v.root[Pointer(c)], i);
      SameStays(v, Drop(v, k, n, id), v.cplx[i], c);
    }
  }

  lemma SameStays(v: FState, w: FState, d: FieldConstraint, c: FieldConstraint)
    requires SameCons(v, d, c) && w.root == v.root
    ensures SameCons(w, d, c)
  {
  }

  lemma DropCoversOne(ly: Layout, v: FState, k: Kind, n: nat, id: nat, c: FieldConstraint)
    requires WellFormed(ly, v) && n < |List(v, k)| && c.dest < |v.root| && c.src < |v.root| && Covers(ly, v, c) && Spare(ly, v, k, n, id)
    requires Sizes(ly, Drop(v, k, n, id)) && Drop(v, k, n, id).root == v.root
    ensures Covers(ly, Drop(v, k, n, id), c)
  {
    hide Drop, DataOk, ListsOk, List, ByHcd;
    if ByHcd(ly, v, c) {
      DropByHcd(ly, v, k, n, id, c);
    } else if c.ty.Copy? || c.ty.AddrOf? {
      DropLists(v, k, n, id);
    } else {
      ListSizes(ly, v, KindOf(c));
      var i :| i in List(v, KindOf(c))[v.root[Pointer(c)]] && i < |v.cplx| && SameCons(v, v.cplx[i], c);
      DropListedCovers(ly, v, k, n, id, c, i);
    }
  }

  lemma ListSizes(ly: Layout, v: FState, k: Kind)
    requires Sizes(ly, v)
    ensures |List(v, k)| == |v.root|
  {
  }

  lemma DropCovers(ly: Layout, v: FState, k: Kind, n: nat, id: nat, cs: seq<FieldConstraint>)
    requires WellFormed(ly, v) && n < |List(v, k)| && CoversAll(ly, v, cs) && Spare(ly, v, k, n, id)
    ensures Sizes(ly, Drop(v, k, n, id)) && CoversAll(ly, Drop(v, k, n, id), cs)
  {
    var w := Drop(v, k, n, id);
    ListSizes(ly, v, k);
    DropWellFormed(ly, v, k, n, id);
    DropLists(v, k, n, id);
    hide Drop, Covers, DataOk, ListsOk, Spare;
    forall c | c in cs ensures c.dest < |w.root| && c.src < |w.root| && Covers(ly, w, c) {
      DropCoversOne(ly, v, k, n, id, c);
    }
  }
}
