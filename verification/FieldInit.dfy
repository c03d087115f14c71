/** Entering the constraints into the state of the field-sensitive solver. */
module FieldInit {
  import opened Constraints
  import opened FieldConstraints
  import opened FieldStates
  import opened FieldTasks

  function Insert(s: Sets, n: nat, x: nat): Sets
    requires n < |s|
  {
    s[n := s[n] + {x}]
  }

  /** The state with one more constraint. */
  function Entered(v: FState, c: FieldConstraint): FState
    requires |v.root| == |v.pts| == |v.copies| == |v.loads| == |v.stores| == |v.geps| && IsRep(v.root)
    requires c.dest < |v.root| && c.src < |v.root|
  {
    var dest, src := v.root[c.dest], v.root[c.src];
    match c.ty
    case AddrOf => v.(pts := Insert(v.pts, dest, c.src))
    case Copy => v.(copies := Insert(v.copies, src, dest))
    case Load => v.(loads := Insert(v.loads, src, |v.cplx|), cplx := v.cplx + [c])
    case Store => v.(stores := Insert(v.stores, dest, |v.cplx|), cplx := v.cplx + [c])
    case Gep => v.(geps := Insert(v.geps, src, |v.cplx|), cplx := v.cplx + [c])
  }

  /** The constraints before i were entered, and nothing was propagated. */
  ghost predicate EnteredTo(ly: Layout, v: FState, t: Task, i: nat) {
    && WellFormed(ly, v) && SoundFor(ly, v, t) && v.root == t.root && v.hcd == t.hcd && i <= |t.cs|
    && (forall n | 0 <= n < |v.prev| :: v.prev[n] == {})
    && (forall j | 0 <= j < i :: t.cs[j].dest < |v.root| && t.cs[j].src < |v.root| && Stated(ly, v, t.cs[j]))
  }

  function Blank(root: seq<nat>, hcd: map<nat, nat>): FState {
    var none := seq(|root|, i => {});
    FState(root, none, none, none, none, none, none, [], hcd)
  }

  lemma BlankOk(ly: Layout, t: Task)
    requires Sizes(ly, Blank(t.root, t.hcd)) && TaskOk(ly, t)
    ensures EnteredTo(ly, Blank(t.root, t.hcd), t, 0)
  {
    var v := Blank(t.root, t.hcd);
    forall k, n, id | 0 <= n < |List(v, k)| && id in List(v, k)[n] ensures false {
    }
    assert WellFormed(ly, v);
    BlankMaps(ly, t);
    hide MapsOn, MapsBack, OneTarget, PointeesEqual, IntEdges, FieldHolds;
    assert forall q: PtsGraph | Tame(ly, t, q, v.root) :: Sound(v, q);
  }

  lemma BlankMaps(ly: Layout, t: Task)
    requires TaskOk(ly, t)
    ensures MapsOn(Blank(t.root, t.hcd), t.hcd) && MapsBack(Blank(t.root, t.hcd), t.hcd) && Coarser(t.root, t.root)
  {
    var v := Blank(t.root, t.hcd);
    hide OneTarget, Used, FieldInRange;
    forall n | n in t.hcd ensures MapsAt(v, t.hcd, n) && Inherits(v, t.hcd, n) {
      assert n in t.hcd && Rep(v, n) == Rep(v, n);
    }
    hide MapsBack;
  }

  lemma EnteredLists(ly: Layout, v: FState, c: FieldConstraint, k: Kind, n: nat)
    requires Sizes(ly, v) && c.dest < |v.root| && c.src < |v.root| && n < |v.root|
    ensures var w := Entered(v, c);
      && |List(w, k)| == |v.root| && v.cplx <= w.cplx
      && List(v, k)[n] <= List(w, k)[n]
      && forall id | id in List(w, k)[n] :: id in List(v, k)[n] || (id == |v.cplx| && id < |w.cplx| && w.cplx[id] == c && IsKind(k, c) && n == v.root[Pointer(c)])
  {
  }

  lemma EnteredSizes(ly: Layout, v: FState, c: FieldConstraint)
    requires Sizes(ly, v) && DataOk(ly, v) && c.dest < |v.root| && c.src < |v.root| && CanEnter(ly, c) && c.dest != 0 && c.src != 0
    ensures Sizes(ly, Entered(v, c)) && DataOk(ly, Entered(v, c))
    ensures Entered(v, c).root == v.root && Entered(v, c).prev == v.prev
  {
    hide TargetsOk, LayoutOk;
    assert ly.i2p < |ly.sz| by {
      I2pIsNode(ly);
    }
    assert v.root[c.dest] < |v.root| && v.root[c.src] < |v.root|;
  }

  lemma I2pIsNode(ly: Layout)
    requires LayoutOk(ly)
    ensures ly.i2p < |ly.sz|
  {
  }

  lemma EnteredWellFormed(ly: Layout, v: FState, c: FieldConstraint)
    requires WellFormed(ly, v) && c.dest < |v.root| && c.src < |v.root| && CanEnter(ly, c) && c.dest != 0 && c.src != 0
    ensures WellFormed(ly, Entered(v, c))
  {
    var w := Entered(v, c);
    EnteredSizes(ly, v, c);
    hide Entered, DataOk, List, LayoutOk;
    forall k, n, id | 0 <= n < |List(w, k)| && id in List(w, k)[n] ensures ListedOk(ly, w, k, n, id) {
      EnteredLists(ly, v, c, k, 0);
      EnteredLists(ly, v, c, k, n);
      SizesOfLists(ly, v, k);
      if id in List(v, k)[n] {
        assert ListedOk(ly, v, k, n, id);
      }
    }
  }

  lemma SizesOfLists(ly: Layout, v: FState, k: Kind)
    requires Sizes(ly, v)
    ensures |List(v, k)| == |v.root|
  {
  }

  lemma EnteredSound(ly: Layout, v: FState, c: FieldConstraint, q: PtsGraph)
    requires WellFormed(ly, v) && Sound(v, q) && FieldHolds(ly, q, c)
    requires c.dest < |v.root| && c.src < |v.root|
    ensures Sound(Entered(v, c), q) && Entered(v, c).hcd == v.hcd
  {
    assert At(q, c.dest) == At(q, v.root[c.dest]) && At(q, c.src) == At(q, v.root[c.src]);
    hide Respects, ListsOk, DataOk, List, LayoutOk;
  }

  lemma EnteredOrigin(ly: Layout, v: FState, c: FieldConstraint, cs: seq<FieldConstraint>)
    requires WellFormed(ly, v) && Origin(v, cs) && c in cs && c.dest < |v.root| && c.src < |v.root| && Entered(v, c).root == v.root
    ensures Origin(Entered(v, c), cs)
  {
    var w := Entered(v, c);
    hide Entered, DataOk, LayoutOk;
    forall k, n, id | 0 <= n < |List(w, k)| && id in List(w, k)[n] && id < |w.cplx| ensures Stems(w, w.cplx[id], cs) {
      EnteredLists(ly, v, c, k, 0);
      EnteredLists(ly, v, c, k, n);
      SizesOfLists(ly, v, k);
      if id in List(v, k)[n] {
        assert ListedOk(ly, v, k, n, id) && Stems(v, v.cplx[id], cs);
        var d :| d in cs && SameCons(v, v.cplx[id], d);
        assert SameCons(w, w.cplx[id], d);
      } else {
        assert SameCons(w, w.cplx[id], c);
      }
    }
  }

  lemma EnteredListed(ly: Layout, v: FState, c: FieldConstraint, d: FieldConstraint)
    requires WellFormed(ly, v) && c.dest < |v.root| && c.src < |v.root| && Sizes(ly, Entered(v, c)) && Entered(v, c).root == v.root
    requires d.dest < |v.root| && d.src < |v.root| && (d == c || Stated(ly, v, d)) && !d.ty.AddrOf? && !d.ty.Copy?
    ensures Stated(ly, Entered(v, c), d)
  {
    var w := Entered(v, c);
    var k, n := KindOf(d), v.root[Pointer(d)];
    EnteredLists(ly, v, c, k, n);
    if d == c {
      assert |v.cplx| in List(w, k)[n] && w.cplx[|v.cplx|] == c;
      assert SameCons(w, w.cplx[|v.cplx|], c);
    } else {
      var id :| id in List(v, k)[n] && id < |v.cplx| && SameCons(v, v.cplx[id], d);
      hide Entered;
      assert id in List(w, k)[n] && w.cplx[id] == v.cplx[id] && SameCons(w, w.cplx[id], d);
    }
  }

  lemma EnteredStated(ly: Layout, v: FState, c: FieldConstraint, d: FieldConstraint)
    requires WellFormed(ly, v) && c.dest < |v.root| && c.src < |v.root| && Sizes(ly, Entered(v, c))
    requires d.dest < |v.root| && d.src < |v.root| && (d == c || Stated(ly, v, d))
    ensures Stated(ly, Entered(v, c), d)
  {
    var w := Entered(v, c);
    assert w.root == v.root;
    match d.ty
    case AddrOf =>
    case Copy =>
      if d == c {
        assert v.root[c.dest] in w.copies[v.root[c.src]] && Rep(w, v.root[c.dest]) == v.root[c.dest];
      } else if v.root[d.src] != v.root[d.dest] {
        var e :| e in v.copies[v.root[d.src]] && Rep(v, e) == v.root[d.dest];
        assert e in w.copies[w.root[d.src]];
      }
    case _ =>
      hide Entered, Stated, WellFormed;
      EnteredListed(ly, v, c, d);
  }

  lemma EnterStep(ly: Layout, v: FState, t: Task, i: nat)
    requires EnteredTo(ly, v, t, i) && i < |t.cs|
    ensures var c := t.cs[i];
      && c.dest < |v.root| && c.src < |v.root| && IsRep(v.root)
      && |v.root| == |v.pts| == |v.copies| == |v.loads| == |v.stores| == |v.geps|
      && EnteredTo(ly, Entered(v, c), t, i + 1)
  {
    var c := t.cs[i];
    assert c in t.cs && CanEnter(ly, c) && c.dest != 0 && c.src != 0 && Origin(v, t.cs);
    var w := Entered(v, c);
    hide Entered, DataOk, ListsOk, Stated, Sound, FieldHolds, TaskOk, Origin, SoundFor;
    EnteredSizes(ly, v, c);
    EnteredWellFormed(ly, v, c);
    EnteredOrigin(ly, v, c, t.cs);
    EnteredSoundFor(ly, v, c, t);
    forall j | 0 <= j < i + 1 ensures t.cs[j].dest < |w.root| && t.cs[j].src < |w.root| && Stated(ly, w, t.cs[j]) {
      EnteredStated(ly, v, c, t.cs[j]);
    }
  }

  lemma EnteredSoundFor(ly: Layout, v: FState, c: FieldConstraint, t: Task)
    requires WellFormed(ly, v) && SoundFor(ly, v, t) && c in t.cs && c.dest < |v.root| && c.src < |v.root| && Entered(v, c).root == v.root
    requires Origin(Entered(v, c), t.cs)
    ensures SoundFor(ly, Entered(v, c), t) && Entered(v, c).hcd == v.hcd
  {
    var w := Entered(v, c);
    assert w.hcd == v.hcd;
    hide WellFormed, SoundFor, Origin, Sound, Entered, PointeesEqual, IntEdges, FieldHolds;
    forall q: PtsGraph | Tame(ly, t, q, v.root) ensures Sound(w, q) {
      SoundIn(ly, v, t, q);
      assert FieldHolds(ly, q, c);
      EnteredSound(ly, v, c, q);
    }
    StepSoundFor(ly, v, w, t);
  }

  /** n has no pointees, or no edges and constraints to apply to them. */
  predicate Idle(v: FState, n: nat) {
    && n < |v.pts| && n < |v.copies| && n < |v.loads| && n < |v.stores| && n < |v.geps|
    && (v.pts[n] == {} || (v.copies[n] == {} && v.loads[n] == {} && v.stores[n] == {} && v.geps[n] == {}))
  }

  lemma EmptyClosed(ly: Layout, v: FState, n: nat)
    requires WellFormed(ly, v) && n < |v.root|
    ensures ClosedFor(ly, v, n, {})
  {
    forall e | e in v.copies[n] ensures Rep(v, e) < |v.pts| {
      assert e < |v.root|;
    }
    forall k, id | id in List(v, k)[n] ensures ListedOk(ly, v, k, n, id) && Applied(ly, v, v.cplx[id], {}) {
      assert |List(v, k)| == |v.root|;
    }
  }

  lemma IdleClosed(ly: Layout, v: FState, n: nat)
    requires WellFormed(ly, v) && n < |v.root| && Idle(v, n) && (n in v.hcd ==> v.pts[n] == {})
    ensures ClosedFor(ly, v, n, v.pts[n])
  {
    EmptyClosed(ly, v, n);
    if v.pts[n] != {} {
      forall k ensures List(v, k)[n] == {} {
        assert |List(v, k)| == |v.root|;
      }
    }
    hide ListedOk, Applied;
  }

  lemma BusyAt(ly: Layout, v: FState, c: FieldConstraint, n: nat)
    requires Sizes(ly, v) && c.dest < |v.root| && c.src < |v.root| && Stated(ly, v, c) && !c.ty.AddrOf? && !c.ty.Copy?
    requires n == v.root[Pointer(c)] && Idle(v, n)
    ensures n < |v.pts| && v.pts[n] == {}
  {
    var id :| id in List(v, KindOf(c))[n];
  }

  /** A pointer in use has constraints to be applied to what it points to. */
  lemma UsedIsBusy(ly: Layout, v: FState, t: Task, n: nat)
    requires EnteredTo(ly, v, t, |t.cs|) && n in v.hcd && n in Live(v) && Idle(v, n)
    ensures n < |v.pts| && v.pts[n] == {}
  {
    assert Used(t.cs, t.root, n);
    hide SoundFor, DataOk, ListsOk, Stated, Idle, LayoutOk, Live;
    var j :| 0 <= j < |t.cs| && !t.cs[j].ty.AddrOf? && !t.cs[j].ty.Copy? && Find(t.root, Pointer(t.cs[j])) == n;
    BusyAt(ly, v, t.cs[j], n);
  }

  /** Before anything is propagated the state is closed but for the nodes that have work to do. */
  lemma AllEntered(ly: Layout, v: FState, t: Task, open: set<nat>)
    requires EnteredTo(ly, v, t, |t.cs|) && forall n | n in Live(v) && n !in open :: Idle(v, n)
    ensures LoopInv(ly, v, open) && CoversAll(ly, v, t.cs) && SoundFor(ly, v, t)
  {
    hide ClosedFor, Stated, SoundFor, DataOk, ListsOk, ByHcd, Idle;
    forall n | n in Live(v) ensures ClosedFor(ly, v, n, v.prev[n]) && (n !in open ==> ClosedFor(ly, v, n, v.pts[n])) {
      EmptyClosed(ly, v, n);
      if n !in open {
        if n in v.hcd {
          UsedIsBusy(ly, v, t, n);
        }
        IdleClosed(ly, v, n);
      }
    }
  }
}
