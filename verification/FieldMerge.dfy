/** Merging two nodes of the field-sensitive solver. */
module FieldMerge {
  import opened Constraints
  import opened NodeFactory
  import opened FieldConstraints
  import opened FieldStates
  import opened FieldTasks

  function Both(s: Sets, a: nat, b: nat): Sets
    requires a < |s| && b < |s|
  {
    s[a := s[a] + s[b]][b := {}]
  }

  /** What b is mapped to a is mapped to, unless a has an entry of its own. */
  function Inherited(hcd: map<nat, nat>, a: nat, b: nat): map<nat, nat> {
    if b !in hcd then hcd
    else if a in hcd then hcd - {b}
    else hcd[a := hcd[b]] - {b}
  }

  /** What merge_nodes does once a is to be the parent of b. */
  function Merge(v: FState, a: nat, b: nat): FState
    requires a < |v.root| && b < |v.root| && |v.root| == |v.pts| == |v.prev| == |v.copies| == |v.loads| == |v.stores| == |v.geps|
  {
    FState(Joined(v.root, a, b), Both(v.pts, a, b), v.prev[a := {}][b := {}],
           v.copies[a := v.copies[a] + v.copies[b] - {a, b}][b := {}],
           Both(v.loads, a, b), Both(v.stores, a, b), Both(v.geps, a, b), v.cplx, Inherited(v.hcd, a, b))
  }

  /** The two nodes that are merged are representatives, different, and neither is node 0 or i2p; if
      both are mapped, it is to nodes that were merged. */
  ghost predicate CanMerge(ly: Layout, v: FState, a: nat, b: nat) {
    WellFormed(ly, v) && a in Live(v) && b in Live(v) && a != b && Tracked(ly, a, b) && a != 0 && b != 0
    && (a in v.hcd && b in v.hcd ==> Rep(v, v.hcd[a]) == Rep(v, v.hcd[b]))
  }

  lemma MergeRoots(ly: Layout, v: FState, a: nat, b: nat, n: nat)
    requires CanMerge(ly, v, a, b) && n < |v.root|
    ensures Rep(Merge(v, a, b), n) == if Rep(v, n) == b then a else Rep(v, n)
    ensures Rep(v, n) < |v.root|
  {
  }

  lemma MergeLists(ly: Layout, v: FState, a: nat, b: nat, k: Kind, n: nat)
    requires CanMerge(ly, v, a, b) && n < |v.root|
    ensures |List(Merge(v, a, b), k)| == |v.root|
    ensures List(Merge(v, a, b), k)[n] == if n == a then List(v, k)[a] + List(v, k)[b] else if n == b then {} else List(v, k)[n]
  {
  }

  lemma MergeSizes(ly: Layout, v: FState, a: nat, b: nat)
    requires CanMerge(ly, v, a, b)
    ensures Sizes(ly, Merge(v, a, b)) && DataOk(ly, Merge(v, a, b)) && Live(Merge(v, a, b)) == Live(v) - {b}
  {
    var w := Merge(v, a, b);
    assert Sizes(ly, w);
    assert TargetsOk(ly, w.hcd);
    hide ListsOk, TargetsOk, Inherited;
  }

  lemma MergeWellFormed(ly: Layout, v: FState, a: nat, b: nat)
    requires CanMerge(ly, v, a, b)
    ensures WellFormed(ly, Merge(v, a, b)) && Live(Merge(v, a, b)) == Live(v) - {b}
  {
    var w := Merge(v, a, b);
    MergeSizes(ly, v, a, b);
    hide Merge;
    forall k, n, id | 0 <= n < |List(w, k)| && id in List(w, k)[n] ensures ListedOk(ly, w, k, n, id) {
      assert |List(w, k)| == |v.root| by {
        MergeLists(ly, v, a, b, k, a);
      }
      MergeLists(ly, v, a, b, k, n);
      var m := if n == a && id !in List(v, k)[a] then b else n;
      assert id in List(v, k)[m] && ListedOk(ly, v, k, m, id);
      MergeRoots(ly, v, a, b, Pointer(v.cplx[id]));
      assert w.cplx == v.cplx by {
        MergeCplx(v, a, b);
      }
    }
  }

  lemma MergeCplx(v: FState, a: nat, b: nat)
    requires a < |v.root| && b < |v.root| && |v.root| == |v.pts| == |v.prev| == |v.copies| == |v.loads| == |v.stores| == |v.geps|
    ensures Merge(v, a, b).cplx == v.cplx && |Merge(v, a, b).root| == |v.root|
  {
  }

  /** An edge between two representatives leads between those they are merged into. */
  lemma MergeEdge(ly: Layout, v: FState, a: nat, b: nat, x: nat, y: nat)
    requires CanMerge(ly, v, a, b) && x < |v.root| && y < |v.root| && HasEdge(ly, v, Rep(v, x), Rep(v, y))
    ensures HasEdge(ly, Merge(v, a, b), Rep(Merge(v, a, b), x), Rep(Merge(v, a, b), y))
  {
    var w := Merge(v, a, b);
    MergeRoots(ly, v, a, b, x);
    MergeRoots(ly, v, a, b, y);
    var s, d := Rep(v, x), Rep(v, y);
    if s != d && Tracked(ly, s, d) {
      var e :| e in v.copies[s] && Rep(v, e) == d;
      MergeRoots(ly, v, a, b, e);
      var s2 := if s == b then a else s;
      assert e in w.copies[s2] || (s2 == a && e in {a, b});
    }
  }

  lemma MergePts(ly: Layout, v: FState, a: nat, b: nat, n: nat)
    requires CanMerge(ly, v, a, b) && n < |v.root|
    ensures |Merge(v, a, b).pts| == |v.root| && v.pts[Rep(v, n)] <= Merge(v, a, b).pts[Rep(Merge(v, a, b), n)]
    ensures n != a && n != b ==> Merge(v, a, b).pts[n] == v.pts[n] && Merge(v, a, b).copies[n] == v.copies[n] && Merge(v, a, b).prev[n] == v.prev[n]
    ensures Merge(v, a, b).prev[a] == {}
  {
    MergeRoots(ly, v, a, b, n);
  }

  lemma MergeApplied(ly: Layout, v: FState, a: nat, b: nat, c: FieldConstraint, s: set<nat>)
    requires CanMerge(ly, v, a, b) && c.dest < |v.root| && c.src < |v.root| && Applied(ly, v, c, s)
    ensures Applied(ly, Merge(v, a, b), c, s)
  {
    var w := Merge(v, a, b);
    forall o | o in s && Fits(ly, o, c.off) ensures AppliedTo(ly, w, c, o) {
      assert AppliedTo(ly, v, c, o);
      assert IsObject(ly, o + c.off);
      assert o + c.off < |v.root|;
      hide Merge, HasEdge;
      match c.ty
      case Load => MergeEdge(ly, v, a, b, o + c.off, c.dest);
      case Store => MergeEdge(ly, v, a, b, c.src, o + c.off);
      case Gep =>
        MergePts(ly, v, a, b, c.dest);
        MergeRoots(ly, v, a, b, c.dest);
      case _ =>
    }
  }

  lemma MergeHcd(ly: Layout, v: FState, a: nat, b: nat, n: nat)
    requires CanMerge(ly, v, a, b) && n != b && n in Merge(v, a, b).hcd
    ensures var m := if n in v.hcd then n else b; m in v.hcd && Merge(v, a, b).hcd[n] == v.hcd[m] < |v.root| && (m != n ==> n == a)
  {
  }

  lemma MergeHcdKeeps(ly: Layout, v: FState, a: nat, b: nat, n: nat)
    requires CanMerge(ly, v, a, b) && n in v.hcd && n != b
    ensures n in Merge(v, a, b).hcd && Merge(v, a, b).hcd[n] == v.hcd[n] < |v.root|
  {
  }

  lemma MergeTogether(ly: Layout, v: FState, a: nat, b: nat, m: nat, s: set<nat>)
    requires CanMerge(ly, v, a, b) && m < |v.root| && m != a && m != b && Together(ly, v, m, s) && s <= v.pts[m]
    ensures Together(ly, Merge(v, a, b), m, s)
  {
    var w := Merge(v, a, b);
    if m in w.hcd {
      MergeHcd(ly, v, a, b, m);
      forall o | o in s && o != ly.i2p ensures Rep(w, o) == Rep(w, w.hcd[m]) {
        assert IsObject(ly, o);
        hide Merge;
        MergeRoots(ly, v, a, b, o);
        MergeRoots(ly, v, a, b, v.hcd[m]);
      }
    }
  }

  lemma MergeCollapsed(ly: Layout, v: FState, a: nat, b: nat, m: nat, s: set<nat>)
    requires CanMerge(ly, v, a, b) && m < |v.root| && m != a && m != b && Collapsed(ly, v, m, s) && s <= v.pts[m]
    ensures Collapsed(ly, Merge(v, a, b), m, s)
  {
    var w := Merge(v, a, b);
    MergeTogether(ly, v, a, b, m, s);
    MergeCplx(v, a, b);
    if m in w.hcd && s != {} {
      MergeHcd(ly, v, a, b, m);
      assert NonePlain(v, m);
      hide Merge, CanMerge, Together;
      forall k, id | m < |List(w, k)| && id in List(w, k)[m] && id < |w.cplx| ensures !Plain(w.cplx[id]) {
        MergeLists(ly, v, a, b, k, m);
        assert m < |List(v, k)| && id in List(v, k)[m];
      }
    }
  }

  lemma MergeClosed(ly: Layout, v: FState, a: nat, b: nat, m: nat, s: set<nat>)
    requires CanMerge(ly, v, a, b) && WellFormed(ly, Merge(v, a, b)) && m < |v.root| && m != a && m != b && ClosedFor(ly, v, m, s) && s <= v.pts[m]
    ensures ClosedFor(ly, Merge(v, a, b), m, s)
  {
    var w := Merge(v, a, b);
    MergeCollapsed(ly, v, a, b, m, s);
    MergePts(ly, v, a, b, m);
    MergeCplx(v, a, b);
    hide Merge, Applied, Collapsed;
    forall e | e in w.copies[m] ensures Rep(w, e) < |w.pts| && s <= w.pts[Rep(w, e)] {
      assert e in v.copies[m] && e < |v.root|;
      MergePts(ly, v, a, b, e);
      MergeRoots(ly, v, a, b, e);
    }
    forall k, id | id in List(w, k)[m] ensures ListedOk(ly, w, k, m, id) && Applied(ly, w, w.cplx[id], s) {
      MergeLists(ly, v, a, b, k, m);
      assert id in List(v, k)[m] && ListedOk(ly, v, k, m, id) && Applied(ly, v, v.cplx[id], s);
      MergeApplied(ly, v, a, b, v.cplx[id], s);
    }
  }

  /** Nothing was propagated from a node that was just merged into. */
  lemma MergeFresh(ly: Layout, v: FState, a: nat, b: nat)
    requires CanMerge(ly, v, a, b) && WellFormed(ly, Merge(v, a, b))
    ensures ClosedFor(ly, Merge(v, a, b), a, {})
  {
    var w := Merge(v, a, b);
    MergeCplx(v, a, b);
    hide Merge;
    assert |w.copies| == |w.pts| == |w.root|;
    forall e | e in w.copies[a] ensures Rep(w, e) < |w.pts| && {} <= w.pts[Rep(w, e)] {
      assert e < |w.root|;
    }
    forall k, id | id in List(w, k)[a] ensures ListedOk(ly, w, k, a, id) && Applied(ly, w, w.cplx[id], {}) {
      MergeLists(ly, v, a, b, k, a);
    }
  }

  /** Merging keeps all others as closed as they were; the merged node is open. */
  lemma MergeKeeps(ly: Layout, v: FState, open: set<nat>, a: nat, b: nat)
    requires LoopInv(ly, v, open) && CanMerge(ly, v, a, b)
    ensures LoopInv(ly, Merge(v, a, b), open + {a}) && Live(Merge(v, a, b)) == Live(v) - {b}
  {
    var w := Merge(v, a, b);
    MergeWellFormed(ly, v, a, b);
    MergeFresh(ly, v, a, b);
    hide Merge, ClosedFor, DataOk, ListsOk;
    forall m | m in Live(w) ensures ClosedFor(ly, w, m, w.prev[m]) && (m !in open + {a} ==> ClosedFor(ly, w, m, w.pts[m])) {
      MergePts(ly, v, a, b, m);
      if m != a {
        MergeClosed(ly, v, a, b, m, v.prev[m]);
        if m !in open {
          MergeClosed(ly, v, a, b, m, v.pts[m]);
        }
      }
    }
  }

  lemma MergeRespects(ly: Layout, v: FState, a: nat, b: nat, q: PtsGraph)
    requires CanMerge(ly, v, a, b) && Respects(q, v.root) && At(q, a) == At(q, b)
    ensures Respects(q, Merge(v, a, b).root)
  {
    var w := Merge(v, a, b);
    forall n: nat | n < |w.root| ensures At(q, n) == At(q, w.root[n]) {
      assert At(q, n) == At(q, v.root[n]);
      MergeRoots(ly, v, a, b, n);
    }
  }

  lemma MergeSound(ly: Layout, v: FState, a: nat, b: nat, q: PtsGraph)
    requires CanMerge(ly, v, a, b) && Sound(v, q) && At(q, a) == At(q, b)
    ensures Sound(Merge(v, a, b), q)
  {
    MergeRespects(ly, v, a, b, q);
    hide At, ListsOk, LayoutOk, TargetsOk, Respects, Inherited, Joined;
  }

  lemma MergeCoarser(ly: Layout, v: FState, a: nat, b: nat, r: seq<nat>)
    requires CanMerge(ly, v, a, b) && Coarser(r, v.root)
    ensures |Merge(v, a, b).root| == |v.root| && Coarser(v.root, Merge(v, a, b).root) && Coarser(r, Merge(v, a, b).root)
  {
    var w := Merge(v, a, b);
    MergeCplx(v, a, b);
    assert |v.root| == |ly.sz| && forall n | 0 <= n < |v.root| :: v.root[n] < |v.root| && v.root[v.root[n]] == v.root[n];
    hide Merge, CanMerge;
    forall n | 0 <= n < |v.root| ensures w.root[v.root[n]] == w.root[n] {
      MergeRoots(ly, v, a, b, n);
      MergeRoots(ly, v, a, b, v.root[n]);
    }
    forall n | 0 <= n < |r| ensures w.root[r[n]] == w.root[n] {
      MergeRoots(ly, v, a, b, n);
      MergeRoots(ly, v, a, b, r[n]);
    }
  }

  lemma MergeMapsOn(ly: Layout, v: FState, a: nat, b: nat, hcd: map<nat, nat>)
    requires CanMerge(ly, v, a, b) && MapsOn(v, hcd) && TargetsOk(ly, hcd)
    ensures MapsOn(Merge(v, a, b), hcd)
  {
    var w := Merge(v, a, b);
    forall n | n in hcd ensures MapsAt(w, hcd, n) {
      var p := Rep(v, n);
      assert MapsAt(v, hcd, n);
      assert p in v.hcd && Rep(v, v.hcd[p]) == Rep(v, hcd[n]) && n < |v.root| && hcd[n] < |v.root|;
      MergeRoots(ly, v, a, b, n);
      var m := Rep(w, n);
      assert m in w.hcd && Rep(v, w.hcd[m]) == Rep(v, v.hcd[p]) && w.hcd[m] < |v.root|;
      hide Merge, CanMerge, MapsOn;
      MergeRoots(ly, v, a, b, w.hcd[m]);
      MergeRoots(ly, v, a, b, hcd[n]);
    }
  }

  lemma MergeMapsBack(ly: Layout, v: FState, a: nat, b: nat, hcd: map<nat, nat>)
    requires CanMerge(ly, v, a, b) && MapsBack(v, hcd) && TargetsOk(ly, hcd)
    ensures MapsBack(Merge(v, a, b), hcd)
  {
    var w := Merge(v, a, b);
    forall m | m in w.hcd ensures Inherits(w, hcd, m) {
      assert m != b;
      MergeHcd(ly, v, a, b, m);
      var x := if m in v.hcd then m else b;
      assert Inherits(v, hcd, x) && x < |v.root| && m < |v.root|;
      var n :| n in hcd && Rep(v, n) == Rep(v, x) && v.hcd[x] == hcd[n];
      hide Merge, MapsBack;
      MergeRoots(ly, v, a, b, n);
      MergeRoots(ly, v, a, b, x);
      MergeRoots(ly, v, a, b, m);
      assert Rep(v, a) == a && Rep(v, b) == b;
    }
  }

  lemma MergeOrigin(ly: Layout, v: FState, a: nat, b: nat, cs: seq<FieldConstraint>)
    requires CanMerge(ly, v, a, b) && Origin(v, cs) && FieldInRange(ly, cs)
    ensures Origin(Merge(v, a, b), cs)
  {
    var w := Merge(v, a, b);
    MergeCplx(v, a, b);
    forall k, n, id | 0 <= n < |List(w, k)| && id in List(w, k)[n] && id < |w.cplx| ensures Stems(w, w.cplx[id], cs) {
      assert |List(w, k)| == |v.root| && |List(v, k)| == |v.root|;
      MergeLists(ly, v, a, b, k, n);
      var m := if id in List(v, k)[n] then n else b;
      assert id in List(v, k)[m] && ListedOk(ly, v, k, m, id) && Stems(v, v.cplx[id], cs);
      hide Merge;
      MergeStems(ly, v, a, b, v.cplx[id], cs);
    }
  }

  lemma MergeStems(ly: Layout, v: FState, a: nat, b: nat, c: FieldConstraint, cs: seq<FieldConstraint>)
    requires CanMerge(ly, v, a, b) && Stems(v, c, cs) && FieldInRange(ly, cs) && c.dest < |v.root| && c.src < |v.root|
    ensures Stems(Merge(v, a, b), c, cs)
  {
    var w := Merge(v, a, b);
    var d :| d in cs && SameCons(v, c, d);
    assert CanEnter(ly, d) && |v.root| == |ly.sz|;
    hide CanMerge, Merge;
    MergeRoots(ly, v, a, b, c.dest);
    MergeRoots(ly, v, a, b, c.src);
    MergeRoots(ly, v, a, b, d.dest);
    MergeRoots(ly, v, a, b, d.src);
    assert SameCons(w, c, d);
  }

  /** Nodes that are equal in every tame graph can be merged: what is tame then was tame before. */
  lemma MergeSoundFor(ly: Layout, v: FState, a: nat, b: nat, t: Task)
    requires SoundFor(ly, v, t) && CanMerge(ly, v, a, b) && Agree(ly, t, v.root, a, b)
    ensures SoundFor(ly, Merge(v, a, b), t)
  {
    var w := Merge(v, a, b);
    assert |v.root| == |ly.sz| && FieldInRange(ly, t.cs) && TargetsOk(ly, t.hcd);
    hide CanMerge, Merge, TaskOk, MapsOn, MapsBack, Origin, Tame, Steady, Sound, Respects, At, FieldInRange, TargetsOk, Coarser;
    MergeCoarser(ly, v, a, b, t.root);
    MergeMapsOn(ly, v, a, b, t.hcd);
    MergeMapsBack(ly, v, a, b, t.hcd);
    MergeOrigin(ly, v, a, b, t.cs);
    forall q: PtsGraph | Tame(ly, t, q, w.root) ensures Sound(w, q) {
      TameFiner(ly, t, q, v.root, w.root);
      MergeSound(ly, v, a, b, q);
    }
    forall q: PtsGraph | Steady(ly, t, q) ensures Respects(q, w.root) {
      SteadyIsTame(ly, t, q, v.root);
      MergeRespects(ly, v, a, b, q);
    }
  }

  /** The edge to or from what hcd maps a pointer to is kept when the pointer is merged. */
  lemma MergeByHcd(ly: Layout, v: FState, a: nat, b: nat, c: FieldConstraint)
    requires CanMerge(ly, v, a, b) && c.dest < |v.root| && c.src < |v.root| && ByHcd(ly, v, c)
    ensures ByHcd(ly, Merge(v, a, b), c)
  {
    var w := Merge(v, a, b);
    var p := Rep(v, Pointer(c));
    MergeRoots(ly, v, a, b, Pointer(c));
    var m := Rep(w, Pointer(c));
    assert m in w.hcd && Rep(v, w.hcd[m]) == Rep(v, v.hcd[p]) && w.hcd[m] < |v.root|;
    hide CanMerge, Merge, HasEdge;
    if c.ty.Load? {
      MergeEdge(ly, v, a, b, w.hcd[m], c.dest);
    } else {
      MergeEdge(ly, v, a, b, c.src, w.hcd[m]);
    }
  }

  lemma MergeCovers(ly: Layout, v: FState, a: nat, b: nat, cs: seq<FieldConstraint>)
    requires CanMerge(ly, v, a, b) && CoversAll(ly, v, cs)
    ensures Sizes(ly, Merge(v, a, b)) && CoversAll(ly, Merge(v, a, b), cs)
  {
    MergeSizes(ly, v, a, b);
    hide CanMerge, Merge, Stated, ByHcd;
    forall c | c in cs ensures c.dest < |Merge(v, a, b).root| && c.src < |Merge(v, a, b).root| && Covers(ly, Merge(v, a, b), c) {
      assert Covers(ly, v, c);
      MergeCplx(v, a, b) by {
        CanMergeSizes(ly, v, a, b);
      }
      MergeCoversOne(ly, v, a, b, c);
    }
  }

  lemma CanMergeSizes(ly: Layout, v: FState, a: nat, b: nat)
    requires CanMerge(ly, v, a, b)
    ensures a < |v.root| && b < |v.root| && a != b
    ensures |v.root| == |v.pts| == |v.prev| == |v.copies| == |v.loads| == |v.stores| == |v.geps| == |ly.sz|
    ensures TargetsOk(ly, v.hcd) && (a in v.hcd && b in v.hcd ==> Rep(v, v.hcd[a]) == Rep(v, v.hcd[b]))
  {
  }

  /** What a listed constraint covers it still covers. */
  lemma MergeCoversListed(ly: Layout, v: FState, a: nat, b: nat, c: FieldConstraint, id: nat)
    requires CanMerge(ly, v, a, b) && c.dest < |v.root| && c.src < |v.root| && Sizes(ly, Merge(v, a, b))
    requires id in List(v, KindOf(c))[v.root[Pointer(c)]] && id < |v.cplx| && SameCons(v, v.cplx[id], c)
    ensures var w := Merge(v, a, b);
      |w.root| == |v.root| && id in List(w, KindOf(c))[w.root[Pointer(c)]] && id < |w.cplx| && SameCons(w, w.cplx[id], c)
  {
    var n := v.root[Pointer(c)];
    assert ListedOk(ly, v, KindOf(c), n, id);
    hide WellFormed, Merge, Joined;
    MergeRoots(ly, v, a, b, c.src);
    MergeRoots(ly, v, a, b, c.dest);
    MergeCplx(v, a, b);
    MergeLists(ly, v, a, b, KindOf(c), n);
    MergeLists(ly, v, a, b, KindOf(c), a);
    MergeRoots(ly, v, a, b, v.cplx[id].src);
    MergeRoots(ly, v, a, b, v.cplx[id].dest);
    hide List, ListedOk, CanMerge;
  }

  lemma MergeCopied(ly: Layout, v: FState, a: nat, b: nat, c: FieldConstraint)
    requires CanMerge(ly, v, a, b) && c.dest < |v.root| && c.src < |v.root| && c.ty.Copy? && Stated(ly, v, c) && Sizes(ly, Merge(v, a, b))
    ensures |Merge(v, a, b).root| == |v.root| && Stated(ly, Merge(v, a, b), c)
  {
    var w := Merge(v, a, b);
    MergeRoots(ly, v, a, b, c.src);
    MergeRoots(ly, v, a, b, c.dest);
    hide ListsOk, Inherited;
    if v.root[c.src] != v.root[c.dest] {
      var e :| e in v.copies[v.root[c.src]] && Rep(v, e) == v.root[c.dest];
      MergeRoots(ly, v, a, b, e);
      assert e in w.copies[w.root[c.src]] || w.root[c.src] == w.root[c.dest];
    }
  }

  lemma MergeStated(ly: Layout, v: FState, a: nat, b: nat, c: FieldConstraint)
    requires CanMerge(ly, v, a, b) && c.dest < |v.root| && c.src < |v.root| && Stated(ly, v, c) && Sizes(ly, Merge(v, a, b))
    ensures Stated(ly, Merge(v, a, b), c)
  {
    var w := Merge(v, a, b);
    MergeRoots(ly, v, a, b, c.src);
    MergeRoots(ly, v, a, b, c.dest);
    hide ListsOk, ByHcd, Inherited;
    match c.ty
    case AddrOf => MergePts(ly, v, a, b, c.dest);
    case Copy => MergeCopied(ly, v, a, b, c);
    case _ =>
      var id :| id in List(v, KindOf(c))[v.root[Pointer(c)]] && id < |v.cplx| && SameCons(v, v.cplx[id], c);
      hide Merge, CanMerge;
      MergeCoversListed(ly, v, a, b, c, id);
  }

  lemma MergeCoversOne(ly: Layout, v: FState, a: nat, b: nat, c: FieldConstraint)
    requires CanMerge(ly, v, a, b) && c.dest < |v.root| && c.src < |v.root| && Covers(ly, v, c) && Sizes(ly, Merge(v, a, b))
    requires |Merge(v, a, b).root| == |v.root|
    ensures Covers(ly, Merge(v, a, b), c)
  {
    hide CanMerge, Merge, ByHcd, Stated, Sizes;
    if ByHcd(ly, v, c) {
      MergeByHcd(ly, v, a, b, c);
    } else {
      MergeStated(ly, v, a, b, c);
    }
  }
}
