/** Merging nodes in the run, and the pointees of a pointer whose cycle was found before the run. */
module FieldCollapses {
  import opened Constraints
  import opened FieldConstraints
  import opened FieldStates
  import opened FieldTasks
  import opened FieldSteps
  import opened FieldMerge
  import opened FieldVisits

  // ----- Collapsing what a node points to -----

  /** Fewer representatives, or as many and progress. */
  ghost predicate Advances(v: FState, w: FState) {
    Live(w) < Live(v) || (Live(w) == Live(v) && Progress(v, w))
  }

  /** A visit to n began: d is new, and counts as propagated from now on. */
  ghost predicate Started(v0: FState, v: FState, n: nat, d: set<nat>) {
    && n in Live(v0) && n < |v0.pts| && n < |v0.prev| && v == v0.(prev := v0.prev[n := v0.pts[n]])
    && d == v0.pts[n] - v0.prev[n] && d != {}
  }

  /** n is to be solved for d, of which all is merged into hcdRep if that is not 0; s is what was solved before. */
  ghost predicate Visiting(ly: Layout, v0: FState, v: FState, n: nat, hcdRep: nat, d: set<nat>, s: set<nat>, open: set<nat>, t: Task) {
    && Solving(ly, v, open, n, s, t) && Target(v, n, hcdRep) && Together(ly, v, n, d)
    && n < |v.pts| && n < |v.prev| && d <= v.pts[n] && d != {} && (v.prev[n] == s + d || (v.prev[n] == {} && s == {}))
    && WellFormed(ly, v0) && n in Live(v0) && (Started(v0, v, n, d) || Live(v) < Live(v0))
  }

  /** After collapsing n is to be solved, unless it was merged away. */
  ghost predicate Outcome(ly: Layout, v0: FState, v: FState, n: nat, hcdRep: nat, d: set<nat>, s: set<nat>, open: set<nat>, t: Task) {
    if n in Live(v) then Visiting(ly, v0, v, n, hcdRep, d, s, open, t)
    else Between(ly, v, open, t) && Live(v) < Live(v0)
  }

  /** The state with what n had propagated before the visit, as long as n was not merged. */
  ghost function Back(v0: FState, v: FState, n: nat, kept: bool): FState {
    if kept && n < |v.prev| && n < |v0.prev| then v.(prev := v.prev[n := v0.prev[n]]) else v
  }

  /** d is what is new, all objects; h is a node to merge them with. */
  ghost predicate Agreed(ly: Layout, v0: FState, n: nat, h: nat, d: set<nat>) {
    && WellFormed(ly, v0) && n in Live(v0) && n < |v0.pts| && n < |v0.prev|
    && d == v0.pts[n] - v0.prev[n] && d != {} && 0 < h < |ly.sz| && h != ly.i2p
    && forall o | o in d :: IsObject(ly, o)
  }

  /** In every tame graph what is new has the set of h. */
  ghost predicate AllAgree(ly: Layout, t: Task, r: seq<nat>, d: set<nat>, h: nat) {
    forall o | o in d && o != ly.i2p :: Agree(ly, t, r, o, h)
  }

  /** All of done was merged with h, into hcdRep; kept says whether n was not merged itself. */
  ghost predicate Gathered(ly: Layout, v0: FState, v: FState, n: nat, h: nat, hcdRep: nat, done: set<nat>, kept: bool) {
    && WellFormed(ly, v) && |v.root| == |v0.root| && n < |v.root| && |v0.pts| == |v.pts| == |v.prev| == |v.root|
    && Rep(v, h) == hcdRep && hcdRep in Live(v) && hcdRep != ly.i2p
    && (forall o | o in done && o != ly.i2p :: Rep(v, o) == hcdRep)
    && (n in Live(v) ==> n in v.hcd && v.hcd[n] == h && v0.pts[n] <= v.pts[n])
    && (kept ==> n in Live(v) && v0.pts[n] == v.pts[n] == v.prev[n])
    && (!kept && n in Live(v) ==> n == hcdRep && v.prev[n] == {})
  }

  ghost predicate Collapsing(ly: Layout, v0: FState, v: FState, n: nat, h: nat, hcdRep: nat, d: set<nat>, todo: set<nat>, kept: bool,
                             open: set<nat>, t: Task) {
    && Agreed(ly, v0, n, h, d) && AllAgree(ly, t, v.root, d, h) && Gathered(ly, v0, v, n, h, hcdRep, d - todo, kept)
    && Between(ly, Back(v0, v, n, kept), open, t)
    && ((kept && Started(v0, v, n, d)) || Live(v) < Live(v0))
  }

  lemma StartedSizes(ly: Layout, v0: FState, v: FState, n: nat, d: set<nat>, open: set<nat>, t: Task)
    requires Started(v0, v, n, d) && Between(ly, v0, open, t)
    ensures n < |v.root| == |ly.sz| && n < |v0.prev| && v.hcd == v0.hcd
  {
  }

  lemma NotMapped(ly: Layout, v0: FState, v: FState, n: nat, d: set<nat>, open: set<nat>, open2: set<nat>, t: Task)
    requires Started(v0, v, n, d) && Between(ly, v0, open + {n}, t) && n !in v.hcd && open <= open2
    ensures Outcome(ly, v0, v, n, 0, d, v0.prev[n], open2, t)
  {
    assert WellFormed(ly, v0) && v0.prev[n] <= v0.pts[n];
    hide Between, Solving, WellFormed;
    BetweenOpen(ly, v0, open + {n}, open2 + {n}, t);
    StartNode(ly, v0, v, open2, n, t);
  }

  lemma CollapseStarts(ly: Layout, v0: FState, v: FState, n: nat, h: nat, hcdRep: nat, d: set<nat>, open: set<nat>, open2: set<nat>, t: Task)
    requires Started(v0, v, n, d) && Between(ly, v0, open, t) && open <= open2
    requires n in v.hcd && h == v.hcd[n] && hcdRep == Find(v.root, h)
    ensures Collapsing(ly, v0, v, n, h, hcdRep, d, d, true, open2, t) && hcdRep < |ly.sz|
  {
    assert d - d == {};
    hide At, Between, WellFormed, Back;
    AgreedStarts(ly, v0, v, n, h, d, open, t);
    AllAgreeStarts(ly, v0, v, n, h, d, open, t);
    GatheredStarts(ly, v0, v, n, h, hcdRep, d, open, t);
    BackIs(v0, v, n, d);
    BetweenOpen(ly, v0, open, open2, t);
  }

  lemma BackIs(v0: FState, v: FState, n: nat, d: set<nat>)
    requires Started(v0, v, n, d)
    ensures Back(v0, v, n, true) == v0
  {
  }

  lemma AgreedStarts(ly: Layout, v0: FState, v: FState, n: nat, h: nat, d: set<nat>, open: set<nat>, t: Task)
    requires Started(v0, v, n, d) && Between(ly, v0, open, t) && n in v.hcd && h == v.hcd[n]
    ensures Agreed(ly, v0, n, h, d)
  {
    assert WellFormed(ly, v0) && TargetsOk(ly, v0.hcd);
    assert forall o | o in d :: IsObject(ly, o);
    hide LoopInv, CoversAll, SoundFor, DataOk, ListsOk, LayoutOk;
  }

  lemma AllAgreeStarts(ly: Layout, v0: FState, v: FState, n: nat, h: nat, d: set<nat>, open: set<nat>, t: Task)
    requires Started(v0, v, n, d) && Between(ly, v0, open, t) && n in v.hcd && h == v.hcd[n]
    ensures v.root == v0.root && AllAgree(ly, t, v.root, d, h)
  {
    assert Sizes(ly, v0) && v.root == v0.root && v.hcd == v0.hcd && n < |v0.root|;
    assert forall o | o in d :: IsObject(ly, o) && o in v0.pts[n];
    hide LoopInv, CoversAll, SoundFor, Sizes, Tame, At, Started, Sound;
    forall o, q: PtsGraph | o in d && o != ly.i2p && Tame(ly, t, q, v.root) ensures At(q, o) == At(q, h) {
      SoundIn(ly, v0, t, q);
      SoundPts(v0, q, n);
      TargetEqual(ly, v0, t, q, n, o);
    }
  }

  lemma GatheredStarts(ly: Layout, v0: FState, v: FState, n: nat, h: nat, hcdRep: nat, d: set<nat>, open: set<nat>, t: Task)
    requires Started(v0, v, n, d) && Between(ly, v0, open, t) && n in v.hcd && h == v.hcd[n] && hcdRep == Find(v.root, h)
    ensures Gathered(ly, v0, v, n, h, hcdRep, {}, true) && hcdRep < |ly.sz|
  {
    assert WellFormed(ly, v0) && TargetsOk(ly, v0.hcd);
    PrevsBelow(ly, v0);
    hide LoopInv, CoversAll, SoundFor, DataOk, ListsOk, LayoutOk;
    PrevWellFormed(ly, v0, v);
  }

  lemma BackFacts(ly: Layout, v0: FState, v: FState, n: nat, kept: bool, open: set<nat>, t: Task)
    requires Between(ly, Back(v0, v, n, kept), open, t)
    ensures var u := Back(v0, v, n, kept);
      u.root == v.root && u.hcd == v.hcd && WellFormed(ly, u) && Sizes(ly, u) && SoundFor(ly, u, t) && TaskOk(ly, t)
  {
    hide CoversAll, Tame, Steady, Origin, MapsOn, MapsBack;
  }

  /** A new pointee other than i2p agrees with what n is mapped to, and so do what they stand for. */
  lemma CanCollapse(ly: Layout, v0: FState, v: FState, n: nat, h: nat, hcdRep: nat, d: set<nat>, todo: set<nat>, kept: bool,
                    open: set<nat>, t: Task, o: nat, x: nat)
    requires Collapsing(ly, v0, v, n, h, hcdRep, d, todo, kept, open, t) && o in d && x == Find(v.root, o) && x != hcdRep && x != ly.i2p
    ensures CanMerge(ly, v, hcdRep, x) && Agree(ly, t, v.root, hcdRep, x)
  {
    var u := Back(v0, v, n, kept);
    BackFacts(ly, v0, v, n, kept, open, t);
    assert IsObject(ly, o) && WellFormed(ly, v) && Rep(v, h) == hcdRep && 0 < h < |v.root| && h != ly.i2p;
    assert o < |v.root| && o != ly.i2p && o != 0;
    assert Agree(ly, t, v.root, o, h);
    hide Collapsing, Back, SoundFor, Agree, DataOk, ListsOk, LayoutOk, IsObject;
    assert Agree(ly, t, v.root, h, o) by {
      AgreeSwap(ly, t, v.root, o, h);
    }
    AgreeReps(ly, u, t, h, o);
    if hcdRep in v.hcd && x in v.hcd {
      SameTarget(ly, u, t, hcdRep, x);
    }
  }

  lemma AgreeSwap(ly: Layout, t: Task, r: seq<nat>, a: nat, b: nat)
    requires Agree(ly, t, r, a, b)
    ensures Agree(ly, t, r, b, a)
  {
    hide Tame, At;
  }

  /** Merging two representatives that agree keeps what holds between visits; the result is open. */
  lemma MergeBetween(ly: Layout, v: FState, open: set<nat>, a: nat, b: nat, t: Task)
    requires Between(ly, v, open, t) && CanMerge(ly, v, a, b) && Agree(ly, t, v.root, a, b)
    ensures Between(ly, Merge(v, a, b), open + {a}, t) && Live(Merge(v, a, b)) == Live(v) - {b}
  {
    hide WellFormed, CanMerge, Merge, LoopInv, CoversAll, SoundFor, Agree;
    MergeKeeps(ly, v, open, a, b);
    MergeSoundFor(ly, v, a, b, t);
    MergeCovers(ly, v, a, b, t.cs);
  }

  /** Of a merged node nothing counts as propagated, so it does not matter what did before. */
  lemma MergeBack(ly: Layout, v0: FState, v: FState, n: nat, kept: bool, a: nat, b: nat)
    requires CanMerge(ly, v, a, b) && n < |v.prev|
    ensures |Back(v0, v, n, kept).prev| == |v.prev|
    ensures |v.root| == |v.pts| == |v.prev| == |v.copies| == |v.loads| == |v.stores| == |v.geps| && a < |v.root| && b < |v.root|
    ensures Merge(Back(v0, v, n, kept), a, b) == Back(v0, Merge(v, a, b), n, kept && n != a && n != b)
  {
  }

  lemma BackCanMerge(ly: Layout, v0: FState, v: FState, n: nat, kept: bool, a: nat, b: nat)
    requires CanMerge(ly, v, a, b) && WellFormed(ly, Back(v0, v, n, kept))
    ensures CanMerge(ly, Back(v0, v, n, kept), a, b) && Live(Back(v0, v, n, kept)) == Live(v)
  {
    hide WellFormed;
  }

  /** The pointees merged so far stay merged, and o joins them. */
  lemma GatheredReps(ly: Layout, v: FState, h: nat, hcdRep: nat, a: nat, b: nat, done: set<nat>, o: nat, x: nat)
    requires CanMerge(ly, v, a, b) && h < |v.root| && o < |v.root| && x == Rep(v, o) && Rep(v, h) == hcdRep
    requires ((a == hcdRep && b == x) || (a == x && b == hcdRep)) && forall i | i in done && i != ly.i2p :: i < |v.root| && Rep(v, i) == hcdRep
    ensures var w := Merge(v, a, b);
      Rep(w, h) == a && forall i | i in done + {o} && i != ly.i2p :: Rep(w, i) == a
  {
    var w := Merge(v, a, b);
    hide CanMerge, Merge;
    MergeRoots(ly, v, a, b, h);
    forall i | i in done + {o} && i != ly.i2p ensures Rep(w, i) == a {
      MergeRoots(ly, v, a, b, i);
    }
  }

  /** The node itself keeps its entry, and what it had propagated if it is not merged. */
  lemma GatheredNode(ly: Layout, v: FState, n: nat, a: nat, b: nat)
    requires CanMerge(ly, v, a, b) && n < |v.root| && n in v.hcd && n in Live(v) && n != b
    ensures var w := Merge(v, a, b);
      && n in w.hcd && w.hcd[n] == v.hcd[n] && |w.pts| == |v.pts| == |w.prev| == |v.prev| == |v.root| && v.pts[n] <= w.pts[n]
      && (n != a ==> w.pts[n] == v.pts[n] && w.prev[n] == v.prev[n]) && (n == a ==> w.prev[n] == {})
  {
    MergeHcdKeeps(ly, v, a, b, n);
    hide Inherited;
  }

  lemma GatheredOne(ly: Layout, v0: FState, v: FState, n: nat, h: nat, hcdRep: nat, a: nat, b: nat, done: set<nat>, kept: bool, o: nat, x: nat)
    requires Gathered(ly, v0, v, n, h, hcdRep, done, kept) && CanMerge(ly, v, a, b) && h < |v.root| && o < |v.root| && x == Find(v.root, o)
    requires ((a == hcdRep && b == x) || (a == x && b == hcdRep)) && forall i | i in done && i != ly.i2p :: i < |v.root|
    ensures Gathered(ly, v0, Merge(v, a, b), n, h, a, done + {o}, kept && n != a && n != b)
    ensures Live(Merge(v, a, b)) == Live(v) - {b}
  {
    var w := Merge(v, a, b);
    MergeWellFormed(ly, v, a, b);
    MergeCplx(v, a, b);
    assert a in Live(v) && a != b && a != ly.i2p && |w.pts| == |w.prev| == |w.root| == |v.root|;
    hide CanMerge, Merge, WellFormed, Live;
    GatheredReps(ly, v, h, hcdRep, a, b, done, o, x);
    if n in Live(w) {
      GatheredNode(ly, v, n, a, b);
    }
  }

  lemma CollapsedOne(ly: Layout, v0: FState, v: FState, w: FState, n: nat, h: nat, hcdRep: nat, m: nat, b: nat, d: set<nat>, left: set<nat>, kept: bool,
                     open: set<nat>, open2: set<nat>, t: Task, o: nat, x: nat)
    requires Collapsing(ly, v0, v, n, h, hcdRep, d, left + {o}, kept, open, t) && o in d && o !in left && left <= d
    requires x == Find(v.root, o) && CanMerge(ly, v, hcdRep, x) && Agree(ly, t, v.root, hcdRep, x)
    requires m in {hcdRep, x} && b == (if m == hcdRep then x else hcdRep) && Merged(v, w, m, b)
    requires m in open2 && forall i | i in open && i != hcdRep :: i in open2
    ensures Collapsing(ly, v0, w, n, h, m, d, left, kept && n != hcdRep && n != x, open2, t) && m < |ly.sz|
  {
    hide *;
    CollapsingParts(ly, v0, v, n, h, hcdRep, d, left + {o}, kept, open, t, o);
    SwapMerge(ly, v, hcdRep, x);
    GatheredOne(ly, v0, v, n, h, hcdRep, m, b, d - (left + {o}), kept, o, x);
    assert d - (left + {o}) + {o} == d - left;
    AgreeSwap(ly, t, v.root, hcdRep, x);
    BackMerges(ly, v0, v, n, kept, m, b, open, open2, t, hcdRep, x);
    MergedIs(v, w, m, b);
    MergedAgree(ly, v0, v, n, kept, m, b, d, h, open, t);
    assert (kept && n != m && n != b) == (kept && n != hcdRep && n != x);
    CollapsingWhole(ly, v0, v, w, n, h, hcdRep, m, d, left + {o}, left, kept, kept && n != m && n != b, open, open2, t, b);
  }

  lemma SwapMerge(ly: Layout, v: FState, a: nat, b: nat)
    requires CanMerge(ly, v, a, b)
    ensures CanMerge(ly, v, b, a) && a != b && a in Live(v) && b in Live(v)
  {
    hide WellFormed;
  }

  lemma MergedIs(v: FState, w: FState, a: nat, b: nat)
    requires Merged(v, w, a, b)
    ensures a < |v.root| && b < |v.root| && |v.root| == |v.pts| == |v.prev| == |v.copies| == |v.loads| == |v.stores| == |v.geps|
    ensures w == Merge(v, a, b)
  {
  }

  lemma CollapsingParts(ly: Layout, v0: FState, v: FState, n: nat, h: nat, hcdRep: nat, d: set<nat>, todo: set<nat>, kept: bool,
                        open: set<nat>, t: Task, o: nat)
    requires Collapsing(ly, v0, v, n, h, hcdRep, d, todo, kept, open, t) && o in d
    ensures Agreed(ly, v0, n, h, d) && AllAgree(ly, t, v.root, d, h) && Gathered(ly, v0, v, n, h, hcdRep, d - todo, kept)
    ensures Between(ly, Back(v0, v, n, kept), open, t)
    ensures n < |v.prev| && o < |v.root| && h < |v.root| && forall i | i in d - todo && i != ly.i2p :: i < |v.root|
  {
    CollapseRange(ly, v0, v, n, h, hcdRep, d, todo, kept, open, t, o);
    hide Agreed, AllAgree, Gathered, Between;
  }

  lemma MergedAgree(ly: Layout, v0: FState, v: FState, n: nat, kept: bool, a: nat, b: nat, d: set<nat>, h: nat, open: set<nat>, t: Task)
    requires Between(ly, Back(v0, v, n, kept), open, t) && CanMerge(ly, v, a, b) && AllAgree(ly, t, v.root, d, h)
    ensures |v.root| == |v.pts| == |v.prev| == |v.copies| == |v.loads| == |v.stores| == |v.geps| && a < |v.root| && b < |v.root|
    ensures AllAgree(ly, t, Merge(v, a, b).root, d, h)
  {
    CanMergeSizes(ly, v, a, b);
    BackFacts(ly, v0, v, n, kept, open, t);
    hide Between, Back, CanMerge, Merge, SoundFor, TaskOk, Agree, Sizes;
    RootCoarser(ly, v, t, Back(v0, v, n, kept));
    MergeCoarser(ly, v, a, b, t.root);
    forall o | o in d && o != ly.i2p ensures Agree(ly, t, Merge(v, a, b).root, o, h) {
      AgreeFiner(ly, t, v.root, Merge(v, a, b).root, o, h);
    }
  }

  lemma RootCoarser(ly: Layout, v: FState, t: Task, u: FState)
    requires SoundFor(ly, u, t) && u.root == v.root
    ensures Coarser(t.root, v.root)
  {
    hide Tame, Steady, Origin, MapsOn, MapsBack;
  }

  /** Merging keeps what holds between visits also with n put back as it was. */
  lemma BackMerges(ly: Layout, v0: FState, v: FState, n: nat, kept: bool, m: nat, b: nat,
                   open: set<nat>, open2: set<nat>, t: Task, hcdRep: nat, x: nat)
    requires Between(ly, Back(v0, v, n, kept), open, t) && CanMerge(ly, v, m, b) && Agree(ly, t, v.root, m, b) && n < |v.prev|
    requires m in open2 && b in {hcdRep, x} && (b == hcdRep || m == hcdRep) && forall i | i in open && i != hcdRep :: i in open2
    ensures |v.root| == |v.pts| == |v.prev| == |v.copies| == |v.loads| == |v.stores| == |v.geps| && m < |v.root| && b < |v.root|
    ensures Between(ly, Back(v0, Merge(v, m, b), n, kept && n != m && n != b), open2, t)
  {
    var u := Back(v0, v, n, kept);
    hide WellFormed, CanMerge, Agree, Merge, Back, Between, Live, SoundFor, Sizes;
    BackFacts(ly, v0, v, n, kept, open, t);
    BackCanMerge(ly, v0, v, n, kept, m, b);
    MergeBetween(ly, u, open, m, b, t);
    MergeBack(ly, v0, v, n, kept, m, b);
    BetweenOpen(ly, Back(v0, Merge(v, m, b), n, kept && n != m && n != b), open + {m}, open2, t);
  }

  lemma CollapsingWhole(ly: Layout, v0: FState, v: FState, w: FState, n: nat, h: nat, hcdRep: nat, m: nat, d: set<nat>, todo: set<nat>, left: set<nat>,
                        kept: bool, kept2: bool, open: set<nat>, open2: set<nat>, t: Task, b: nat)
    requires Collapsing(ly, v0, v, n, h, hcdRep, d, todo, kept, open, t) && Gathered(ly, v0, w, n, h, m, d - left, kept2)
    requires AllAgree(ly, t, w.root, d, h)
    requires Between(ly, Back(v0, w, n, kept2), open2, t) && b in Live(v) && Live(w) == Live(v) - {b}
    ensures Collapsing(ly, v0, w, n, h, m, d, left, kept2, open2, t) && m < |ly.sz|
  {
    GatheredRange(ly, v0, w, n, h, m, d - left, kept2);
    hide Agreed, AllAgree, Gathered, Between, Back, Live, Started;
    assert Live(v) <= Live(v0) by {
      CollapsingLive(ly, v0, v, n, h, hcdRep, d, todo, kept, open, t);
    }
  }

  lemma GatheredRange(ly: Layout, v0: FState, v: FState, n: nat, h: nat, hcdRep: nat, done: set<nat>, kept: bool)
    requires Gathered(ly, v0, v, n, h, hcdRep, done, kept)
    ensures hcdRep < |ly.sz|
  {
    hide DataOk, ListsOk, LayoutOk;
  }

  lemma CollapsingLive(ly: Layout, v0: FState, v: FState, n: nat, h: nat, hcdRep: nat, d: set<nat>, todo: set<nat>, kept: bool,
                       open: set<nat>, t: Task)
    requires Collapsing(ly, v0, v, n, h, hcdRep, d, todo, kept, open, t)
    ensures Live(v) <= Live(v0)
  {
    hide Agreed, AllAgree, Gathered, Between, Back;
  }

  lemma CollapseRange(ly: Layout, v0: FState, v: FState, n: nat, h: nat, hcdRep: nat, d: set<nat>, todo: set<nat>, kept: bool,
                      open: set<nat>, t: Task, o: nat)
    requires Collapsing(ly, v0, v, n, h, hcdRep, d, todo, kept, open, t) && o in d
    ensures |v.root| == |ly.sz| && n < |v.prev| && o < |v.root| && h < |v.root| && forall i | i in d && i != ly.i2p :: i < |v.root|
  {
    assert ly.i2p < |v.root| by {
      assert WellFormed(ly, v);
    }
    hide Between, AllAgree, LayoutOk, DataOk, ListsOk;
  }

  lemma CollapsedAlready(ly: Layout, v0: FState, v: FState, n: nat, h: nat, hcdRep: nat, d: set<nat>, left: set<nat>, kept: bool,
                         open: set<nat>, t: Task, o: nat, x: nat)
    requires Collapsing(ly, v0, v, n, h, hcdRep, d, left + {o}, kept, open, t) && o in d
    requires x == Find(v.root, o) && (x == hcdRep || x == ly.i2p)
    ensures Collapsing(ly, v0, v, n, h, hcdRep, d, left, kept, open, t)
  {
    assert o == ly.i2p || Rep(v, o) == hcdRep by {
      CollapseRange(ly, v0, v, n, h, hcdRep, d, left + {o}, kept, open, t, o);
      assert WellFormed(ly, v);
      RepOfI2p(ly, v, o);
    }
    hide Between, Agreed, AllAgree, WellFormed, Back, Started;
    assert forall i | i in d - left :: i == o || i in d - (left + {o});
  }

  lemma LoopToNode(ly: Layout, v: FState, open: set<nat>, n: nat)
    requires LoopInv(ly, v, open) && n in open && n in Live(v) && n < |v.prev| && v.prev[n] == {}
    ensures NodeInv(ly, v, open, n, {})
  {
    hide ClosedFor, WellFormed;
  }

  /** n itself was merged: it is solved as a node of which nothing was propagated. */
  lemma MergedVisit(ly: Layout, v0: FState, v: FState, n: nat, h: nat, hcdRep: nat, d: set<nat>,
                    open: set<nat>, open2: set<nat>, t: Task)
    requires Collapsing(ly, v0, v, n, h, hcdRep, d, {}, false, open, t) && n in Live(v)
    requires hcdRep in open2 && forall i | i in open && i != n :: i in open2
    ensures Solving(ly, v, open2, n, {}, t) && v.prev[n] == {}
  {
    assert n == hcdRep && Back(v0, v, n, false) == v && n < |v.prev| && v.prev[n] == {};
    hide WellFormed, LoopInv, NodeInv, CoversAll, SoundFor, Agreed, AllAgree;
    BetweenOpen(ly, v, open, open2, t);
    LoopToNode(ly, v, open2, n);
  }

  lemma KeptVisit(ly: Layout, v0: FState, v: FState, n: nat, h: nat, hcdRep: nat, d: set<nat>,
                  open: set<nat>, open2: set<nat>, t: Task)
    requires Collapsing(ly, v0, v, n, h, hcdRep, d, {}, true, open, t)
    requires forall i | i in open && i != n :: i in open2
    ensures n < |v0.prev| && n < |v.prev| && n < |v.pts| && Solving(ly, v, open2, n, v0.prev[n], t) && v.prev[n] == v.pts[n]
  {
    var u := Back(v0, v, n, true);
    assert n < |v.prev| && n < |v0.prev| && n < |v.pts| && u == v.(prev := v.prev[n := v0.prev[n]]) && v.prev[n] == v.pts[n] && n in Live(u);
    assert v == u.(prev := u.prev[n := u.pts[n]]);
    hide Back, Gathered, Agreed, AllAgree, Between, Solving, WellFormed, Started, Live;
    BetweenOpen(ly, u, open, open2 + {n}, t);
    StartNode(ly, u, v, open2, n, t);
  }

  lemma VisitFacts(ly: Layout, v0: FState, v: FState, n: nat, h: nat, hcdRep: nat, d: set<nat>, kept: bool,
                   open: set<nat>, t: Task)
    requires Collapsing(ly, v0, v, n, h, hcdRep, d, {}, kept, open, t) && n in Live(v)
    ensures Target(v, n, hcdRep) && Together(ly, v, n, d)
    ensures n < |v.pts| && n < |v.prev| && n < |v0.prev| && d <= v.pts[n] && d != {} && (kept ==> v.pts[n] == v0.prev[n] + d)
    ensures WellFormed(ly, v0) && n in Live(v0) && (Started(v0, v, n, d) || Live(v) < Live(v0))
  {
    assert v0.prev[n] <= v0.pts[n];
    assert d - {} == d;
    assert hcdRep != 0 by {
      assert WellFormed(ly, v);
    }
    hide WellFormed, Between, Back, AllAgree;
  }

  lemma CollapseEnds(ly: Layout, v0: FState, v: FState, n: nat, h: nat, hcdRep: nat, d: set<nat>, kept: bool,
                     open: set<nat>, open2: set<nat>, t: Task)
    requires Collapsing(ly, v0, v, n, h, hcdRep, d, {}, kept, open, t)
    requires hcdRep in open2 && forall i | i in open && i != n :: i in open2
    ensures n < |v0.prev| && Outcome(ly, v0, v, n, hcdRep, d, if kept then v0.prev[n] else {}, open2, t)
  {
    assert n < |v0.prev|;
    hide Collapsing, Solving, WellFormed, Target, Together, Between, Started;
    if n in Live(v) {
      VisitFacts(ly, v0, v, n, h, hcdRep, d, kept, open, t);
      if kept {
        KeptVisit(ly, v0, v, n, h, hcdRep, d, open, open2, t);
      } else {
        MergedVisit(ly, v0, v, n, h, hcdRep, d, open, open2, t);
      }
    } else {
      GoneVisit(ly, v0, v, n, h, hcdRep, d, kept, open, t);
      BetweenOpen(ly, v, open, open2, t);
    }
  }

  lemma GoneVisit(ly: Layout, v0: FState, v: FState, n: nat, h: nat, hcdRep: nat, d: set<nat>, kept: bool,
                  open: set<nat>, t: Task)
    requires Collapsing(ly, v0, v, n, h, hcdRep, d, {}, kept, open, t) && n !in Live(v)
    ensures Between(ly, v, open, t) && Live(v) < Live(v0)
  {
    assert !kept && Back(v0, v, n, kept) == v;
    hide WellFormed, Between, AllAgree;
  }

  // ----- The rest of a visit -----

  /** All three lists of n were applied to d. */
  ghost predicate AllDoneFor(ly: Layout, v: FState, n: nat, d: set<nat>) {
    DoneFor(ly, v, KLoad, n, d) && DoneFor(ly, v, KStore, n, d) && DoneFor(ly, v, KGep, n, d)
  }

  lemma AllDone(ly: Layout, v: FState, n: nat, d: set<nat>)
    requires forall j | j in {} + {KLoad} + {KStore} + {KGep} :: DoneFor(ly, v, j, n, d)
    ensures AllDoneFor(ly, v, n, d)
  {
    hide DoneFor;
    assert KLoad in {} + {KLoad} + {KStore} + {KGep} && KStore in {} + {KLoad} + {KStore} + {KGep} && KGep in {} + {KLoad} + {KStore} + {KGep};
  }

  lemma GrowsAllDone(ly: Layout, v: FState, w: FState, n: nat, d: set<nat>)
    requires Grows(v, w) && AllDoneFor(ly, v, n, d)
    ensures AllDoneFor(ly, w, n, d)
  {
    hide Grows, DoneFor;
    GrowsDone(ly, v, w, KLoad, n, d);
    GrowsDone(ly, v, w, KStore, n, d);
    GrowsDone(ly, v, w, KGep, n, d);
  }

  lemma VisitBegins(ly: Layout, v0: FState, v: FState, n: nat, hcdRep: nat, d: set<nat>, s: set<nat>, open: set<nat>, t: Task)
    requires Visiting(ly, v0, v, n, hcdRep, d, s, open, t)
    ensures Solving(ly, v, open, n, s, t) && Begun(ly, v, n, KLoad, d, {}) && Target(v, n, hcdRep)
  {
    SolvingSizes(ly, v, open, n, s, t);
    hide Solving, WellFormed, Together, Started;
  }

  lemma VisitEnds(ly: Layout, v0: FState, v: FState, w: FState, n: nat, hcdRep: nat, d: set<nat>, s: set<nat>,
                  open: set<nat>, open2: set<nat>, t: Task)
    requires Visiting(ly, v0, v, n, hcdRep, d, s, open, t) && Evolves(v, w) && Solving(ly, w, open2, n, s, t)
    requires AllDoneFor(ly, w, n, d) && n < |w.copies| && Copied(w, n, d)
    ensures Between(ly, w, open2, t) && w.root == v.root && Advances(v0, w)
  {
    VisitCloses(ly, v0, v, w, n, hcdRep, d, s, open, open2, t);
    SolvingSizes(ly, w, open2, n, s, t);
    hide NodeInv, LoopInv, WellFormed, CoversAll, SoundFor, DoneFor, Copied, Together, Solving;
    assert Live(w) == Live(v);
    if Started(v0, v, n, d) {
      SolvedProgress(ly, v0, v, w, n);
    }
  }

  lemma VisitCloses(ly: Layout, v0: FState, v: FState, w: FState, n: nat, hcdRep: nat, d: set<nat>, s: set<nat>,
                    open: set<nat>, open2: set<nat>, t: Task)
    requires Visiting(ly, v0, v, n, hcdRep, d, s, open, t) && Evolves(v, w) && Solving(ly, w, open2, n, s, t)
    requires AllDoneFor(ly, w, n, d) && n < |w.copies| && Copied(w, n, d)
    ensures Between(ly, w, open2, t)
  {
    assert w.prev == v.prev && d <= w.pts[n] && Together(ly, w, n, d);
    hide ClosedFor, WellFormed, CoversAll, SoundFor, DoneFor, Copied, Together, Started, Evolves;
    if v.prev[n] == s + d {
      NodeDone(ly, w, open2, n, s, d);
    } else {
      NodeAgain(ly, w, open2, n);
    }
  }

  lemma OutcomeIs(ly: Layout, v0: FState, v: FState, n: nat, hcdRep: nat, d: set<nat>, s: set<nat>, open: set<nat>, t: Task)
    requires Outcome(ly, v0, v, n, hcdRep, d, s, open, t) && n < |ly.sz|
    ensures |v.root| == |ly.sz|
    ensures if v.root[n] == n then n in Live(v) && Visiting(ly, v0, v, n, hcdRep, d, s, open, t)
            else Between(ly, v, open, t) && Advances(v0, v)
    ensures |v.root| == |v.copies| == |v.loads| == |v.stores| == |v.geps|
    ensures v.root[n] != n ==> v.copies[n] == v.loads[n] == v.stores[n] == v.geps[n] == {}
  {
    assert WellFormed(ly, v);
    if v.root[n] != n {
      forall k, id | 0 <= n < |List(v, k)| && id in List(v, k)[n] ensures false {
      }
      assert List(v, KLoad)[n] == List(v, KStore)[n] == List(v, KGep)[n] == {};
    }
    hide Visiting, Between, ListsOk, SoundFor, ListedOk;
  }

  // ----- What merge_nodes does to ranks and visit times -----

  ghost predicate Merged(v: FState, w: FState, a: nat, b: nat) {
    && a < |v.root| && b < |v.root| && |v.root| == |v.pts| == |v.prev| == |v.copies| == |v.loads| == |v.stores| == |v.geps|
    && w == Merge(v, a, b)
  }

  /** The lesser of the visit times of a and b becomes that of a. */
  function Sooner(vt: seq<nat>, a: nat, b: nat): seq<nat> {
    if a < |vt| && b < |vt| && vt[b] < vt[a] then vt[a := vt[b]] else vt
  }

  // ----- The run -----

  /** Something that the run can do only finitely often was done. */
  ghost predicate Smaller(v: FState, q: nat, w: FState, r: nat) {
    || Live(w) < Live(v)
    || (Live(w) == Live(v) && Missing(w) < Missing(v))
    || (Live(w) == Live(v) && Missing(w) == Missing(v) && Unpropagated(w) < Unpropagated(v))
    || (Live(w) == Live(v) && Missing(w) == Missing(v) && Unpropagated(w) == Unpropagated(v) && r < q)
  }

  lemma SmallerAfter(v: FState, q: nat, v1: FState, q1: nat, w: FState, r: nat)
    requires (v1 == v && q1 < q) || Advances(v, v1)
    requires (w == v1 && r == q1) || Live(w) < Live(v1)
    ensures Smaller(v, q, w, r)
  {
  }
}
