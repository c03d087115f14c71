/** Lazy cycle detection in the field-sensitive solver.

    It is the same variant of Tarjan's algorithm as in the other analysis, run on the copy edges
    between representatives.  The nodes of a component are merged in mid-search, as soon as it is
    found, so the client's state is all of the solver's state that merging changes.
 */
module FieldCycles {
  import opened Constraints
  import opened Graphs
  import opened CycleDetectors
  import opened FieldConstraints
  import opened FieldStates
  import opened FieldTasks
  import opened FieldMerge
  import opened FieldVisits
  import opened FieldCollapses

  /** The copy edges between representatives. */
  function CopyGraph(v: FState): Graph {
    map n | n in Live(v) && n < |v.copies| :: set e | e in v.copies[n] && Rep(v, e) in Live(v) :: Rep(v, e)
  }

  ghost function Base(v: FState): map<nat, nat> {
    map i: nat | i < |v.root| :: Rep(v, i)
  }

  lemma GraphOk(ly: Layout, v: FState)
    requires WellFormed(ly, v)
    ensures var g, base := CopyGraph(v), Base(v);
      && Closed(g) && g.Keys == Live(v)
      && (forall i | i in base :: base[i] in g)
      && (forall n | n in g :: n in base && base[n] == n)
  {
    var g := CopyGraph(v);
    assert |v.copies| == |v.root| && IsRep(v.root);
    forall n, m | n in g && m in g[n] ensures m in g {
      assert m in Live(v);
    }
    forall i: nat | i < |v.root| ensures Rep(v, i) in g {
      assert Rep(v, i) == v.root[i] && v.root[i] in Live(v);
    }
    hide WellFormed;
  }

  lemma {:induction false} SoundAlong(ly: Layout, v: FState, q: PtsGraph, p: seq<nat>)
    requires WellFormed(ly, v) && Sound(v, q) && IsPath(CopyGraph(v), p)
    ensures At(q, p[0]) <= At(q, p[|p| - 1])
    decreases |p|
  {
    if |p| > 1 {
      assert p[1] in Succ(CopyGraph(v), p[0]);
      var e :| e in v.copies[p[0]] && Rep(v, e) == p[1];
      assert At(q, p[0]) <= At(q, e) && At(q, e) == At(q, v.root[e]);
      var r := p[1..];
      assert forall i | 0 <= i < |r| :: r[i] == p[i + 1];
      hide WellFormed, Sound, Respects, At, Live, Rep;
      SoundAlong(ly, v, q, r);
    }
  }

  /** In every solution that covers the state, nodes on a cycle have one points-to set. */
  lemma CycleIsEqual(ly: Layout, v: FState, q: PtsGraph, x: nat, y: nat)
    requires WellFormed(ly, v) && Sound(v, q) && Mutual(CopyGraph(v), x, y)
    ensures At(q, x) == At(q, y)
  {
    var p: seq<nat> :| Joins(CopyGraph(v), p, x, y);
    var r: seq<nat> :| Joins(CopyGraph(v), r, y, x);
    hide WellFormed, Sound, At, CopyGraph;
    SoundAlong(ly, v, q, p);
    SoundAlong(ly, v, q, r);
  }

  // ----- The detector's client -----

  /** The state of the solver that merging changes, and whether a node was merged since the last report. */
  datatype Lcd = Lcd(v: FState, rank: seq<nat>, vt: seq<nat>, next: map<nat, nat>, chg: bool)

  predicate HasNodes(s: Lcd, a: nat, b: nat) {
    && a != b && a < |s.v.root| && b < |s.v.root|
    && |s.v.root| == |s.v.pts| == |s.v.prev| == |s.v.copies| == |s.v.loads| == |s.v.stores| == |s.v.geps| == |s.rank| == |s.vt|
  }

  /** merge_nodes. */
  function Unite(s: Lcd, n1: nat, n2: nat): Lcd
    requires HasNodes(s, n1, n2)
  {
    var a, b := if s.rank[n1] < s.rank[n2] then n2 else n1, if s.rank[n1] < s.rank[n2] then n1 else n2;
    s.(v := Merge(s.v, a, b), rank := if s.rank[n1] == s.rank[n2] then s.rank[n1 := s.rank[n1] + 1] else s.rank, vt := Sooner(s.vt, a, b))
  }

  /** A node popped from the stack is merged with what its root stands for now. */
  function UniteStep(s: Lcd, node: nat, root: nat): Lcd {
    var n, rn2 := Find(s.v.root, root), Find(s.v.root, node);
    (if HasNodes(s, n, rn2) then Unite(s, n, rn2) else s).(chg := true)
  }

  /** If anything was merged the result is queued. */
  function RootStep(s: Lcd, root: nat): Lcd {
    var n := Find(s.v.root, root);
    if s.chg && n < |s.vt| then s.(next := s.next[n := s.vt[n]], chg := false) else s.(chg := false)
  }

  const UNITER: Client<Lcd> := Client(
    (s: Lcd, i: nat) => (s, Find(s.v.root, i)),
    (s: Lcd, n: nat) => if n < |s.v.copies| then s.v.copies[n] else {},
    UniteStep, RootStep)

  // ----- Merging the nodes of one component -----

  /** The nodes of comp can be merged one after the other. */
  ghost predicate Collapsible(ly: Layout, v: FState, comp: seq<nat>, t: Task) {
    && comp != [] && NoDups(comp)
    && (forall x | x in comp :: x in Live(v) && x != ly.i2p && x != 0)
    && (forall x, y | x in comp && y in comp :: Agree(ly, t, v.root, x, y))
  }

  /** Nothing but nodes of comp was merged, and among themselves. */
  ghost predicate Apart(v: FState, w: FState, comp: set<nat>) {
    && |w.root| == |v.root| && |w.copies| == |v.copies| && Live(w) <= Live(v) && Coarser(v.root, w.root)
    && (forall i | 0 <= i < |v.root| :: if v.root[i] in comp then w.root[i] in comp else w.root[i] == v.root[i])
    && (forall x | 0 <= x < |v.copies| && x !in comp :: w.copies[x] == v.copies[x])
  }

  /** The first i nodes of comp are merged into n. */
  ghost predicate CyclePart(ly: Layout, v0: FState, v: FState, comp: seq<nat>, i: nat, n: nat, t: Task) {
    && Collapsible(ly, v0, comp, t) && 1 <= i <= |comp| && n in comp[..i] && n in Live(v)
    && (forall j | 0 <= j < i :: Rep(v, comp[j]) == n) && (forall j | i <= j < |comp| :: comp[j] in Live(v))
    && Apart(v0, v, Elems(comp)) && |v.root| == |ly.sz| && (i > 1 ==> Live(v) < Live(v0))
  }

  ghost predicate LcdSizes(ly: Layout, s: Lcd) {
    |s.vt| == |s.rank| == |s.v.root| == |ly.sz| && forall m | m in s.next :: m < |ly.sz|
  }

  /** From s to w the first i nodes of comp were merged into n, which is to be queued. */
  ghost predicate Uniting(ly: Layout, curr: map<nat, nat>, t: Task,
                          s: Lcd, w: Lcd, comp: seq<nat>, i: nat, n: nat) {
    && CyclePart(ly, s.v, w.v, comp, i, n, t) && LcdSizes(ly, w) && w.next == s.next && w.chg == (i > 1)
    && Between(ly, w.v, OpenIn(curr, w.next, w.vt) + (if i > 1 then {n} else {}), t)
  }

  lemma FirstOfCycle(ly: Layout, v: FState, comp: seq<nat>, t: Task)
    requires Collapsible(ly, v, comp, t) && |v.root| == |ly.sz| && IsRep(v.root)
    ensures CyclePart(ly, v, v, comp, 1, comp[0], t)
  {
    hide Agree;
    assert comp[0] in comp && comp[0] in comp[..1];
    forall j | 0 <= j < |comp| ensures comp[j] in Live(v) {
      assert comp[j] in comp;
    }
  }

  lemma NextOfCycle(ly: Layout, v0: FState, v: FState, comp: seq<nat>, i: nat, n: nat, open: set<nat>, t: Task)
    requires CyclePart(ly, v0, v, comp, i, n, t) && i < |comp| && Between(ly, v, open, t)
    ensures CanMerge(ly, v, n, comp[i]) && Agree(ly, t, v.root, n, comp[i]) && comp[i] in Live(v) && Rep(v, comp[i]) == comp[i] && Rep(v, comp[0]) == n
  {
    var j :| 0 <= j < i && comp[j] == n;
    BetweenParts(ly, v, open, t);
    assert comp[j] in comp && comp[i] in comp;
    assert Agree(ly, t, v0.root, n, comp[i]) && n != comp[i] && n != 0 && comp[i] != 0 && Tracked(ly, n, comp[i]);
    assert Coarser(v0.root, v.root) && n in Live(v) && comp[i] in Live(v);
    hide WellFormed, Between, Agree, Coarser, SoundFor, TaskOk, CyclePart, Sizes;
    AgreeFiner(ly, t, v0.root, v.root, n, comp[i]);
    if n in v.hcd && comp[i] in v.hcd {
      SameTarget(ly, v, t, n, comp[i]);
    }
  }

  lemma BetweenParts(ly: Layout, v: FState, open: set<nat>, t: Task)
    requires Between(ly, v, open, t)
    ensures WellFormed(ly, v) && Sizes(ly, v) && SoundFor(ly, v, t) && TaskOk(ly, t) && IsRep(v.root)
  {
    hide ClosedFor, CoversAll, Tame, Steady, Origin, MapsOn, MapsBack, OneTarget;
  }

  lemma MergeOthers(ly: Layout, v: FState, a: nat, b: nat)
    requires CanMerge(ly, v, a, b)
    ensures var w := Merge(v, a, b);
      && |w.root| == |v.root| && |w.copies| == |v.copies| && Live(w) == Live(v) - {b}
      && (forall x | 0 <= x < |v.copies| && x != a && x != b :: w.copies[x] == v.copies[x])
      && (forall i | 0 <= i < |v.root| :: w.root[i] == if v.root[i] == b then a else v.root[i])
  {
    MergeSizes(ly, v, a, b);
    CanMergeSizes(ly, v, a, b);
    hide WellFormed, CanMerge, Sizes, DataOk;
    forall i | 0 <= i < |v.root| ensures Merge(v, a, b).root[i] == if v.root[i] == b then a else v.root[i] {
      MergeRoots(ly, v, a, b, i);
    }
  }

  lemma ApartNext(ly: Layout, v0: FState, v: FState, comp: set<nat>, a: nat, b: nat)
    requires Apart(v0, v, comp) && CanMerge(ly, v, a, b) && a in comp && b in comp
    ensures Apart(v0, Merge(v, a, b), comp) && Live(Merge(v, a, b)) == Live(v) - {b}
  {
    hide Merge, CanMerge, Live, Coarser;
    MergeOthers(ly, v, a, b);
    MergeCoarser(ly, v, a, b, v0.root);
  }

  /** The node that the first ones were merged into is one of them, and no node comes twice. */
  lemma CycleNames(ly: Layout, v0: FState, v: FState, comp: seq<nat>, i: nat, n: nat, t: Task)
    requires CyclePart(ly, v0, v, comp, i, n, t) && i < |comp|
    ensures n in comp && comp[i] in comp && comp[i] in comp[..i + 1] && n in comp[..i + 1]
    ensures Rep(v, comp[i]) == comp[i] && forall k | i + 1 <= k < |comp| :: comp[k] != n && comp[k] != comp[i]
    ensures forall j | 0 <= j <= i :: comp[j] < |v.root|
  {
    assert forall j | 0 <= j < |comp| :: comp[j] in comp;
    hide Agree, Coarser;
  }

  lemma MergedCycle(ly: Layout, v0: FState, v: FState, comp: seq<nat>, i: nat, n: nat, m: nat, b: nat, t: Task)
    requires CyclePart(ly, v0, v, comp, i, n, t) && i < |comp| && CanMerge(ly, v, m, b)
    requires (m == n && b == comp[i]) || (m == comp[i] && b == n)
    ensures CyclePart(ly, v0, Merge(v, m, b), comp, i + 1, m, t)
  {
    CanMergeSizes(ly, v, m, b);
    CycleNames(ly, v0, v, comp, i, n, t);
    var w := Merge(v, m, b);
    assert m in Live(v) && b in Live(v) && Live(v) <= Live(v0);
    ApartNext(ly, v0, v, Elems(comp), m, b);
    MergedReps(ly, v, comp, i, n, m, b);
    hide Agree, Merge, CanMerge, WellFormed, Collapsible;
    assert |w.root| == |v0.root|;
    hide Apart, Live;
  }

  lemma MergedReps(ly: Layout, v: FState, comp: seq<nat>, i: nat, n: nat, m: nat, b: nat)
    requires CanMerge(ly, v, m, b) && i < |comp| && Rep(v, comp[i]) == comp[i]
    requires (m == n && b == comp[i]) || (m == comp[i] && b == n)
    requires (forall j | 0 <= j < i :: Rep(v, comp[j]) == n) && forall j | 0 <= j <= i :: comp[j] < |v.root|
    ensures forall j | 0 <= j < i + 1 :: Rep(Merge(v, m, b), comp[j]) == m
  {
    forall j | 0 <= j < i + 1 ensures Rep(Merge(v, m, b), comp[j]) == m {
      MergeRoots(ly, v, m, b, comp[j]);
    }
  }

  /** Which of the two becomes the parent, and what merging changes. */
  lemma UniteIs(ly: Layout, w: Lcd, node: nat, root: nat, n: nat) returns (m: nat, b: nat)
    requires CanMerge(ly, w.v, n, node) && LcdSizes(ly, w) && Rep(w.v, root) == n && Rep(w.v, node) == node
    ensures (m == n && b == node) || (m == node && b == n)
    ensures Merged(w.v, UniteStep(w, node, root).v, m, b)
    ensures var u := UniteStep(w, node, root);
      u.vt == Sooner(w.vt, m, b) && u.next == w.next && u.chg && |u.rank| == |w.rank|
  {
    CanMergeSizes(ly, w.v, n, node);
    hide CanMerge, Merge, Sooner;
    m := if w.rank[n] < w.rank[node] then node else n;
    b := if w.rank[n] < w.rank[node] then n else node;
  }

  lemma UnitedSizes(ly: Layout, w: Lcd, u: Lcd, m: nat, b: nat)
    requires LcdSizes(ly, w) && Merged(w.v, u.v, m, b) && u.vt == Sooner(w.vt, m, b) && u.next == w.next && |u.rank| == |w.rank|
    ensures LcdSizes(ly, u) && |u.vt| == |w.vt| && forall i | 0 <= i < |w.vt| :: u.vt[i] <= w.vt[i]
  {
    MergeCplx(w.v, m, b);
    hide Merge;
  }

  /** One more node of the component is merged. */
  lemma UniteNext(ly: Layout, curr: map<nat, nat>, t: Task, s: Lcd, w: Lcd, comp: seq<nat>, i: nat, n: nat)
    returns (m: nat)
    requires Uniting(ly, curr, t, s, w, comp, i, n) && i < |comp|
    ensures Uniting(ly, curr, t, s, UniteStep(w, comp[i], comp[0]), comp, i + 1, m)
  {
    hide UniteStep, Merge, Between, CyclePart, OpenIn, Agree, LcdSizes, Merged, CanMerge, Sooner;
    var open := OpenIn(curr, w.next, w.vt) + (if i > 1 then {n} else {});
    var u := UniteStep(w, comp[i], comp[0]);
    NextOfCycle(ly, s.v, w.v, comp, i, n, open, t);
    SwapMerge(ly, w.v, n, comp[i]);
    var b;
    m, b := UniteIs(ly, w, comp[i], comp[0], n);
    MergedIs(w.v, u.v, m, b);
    UnitedSizes(ly, w, u, m, b);
    MergedCycle(ly, s.v, w.v, comp, i, n, m, b, t);
    assert Agree(ly, t, w.v.root, m, b) by {
      AgreeSwap(ly, t, w.v.root, n, comp[i]);
    }
    MergeBetween(ly, w.v, open, m, b, t);
    SoonerWaits(curr, w.next, w.vt, u.vt, m);
    assert forall x | x in open + {m} && x != n :: x in OpenIn(curr, u.next, u.vt) + {m};
    UnitedOpen(ly, w.v, u.v, m, b, n, open, OpenIn(curr, u.next, u.vt) + {m}, t);
  }

  lemma UnitedOpen(ly: Layout, v: FState, w: FState, m: nat, b: nat, n: nat, open: set<nat>, open2: set<nat>, t: Task)
    requires Between(ly, w, open + {m}, t) && Live(w) == Live(v) - {b} && (m == n || b == n) && m in open2
    requires forall x | x in open + {m} && x != n :: x in open2
    ensures Between(ly, w, open2, t)
  {
    hide Between, Live;
    BetweenOpen(ly, w, open + {m}, open2, t);
  }

  lemma {:induction false} FoldUnites(ly: Layout, curr: map<nat, nat>, t: Task, s: Lcd, root: nat, others: seq<nat>, j: nat)
    returns (n: nat)
    requires Uniting(ly, curr, t, s, s, [root] + others, 1, root) && j <= |others|
    ensures Uniting(ly, curr, t, s, Fold(UNITER, s, root, others[..j]), [root] + others, j + 1, n)
    decreases j
  {
    hide Uniting, UniteStep;
    if j == 0 {
      n := root;
    } else {
      var front := FoldUnites(ly, curr, t, s, root, others, j - 1);
      assert others[..j] == others[..j - 1] + [others[j - 1]];
      FoldSnoc(UNITER, s, root, others[..j - 1], others[j - 1]);
      assert ([root] + others)[j] == others[j - 1] && ([root] + others)[0] == root;
      n := UniteNext(ly, curr, t, s, Fold(UNITER, s, root, others[..j - 1]), [root] + others, j, front);
    }
  }

  // ----- The client is lawful -----

  /** The components in log were merged, and everything else is as it was. */
  ghost predicate LcdInv(ly: Layout, v0: FState, curr: map<nat, nat>, next0: map<nat, nat>, t: Task,
                         s: Lcd, log: seq<Component>) {
    && !s.chg && LcdSizes(ly, s) && Between(ly, s.v, OpenIn(curr, s.next, s.vt), t)
    && Apart(v0, s.v, Done(log)) && ((s.v == v0 && s.next == next0) || Live(s.v) < Live(v0))
  }

  ghost function Sim(ly: Layout, v0: FState, curr: map<nat, nat>, next0: map<nat, nat>, t: Task): (Lcd, seq<Component>) -> bool {
    (s, log) => LcdInv(ly, v0, curr, next0, t, s, log)
  }

  /** i2p has no edge, so it is in no component with another node. */
  lemma NoI2p(ly: Layout, v: FState, x: nat)
    requires WellFormed(ly, v) && Reaches(CopyGraph(v), ly.i2p, x)
    ensures x == ly.i2p
  {
    ReachesInside(CopyGraph(v), {ly.i2p}, ly.i2p, x);
  }

  /** Nor has node 0. */
  lemma NoNode0(ly: Layout, v: FState, x: nat)
    requires WellFormed(ly, v) && Reaches(CopyGraph(v), 0, x)
    ensures x == 0
  {
    ReachesInside(CopyGraph(v), {0}, 0, x);
  }

  /** A component of several nodes is on cycles of copy edges, and neither i2p nor node 0 is in it. */
  lemma SeveralIsCycle(ly: Layout, v: FState, done: set<nat>, c: Component, comp: seq<nat>)
    requires WellFormed(ly, v) && ComesNext(CopyGraph(v), done, c) && c.others != [] && comp == [c.root] + c.others
    ensures comp != [] && NoDups(comp) && Elems(comp) == Nodes(c)
    ensures forall x | x in comp :: x in Live(v) && x != ly.i2p && x != 0 && x !in done
    ensures forall x, y | x in comp && y in comp :: Mutual(CopyGraph(v), x, y)
  {
    var g := CopyGraph(v);
    GraphOk(ly, v);
    assert forall x :: x in comp <==> x in Nodes(c);
    forall x, y | x in comp && y in comp ensures Mutual(g, x, y) {
      ReachesTrans(g, x, c.root, y);
      ReachesTrans(g, y, c.root, x);
    }
    assert comp[0] in comp && comp[1] in comp;
    forall x | x in comp ensures x != ly.i2p && x != 0 {
      if x == ly.i2p {
        NoI2p(ly, v, comp[0]);
        NoI2p(ly, v, comp[1]);
      }
      if x == 0 {
        NoNode0(ly, v, comp[0]);
        NoNode0(ly, v, comp[1]);
      }
    }
  }

  lemma ApartTrans(u: FState, v: FState, w: FState, done: set<nat>, comp: set<nat>)
    requires Apart(u, v, done) && Apart(v, w, comp) && done !! comp
    ensures Apart(u, w, done + comp)
  {
  }

  lemma TaskIn(ly: Layout, v: FState, t: Task)
    requires SoundFor(ly, v, t)
    ensures TaskOk(ly, t)
  {
    hide Tame, Steady, Origin, MapsOn, MapsBack;
  }

  /** Nodes on a cycle of copy edges have one set in every tame graph. */
  lemma CycleAgrees(ly: Layout, v: FState, t: Task, x: nat, y: nat)
    requires WellFormed(ly, v) && SoundFor(ly, v, t) && Mutual(CopyGraph(v), x, y)
    ensures Agree(ly, t, v.root, x, y)
  {
    hide WellFormed, SoundFor, Mutual, CopyGraph, Tame, At, Sound;
    forall q: PtsGraph | Tame(ly, t, q, v.root) ensures At(q, x) == At(q, y) {
      SoundIn(ly, v, t, q);
      CycleIsEqual(ly, v, q, x, y);
    }
  }

  /** A component that comes next is as it was at the start, so it can be merged. */
  lemma NextIsCollapsible(ly: Layout, v0: FState, v: FState, done: set<nat>, c: Component, comp: seq<nat>, t: Task)
    requires WellFormed(ly, v0) && SoundFor(ly, v0, t) && Apart(v0, v, done)
    requires ComesNext(CopyGraph(v0), done, c) && c.others != [] && comp == [c.root] + c.others
    ensures Collapsible(ly, v, comp, t) && Elems(comp) == Nodes(c) && done !! Elems(comp)
  {
    SeveralIsCycle(ly, v0, done, c, comp);
    TaskIn(ly, v0, t);
    assert Coarser(v0.root, v.root) && |v0.root| == |ly.sz|;
    hide WellFormed, SoundFor, Mutual, CopyGraph, ComesNext, Agree, NoDups, Coarser, TaskOk;
    forall x, y | x in comp && y in comp ensures Agree(ly, t, v.root, x, y) {
      CycleAgrees(ly, v0, t, x, y);
      AgreeFiner(ly, t, v0.root, v.root, x, y);
    }
  }

  /** With its nodes merged and the result queued a component is done. */
  lemma ReportSeveral(ly: Layout, v0: FState, curr: map<nat, nat>, next0: map<nat, nat>, t: Task,
                      s: Lcd, log: seq<Component>, c: Component)
    requires WellFormed(ly, v0) && SoundFor(ly, v0, t) && LcdInv(ly, v0, curr, next0, t, s, log)
    requires ComesNext(CopyGraph(v0), Done(log), c) && c.others != []
    ensures LcdInv(ly, v0, curr, next0, t, Report(UNITER, s, c), log + [c])
  {
    hide WellFormed, SoundFor, ComesNext, CopyGraph, Between, OpenIn, UniteStep, Done, CyclePart, Fold, Collapsible, Apart, Live, Uniting, RootStep, LcdSizes;
    var comp := [c.root] + c.others;
    NextIsCollapsible(ly, v0, s.v, Done(log), c, comp, t);
    UnitingStarts(ly, curr, t, s, comp);
    var n := FoldUnites(ly, curr, t, s, c.root, c.others, |c.others|);
    assert c.others[..|c.others|] == c.others;
    var w := Fold(UNITER, s, c.root, c.others);
    UnitingEnds(ly, curr, t, s, w, comp, n);
    ApartTrans(v0, s.v, w.v, Done(log), Elems(comp));
    DoneSnoc(log, c);
  }

  lemma UnitingStarts(ly: Layout, curr: map<nat, nat>, t: Task, s: Lcd, comp: seq<nat>)
    requires Collapsible(ly, s.v, comp, t) && LcdSizes(ly, s) && !s.chg && Between(ly, s.v, OpenIn(curr, s.next, s.vt), t)
    ensures comp != [] && Uniting(ly, curr, t, s, s, comp, 1, comp[0])
  {
    BetweenParts(ly, s.v, OpenIn(curr, s.next, s.vt), t);
    hide Between, OpenIn, CyclePart;
    FirstOfCycle(ly, s.v, comp, t);
    hide Collapsible;
    assert OpenIn(curr, s.next, s.vt) + {} == OpenIn(curr, s.next, s.vt);
  }

  /** The merged node is queued. */
  lemma UnitingEnds(ly: Layout, curr: map<nat, nat>, t: Task, s: Lcd, w: Lcd, comp: seq<nat>, n: nat)
    requires Uniting(ly, curr, t, s, w, comp, |comp|, n) && |comp| > 1
    ensures var u := RootStep(w, comp[0]);
      && u.v == w.v && !u.chg && LcdSizes(ly, u) && Between(ly, u.v, OpenIn(curr, u.next, u.vt), t)
      && Apart(s.v, u.v, Elems(comp)) && Live(u.v) < Live(s.v)
  {
    hide Between, OpenIn, CyclePart, Apart, Live;
    CycleIsDone(ly, s.v, w.v, comp, n, t);
    Pushed(curr, w.next, w.vt, n);
  }

  lemma CycleIsDone(ly: Layout, v: FState, w: FState, comp: seq<nat>, n: nat, t: Task)
    requires CyclePart(ly, v, w, comp, |comp|, n, t) && |comp| > 1
    ensures Apart(v, w, Elems(comp)) && Find(w.root, comp[0]) == n && n < |w.root| && Live(w) < Live(v)
  {
    hide Apart, Collapsible;
  }

  lemma ReportOne(ly: Layout, v0: FState, curr: map<nat, nat>, next0: map<nat, nat>, t: Task,
                  s: Lcd, log: seq<Component>, c: Component)
    requires LcdInv(ly, v0, curr, next0, t, s, log) && c.others == []
    ensures LcdInv(ly, v0, curr, next0, t, Report(UNITER, s, c), log + [c])
  {
    hide Between, OpenIn, Done, LcdSizes, Live;
    assert Report(UNITER, s, c) == s;
    DoneSnoc(log, c);
    assert Nodes(c) == {c.root};
  }

  lemma ChildrenOk(ly: Layout, v0: FState, s: Lcd, n: nat, done: set<nat>)
    requires WellFormed(ly, v0) && n in CopyGraph(v0) && Apart(v0, s.v, done) && n !in done
    ensures ChildrenLaw(UNITER, CopyGraph(v0), Base(v0), s, n)
  {
    var g, base := CopyGraph(v0), Base(v0);
    assert UNITER.children(s, n) == v0.copies[n];
    forall m | m in g[n] ensures exists k | k in UNITER.children(s, n) :: base[k] == m {
      var e :| e in v0.copies[n] && Rep(v0, e) in Live(v0) && Rep(v0, e) == m;
      assert e in UNITER.children(s, n) && base[e] == m;
    }
    hide Apart;
  }

  lemma GetRepOk(ly: Layout, v0: FState, curr: map<nat, nat>, next0: map<nat, nat>, t: Task,
                 s: Lcd, log: seq<Component>, i: nat)
    requires WellFormed(ly, v0) && LcdInv(ly, v0, curr, next0, t, s, log) && i in Base(v0)
    ensures GetRepLaw(UNITER, Base(v0), Sim(ly, v0, curr, next0, t), s, log, i)
  {
    hide Between, Done, WellFormed, OpenIn;
  }

  lemma SimIs(ly: Layout, v0: FState, curr: map<nat, nat>, next0: map<nat, nat>, t: Task, s: Lcd, log: seq<Component>)
    ensures Sim(ly, v0, curr, next0, t)(s, log) == LcdInv(ly, v0, curr, next0, t, s, log)
  {
  }

  /** The detector may merge the nodes of each component as soon as it is found. */
  lemma UniterIsLawful(ly: Layout, v0: FState, curr: map<nat, nat>, next0: map<nat, nat>, t: Task)
    requires WellFormed(ly, v0) && SoundFor(ly, v0, t)
    ensures Lawful(UNITER, CopyGraph(v0), Base(v0), Sim(ly, v0, curr, next0, t))
  {
    var g, base, sim := CopyGraph(v0), Base(v0), Sim(ly, v0, curr, next0, t);
    GraphOk(ly, v0);
    hide WellFormed, SoundFor, LcdInv, CopyGraph, Base, Sim, Closed, SccOrder, ComesNext, Done, GetRepLaw, ChildrenLaw, Report, Live;
    forall s, log, i | sim(s, log) && SccOrder(g, log) && i in base ensures GetRepLaw(UNITER, base, sim, s, log, i) {
      SimIs(ly, v0, curr, next0, t, s, log);
      GetRepOk(ly, v0, curr, next0, t, s, log, i);
    }
    forall s, log, n | sim(s, log) && SccOrder(g, log) && n in g && n !in Done(log) ensures ChildrenLaw(UNITER, g, base, s, n) {
      SimIs(ly, v0, curr, next0, t, s, log);
      LcdApart(ly, v0, curr, next0, t, s, log);
      ChildrenOk(ly, v0, s, n, Done(log));
    }
    forall s, log, c | sim(s, log) && SccOrder(g, log) && ComesNext(g, Done(log), c) ensures sim(Report(UNITER, s, c), log + [c]) {
      SimIs(ly, v0, curr, next0, t, s, log);
      SimIs(ly, v0, curr, next0, t, Report(UNITER, s, c), log + [c]);
      if c.others == [] {
        ReportOne(ly, v0, curr, next0, t, s, log, c);
      } else {
        ReportSeveral(ly, v0, curr, next0, t, s, log, c);
      }
    }
  }

  lemma LcdApart(ly: Layout, v0: FState, curr: map<nat, nat>, next0: map<nat, nat>, t: Task, s: Lcd, log: seq<Component>)
    requires LcdInv(ly, v0, curr, next0, t, s, log)
    ensures Apart(v0, s.v, Done(log)) && |s.v.root| == |v0.root|
  {
  }

  lemma SearchBegins(ly: Layout, v0: FState, curr: map<nat, nat>, next0: map<nat, nat>, t: Task, s: Lcd)
    requires s.v == v0 && s.next == next0 && !s.chg && LcdSizes(ly, s) && Between(ly, v0, OpenIn(curr, s.next, s.vt), t)
    ensures Lawful(UNITER, CopyGraph(v0), Base(v0), Sim(ly, v0, curr, next0, t)) && Sim(ly, v0, curr, next0, t)(s, [])
  {
    BetweenParts(ly, v0, OpenIn(curr, s.next, s.vt), t);
    hide Between, SoundFor, OpenIn, LcdSizes, Lawful, WellFormed, Sizes;
    assert Apart(v0, v0, Done([]));
    UniterIsLawful(ly, v0, curr, next0, t);
  }

  /** The state of the search is one that the solver can go on with. */
  ghost predicate CanGoOn(ly: Layout, v0: FState, curr: map<nat, nat>, next0: map<nat, nat>, t: Task, s: Lcd) {
    && LcdSizes(ly, s) && Between(ly, s.v, OpenIn(curr, s.next, s.vt), t)
    && ((s.v == v0 && s.next == next0) || Live(s.v) < Live(v0))
  }

  lemma SearchedOn(ly: Layout, v0: FState, curr: map<nat, nat>, next0: map<nat, nat>, t: Task, s: Lcd, log: seq<Component>)
    requires Sim(ly, v0, curr, next0, t)(s, log)
    ensures CanGoOn(ly, v0, curr, next0, t, s)
    ensures forall n: nat | n < |s.v.root| :: n in Base(v0)
  {
    hide Between, OpenIn, LcdSizes;
  }

  /** The detector is between two searches. */
  ghost predicate Searching(detector: CycleDetector<Lcd>, ly: Layout, v0: FState, curr: map<nat, nat>, next0: map<nat, nat>,
                            t: Task)
    reads detector
  {
    && detector.Valid({}) && detector.g == CopyGraph(v0) && detector.base == Base(v0)
    && detector.sim == Sim(ly, v0, curr, next0, t)
  }
}
