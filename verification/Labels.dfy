/** The labelling passes of the constraint optimizers HVN and HU, as clients of the cycle detector. */
module Labels {
  import opened Constraints
  import opened Graphs
  import opened CycleDetectors
  import opened PredecessorGraphs

  datatype Kind = HVN | HU

  datatype Opt = Opt(
    pred: Graph,
    indirect: set<nat>,
    mergeTarget: map<nat, nat>,
    peLabel: map<nat, nat>,
    next: nat,                         // pointerEqClass
    setLabel: map<set<nat>, nat>,
    ptsSet: map<nat, set<nat>>)

  /** getMergeTargetRep: the chain it follows visits an entry at most once. */
  function Chase(m: map<nat, nat>, i: nat, steps: nat): nat
    decreases steps
  {
    if steps == 0 || i !in m then i else Chase(m, m[i], steps - 1)
  }

  function RepOf(s: Opt, i: nat): nat {
    Chase(s.mergeTarget, i, |s.mergeTarget|)
  }

  function LabelOf(s: Opt, n: nat): nat {
    if n in s.peLabel then s.peLabel[n] else 0
  }

  function RepStep(s: Opt, i: nat): (Opt, nat) {
    var r := RepOf(s, i);
    (s.(pred := if r in s.pred then s.pred else s.pred[r := {}]), r)
  }

  /** processNodeOnCycle. */
  function CycleStep(size: nat, s: Opt, node: nat, rep: nat): Opt {
    s.(mergeTarget := s.mergeTarget[node := RepOf(s, rep)],
       indirect := if rep < size && (node in s.indirect || node > size) then s.indirect + {rep} else s.indirect,
       pred := if node in s.pred then s.pred[rep := Succ(s.pred, rep) + s.pred[node]] else s.pred)
  }

  function Fresh(s: Opt, node: nat): Opt {
    s.(peLabel := s.peLabel[node := s.next], next := s.next + 1)
  }

  /** The labels that flow into node, zero labels and its own ignored. */
  function PredLabels(s: Opt, node: nat): set<nat> {
    set p | p in Succ(s.pred, node) && RepOf(s, p) != node && LabelOf(s, RepOf(s, p)) != 0 :: LabelOf(s, RepOf(s, p))
  }

  /** HVN's propagateLabel. */
  function HvnLabel(size: nat, s: Opt, node: nat): Opt {
    if node >= size || node in s.indirect then Fresh(s, node) else Combine(s, node, PredLabels(s, node))
  }

  /** The label for a node that these labels flow into. */
  function Combine(s: Opt, node: nat, labels: set<nat>): Opt {
    if labels == {} then s.(peLabel := s.peLabel[node := 0])
    else if |labels| == 1 then s.(peLabel := s.peLabel[node := Min(labels)])
    else if labels in s.setLabel then s.(peLabel := s.peLabel[node := s.setLabel[labels]])
    else Fresh(s, node).(setLabel := s.setLabel[labels := s.next])
  }

  /** What stands for an indirect component in HU's offline points-to sets. */
  function Token(size: nat, n: nat): nat {
    if n >= 2 * size then n - 2 * size else if n >= size then n else n + 2 * size
  }

  /** The union of the offline points-to sets of the predecessors. */
  function PredPts(s: Opt, node: nat): set<nat> {
    set p, x | p in Succ(s.pred, node) && RepOf(s, p) in s.ptsSet && x in s.ptsSet[RepOf(s, p)] :: x
  }

  /** HU's propagateLabel. */
  function HuLabel(size: nat, s: Opt, node: nat): Opt {
    if node >= size || node in s.indirect then Fresh(s, node).(ptsSet := s.ptsSet[node := {Token(size, node)}])
    else HuAssign(s, node, PredPts(s, node))
  }

  /** The label for a node with this offline points-to set. */
  function HuAssign(s: Opt, node: nat, pts: set<nat>): Opt {
    var t := s.(ptsSet := s.ptsSet[node := pts]);
    if pts == {} then t.(peLabel := t.peLabel[node := 0])
    else if pts in t.setLabel then t.(peLabel := t.peLabel[node := t.setLabel[pts]])
    else Fresh(t, node).(setLabel := t.setLabel[pts := t.next])
  }

  function Propagate(kind: Kind, size: nat, s: Opt, node: nat): Opt {
    if kind == HVN then HvnLabel(size, s, node) else HuLabel(size, s, node)
  }

  function Optimizer(kind: Kind, size: nat): Client<Opt> {
    Client(RepStep,
           (s: Opt, n: nat) => Succ(s.pred, n),
           (s: Opt, node: nat, rep: nat) => CycleStep(size, s, node, rep),
           (s: Opt, n: nat) => Propagate(kind, size, s, n))
  }

  /** The state before the search: an edge set and indirect nodes that say what the constraints say. */
  ghost predicate Starts(cs: seq<Constraint>, size: nat, s: Opt) {
    && (forall x: nat | x < 3 * size :: Succ(s.pred, x) == Preds(cs, size, x))
    && s.indirect == AddressTaken(cs)
    && s.mergeTarget == map[] && s.peLabel == map[] && s.next == 1 && s.setLabel == map[] && s.ptsSet == map[]
  }

  // ----- Collapsing a component -----

  /** Merged nodes point straight to their leader. */
  ghost predicate Merged(s: Opt, log: seq<Component>) {
    && (forall x :: x in s.mergeTarget <==> x in Done(log) && Leader(log, x) != x)
    && (forall x | x in s.mergeTarget :: s.mergeTarget[x] == Leader(log, x))
  }

  lemma RepIsLeader(g: Graph, s: Opt, log: seq<Component>, x: nat)
    requires SccOrder(g, log) && Merged(s, log)
    ensures RepOf(s, x) == Leader(log, x)
  {
    LeaderFacts(g, log, x);
    if x in s.mergeTarget {
      assert |s.mergeTarget| > 0 by {
        assert x in s.mergeTarget.Keys;
      }
      assert Chase(s.mergeTarget, s.mergeTarget[x], |s.mergeTarget| - 1) == s.mergeTarget[x];
    }
  }

  function AllPreds(s: Opt, ns: set<nat>): set<nat> {
    set x, y | x in ns && y in Succ(s.pred, x) :: y
  }

  /** The part of the state that only propagateLabel changes. */
  ghost predicate SameLabels(s: Opt, t: Opt) {
    t.peLabel == s.peLabel && t.next == s.next && t.setLabel == s.setLabel && t.ptsSet == s.ptsSet
  }

  // What the call-backs on the other nodes of a component do.

  ghost predicate FoldedTargets(s: Opt, t: Opt, root: nat, others: seq<nat>) {
    && (forall x :: x in t.mergeTarget <==> x in s.mergeTarget || x in others)
    && (forall x | x in t.mergeTarget :: t.mergeTarget[x] == if x in others then root else s.mergeTarget[x])
  }

  ghost predicate FoldedIndirect(size: nat, s: Opt, t: Opt, root: nat, others: seq<nat>) {
    && s.indirect <= t.indirect <= s.indirect + {root}
    && (root in t.indirect <==> root in s.indirect || (root < size && exists y :: y in others && (y in s.indirect || y > size)))
  }

  ghost predicate FoldedPreds(s: Opt, t: Opt, root: nat, others: seq<nat>) {
    && (forall x | x != root :: Succ(t.pred, x) == Succ(s.pred, x))
    && Succ(t.pred, root) == Succ(s.pred, root) + AllPreds(s, Elems(others))
  }

  ghost predicate Folded(size: nat, s: Opt, t: Opt, root: nat, others: seq<nat>) {
    SameLabels(s, t) && FoldedTargets(s, t, root, others) && FoldedIndirect(size, s, t, root, others) && FoldedPreds(s, t, root, others)
  }

  lemma FoldedTargetsStep(size: nat, s: Opt, t: Opt, root: nat, others: seq<nat>, n: nat)
    requires FoldedTargets(s, t, root, others) && n != root && root !in others && root !in s.mergeTarget
    ensures FoldedTargets(s, CycleStep(size, t, n, root), root, others + [n])
  {
    assert RepOf(t, root) == root;
  }

  lemma FoldedIndirectStep(size: nat, s: Opt, t: Opt, root: nat, others: seq<nat>, n: nat)
    requires FoldedIndirect(size, s, t, root, others) && n != root
    ensures FoldedIndirect(size, s, CycleStep(size, t, n, root), root, others + [n])
  {
    assert n in others + [n];
    forall y | y in others ensures y in others + [n] {
    }
  }

  lemma CyclePreds(size: nat, t: Opt, n: nat, root: nat)
    requires n != root
    ensures var u := CycleStep(size, t, n, root);
      && Succ(u.pred, root) == Succ(t.pred, root) + Succ(t.pred, n)
      && forall x | x != root :: Succ(u.pred, x) == Succ(t.pred, x)
  {
  }

  lemma AllPredsSnoc(s: Opt, others: seq<nat>, n: nat)
    ensures AllPreds(s, Elems(others + [n])) == AllPreds(s, Elems(others)) + Succ(s.pred, n)
  {
    assert Elems(others + [n]) == Elems(others) + {n};
    hide Succ;
  }

  lemma FoldedPredsStep(size: nat, s: Opt, t: Opt, root: nat, others: seq<nat>, n: nat)
    requires FoldedPreds(s, t, root, others) && n != root
    ensures FoldedPreds(s, CycleStep(size, t, n, root), root, others + [n])
  {
    hide CycleStep, AllPreds, Succ;
    CyclePreds(size, t, n, root);
    AllPredsSnoc(s, others, n);
  }

  lemma FoldedNone(size: nat, s: Opt, root: nat)
    ensures Folded(size, s, s, root, [])
  {
    assert AllPreds(s, Elems([])) == {};
  }

  lemma FoldedStep(size: nat, s: Opt, t: Opt, root: nat, others: seq<nat>, n: nat)
    requires Folded(size, s, t, root, others) && n != root && root !in others && root !in s.mergeTarget
    ensures Folded(size, s, CycleStep(size, t, n, root), root, others + [n])
  {
    hide FoldedTargets, FoldedIndirect, FoldedPreds;
    FoldedTargetsStep(size, s, t, root, others, n);
    FoldedIndirectStep(size, s, t, root, others, n);
    FoldedPredsStep(size, s, t, root, others, n);
  }

  lemma {:induction false} FoldIsFolded(kind: Kind, size: nat, s: Opt, root: nat, others: seq<nat>)
    requires root !in others && root !in s.mergeTarget
    ensures Folded(size, s, Fold(Optimizer(kind, size), s, root, others), root, others)
  {
    if others == [] {
      FoldedNone(size, s, root);
    } else {
      var front, n := others[..|others| - 1], others[|others| - 1];
      assert n in others && root !in front && n != root;
      var t := Fold(Optimizer(kind, size), s, root, front);
      assert Fold(Optimizer(kind, size), s, root, others) == CycleStep(size, t, n, root);
      assert others == front + [n];
      hide Fold;
      FoldIsFolded(kind, size, s, root, front);
      FoldedStep(size, s, t, root, front, n);
    }
  }

  // ----- What the labels mean -----

  /** The REF node of node 0, which the code takes for a VAR node, shares no cycle with a VAR node
      unless the cycle has another indirect node. */
  ghost predicate RefZeroHarmless(cs: seq<Constraint>, size: nat) {
    forall x: nat | x < size && Mutual(PredGraph(cs, size), size, x) ::
      exists y: nat :: y != size && Mutual(PredGraph(cs, size), size, y) && IsIndirect(cs, size, y)
  }

  /** The only indirect node of c is the REF node of node 0, and c is detected at another node. */
  predicate Overlooked(cs: seq<Constraint>, size: nat, c: Component) {
    size in c.others && forall y | y in Nodes(c) && y != size :: !IsIndirect(cs, size, y)
  }

  ghost predicate Shape(cs: seq<Constraint>, size: nat, s: Opt, log: seq<Component>) {
    && Merged(s, log)
    && (forall x: nat | x < 3 * size && x !in Done(log) :: Succ(s.pred, x) == Preds(cs, size, x))
    && (forall x | x !in Done(log) :: x in s.indirect <==> x in AddressTaken(cs))
    && (forall r :: r in s.peLabel <==> r in Done(log) && Leader(log, r) == r)
  }

  /** The state just before propagateLabel runs on the root of c. */
  ghost predicate Ready(cs: seq<Constraint>, size: nat, s: Opt, t: Opt, log: seq<Component>, c: Component) {
    && SameLabels(s, t) && Merged(t, log + [c])
    && (forall x: nat | x < 3 * size && x !in Done(log + [c]) :: Succ(t.pred, x) == Preds(cs, size, x))
    && (forall x | x !in Done(log + [c]) :: x in t.indirect <==> x in AddressTaken(cs))
    && (c.root >= size || c.root in t.indirect <==> Indirect(cs, size, c))
    && (forall y :: y in Succ(t.pred, c.root) <==> exists x :: x in Nodes(c) && y in Preds(cs, size, x))
  }

  lemma FoldMerged(cs: seq<Constraint>, size: nat, s: Opt, t: Opt, log: seq<Component>, c: Component)
    requires SccOrder(PredGraph(cs, size), log) && ComesNext(PredGraph(cs, size), Done(log), c)
    requires Merged(s, log) && FoldedTargets(s, t, c.root, c.others)
    ensures Merged(t, log + [c])
  {
    var log' := log + [c];
    DoneSnoc(log, c);
    assert log'[..|log|] == log;
    hide ComesNext, SccOrder;
    forall x ensures x in t.mergeTarget <==> x in Done(log') && Leader(log', x) != x {
      LeaderFacts(PredGraph(cs, size), log, x);
    }
    forall x | x in t.mergeTarget ensures t.mergeTarget[x] == Leader(log', x) {
    }
  }

  /** A component is classified correctly exactly when it is not overlooked. */
  lemma FoldClassifies(cs: seq<Constraint>, size: nat, s: Opt, t: Opt, log: seq<Component>, c: Component)
    requires ComesNext(PredGraph(cs, size), Done(log), c) && InRange(cs, size)
    requires Shape(cs, size, s, log) && FoldedIndirect(size, s, t, c.root, c.others)
    ensures (c.root >= size || c.root in t.indirect <==> Indirect(cs, size, c)) <==> !Overlooked(cs, size, c)
  {
    assert c.root in Nodes(c) && c.root !in Done(log);
    forall y | y in c.others ensures y in Nodes(c) && y !in Done(log) {
      assert y in Nodes(c);
    }
    assert forall x | x in Nodes(c) :: x == c.root || x in c.others;
    hide ComesNext;
  }

  lemma HarmlessIsSeen(cs: seq<Constraint>, size: nat, done: set<nat>, c: Component)
    requires ComesNext(PredGraph(cs, size), done, c) && RefZeroHarmless(cs, size)
    ensures !Overlooked(cs, size, c)
  {
    var g := PredGraph(cs, size);
    if Overlooked(cs, size, c) {
      assert c.root in Nodes(c) && size in Nodes(c);
      assert c.root < size && Mutual(g, size, c.root);
      var y: nat :| y != size && Mutual(g, size, y) && IsIndirect(cs, size, y);
      ReachesTrans(g, c.root, size, y);
      ReachesTrans(g, y, size, c.root);
      assert false;
    }
  }

  /** Otherwise a VAR node shares a component with it that is overlooked when it is detected there, with
      just the components that it reaches reported before. */
  lemma HarmfulIsOverlooked(cs: seq<Constraint>, size: nat) returns (log: seq<Component>, c: Component)
    requires !RefZeroHarmless(cs, size)
    ensures SccOrder(PredGraph(cs, size), log + [c]) && Overlooked(cs, size, c)
    ensures c.root < size && forall y | y in Done(log) :: Reaches(PredGraph(cs, size), c.root, y)
  {
    var g := PredGraph(cs, size);
    var x: nat :| x < size && Mutual(g, size, x)
               && forall y: nat :: y != size && Mutual(g, size, y) ==> !IsIndirect(cs, size, y);
    PredGraphClosed(cs, size);
    log, c := ReportOf(g, x);
    assert size in g;
    assert size in Nodes(c) && size != x;
    forall y | y in Nodes(c) && y != size ensures !IsIndirect(cs, size, y) {
      ReachesTrans(g, size, x, y);
      ReachesTrans(g, y, x, size);
    }
    DoneSnoc(log, c);
    SccOrderSnoc(g, log, c);
  }

  lemma FoldIndirect(cs: seq<Constraint>, size: nat, s: Opt, t: Opt, log: seq<Component>, c: Component)
    requires ComesNext(PredGraph(cs, size), Done(log), c) && RefZeroHarmless(cs, size) && InRange(cs, size)
    requires Shape(cs, size, s, log) && FoldedIndirect(size, s, t, c.root, c.others)
    ensures c.root >= size || c.root in t.indirect <==> Indirect(cs, size, c)
  {
    hide ComesNext, Shape, FoldedIndirect, RefZeroHarmless, Indirect, Overlooked;
    HarmlessIsSeen(cs, size, Done(log), c);
    FoldClassifies(cs, size, s, t, log, c);
  }

  lemma FoldPreds(cs: seq<Constraint>, size: nat, s: Opt, t: Opt, log: seq<Component>, c: Component)
    requires ComesNext(PredGraph(cs, size), Done(log), c)
    requires Shape(cs, size, s, log) && FoldedPreds(s, t, c.root, c.others)
    ensures forall y :: y in Succ(t.pred, c.root) <==> exists x :: x in Nodes(c) && y in Preds(cs, size, x)
  {
    forall x | x in Nodes(c) ensures Succ(s.pred, x) == Preds(cs, size, x) {
      assert x !in Done(log) && x < 3 * size;
    }
    hide ComesNext, Preds, Succ;
    forall y ensures y in Succ(t.pred, c.root) <==> exists x :: x in Nodes(c) && y in Preds(cs, size, x) {
      if y in AllPreds(s, Elems(c.others)) {
        var x :| x in Elems(c.others) && y in Succ(s.pred, x);
        assert x in Nodes(c);
      }
      if x :| x in Nodes(c) && y in Preds(cs, size, x) {
        assert y in Succ(s.pred, x);
        assert x == c.root || x in Elems(c.others);
      }
    }
  }

  lemma FoldIsReady(cs: seq<Constraint>, size: nat, s: Opt, t: Opt, log: seq<Component>, c: Component)
    requires InRange(cs, size) && RefZeroHarmless(cs, size)
    requires SccOrder(PredGraph(cs, size), log) && ComesNext(PredGraph(cs, size), Done(log), c)
    requires Shape(cs, size, s, log) && Folded(size, s, t, c.root, c.others)
    ensures Ready(cs, size, s, t, log, c)
  {
    FoldMerged(cs, size, s, t, log, c);
    FoldIndirect(cs, size, s, t, log, c);
    FoldPreds(cs, size, s, t, log, c);
    DoneSnoc(log, c);
    hide ComesNext, SccOrder, Preds, Succ, RefZeroHarmless, Merged;
    assert c.root in Nodes(c);
  }

  function Lab(s: Opt, log: seq<Component>, x: nat): nat {
    LabelOf(s, Leader(log, x))
  }

  /** Label 0 means no sources, and nodes with the same label have the same sources. */
  ghost predicate LabelsOk(cs: seq<Constraint>, size: nat, s: Opt, log: seq<Component>) {
    && s.next >= 1
    && (forall x | x in Done(log) :: Lab(s, log, x) < s.next)
    && (forall x | x in Done(log) :: Lab(s, log, x) == 0 <==> Sources(cs, size, log, x) == {})
    && (forall x, y | x in Done(log) && y in Done(log) && Lab(s, log, x) == Lab(s, log, y) ::
          Sources(cs, size, log, x) == Sources(cs, size, log, y))
  }

  /** The sources of the nodes whose label is in labels. */
  ghost function Pool(cs: seq<Constraint>, size: nat, s: Opt, log: seq<Component>, labels: set<nat>): set<nat> {
    set p, r | p in Done(log) && Lab(s, log, p) in labels && r in Sources(cs, size, log, p) :: r
  }

  ghost predicate Used(s: Opt, log: seq<Component>, l: nat) {
    exists p :: p in Done(log) && Lab(s, log, p) == l
  }

  /** HVN's table maps a label set to the label of nodes fed by exactly those labels. */
  ghost predicate HvnTable(cs: seq<Constraint>, size: nat, s: Opt, log: seq<Component>) {
    && (forall ls | ls in s.setLabel :: HvnEntry(cs, size, s, log, ls))
    && (forall i | 0 <= i < |log| && !Indirect(cs, size, log[i]) :: HvnDirect(cs, size, s, log, log[i]))
  }

  /** The label of a direct component is that of its table entry, the only label that flows in, or 0 if none does. */
  ghost predicate HvnDirect(cs: seq<Constraint>, size: nat, s: Opt, log: seq<Component>, c: Component) {
    HvnChosen(s.setLabel, LabelsInto(cs, size, s, log, c), Lab(s, log, c.root))
  }

  ghost predicate HvnChosen(table: map<set<nat>, nat>, ls: set<nat>, l: nat) {
    if ls == {} then l == 0 else if |ls| == 1 then ls == {l} else ls in table && table[ls] == l
  }

  ghost predicate HvnEntry(cs: seq<Constraint>, size: nat, s: Opt, log: seq<Component>, ls: set<nat>)
    requires ls in s.setLabel
  {
    && 0 < s.setLabel[ls] < s.next && Used(s, log, s.setLabel[ls])
    && (forall l | l in ls :: l != 0 && Used(s, log, l))
    && ls != {}
    && (forall y | y in Done(log) && Lab(s, log, y) == s.setLabel[ls] :: Sources(cs, size, log, y) == Pool(cs, size, s, log, ls))
  }

  function Tokens(size: nat, rs: set<nat>): set<nat> {
    set r | r in rs :: Token(size, r)
  }

  /** HU's table maps a set of sources to the label of all direct nodes that have it. */
  ghost predicate HuTable(cs: seq<Constraint>, size: nat, s: Opt, log: seq<Component>) {
    && HuSets(cs, size, s, log)
    && (forall ts | ts in s.setLabel :: HuEntry(cs, size, s, log, ts))
    && (forall i | 0 <= i < |log| && !Indirect(cs, size, log[i]) :: HuDirect(cs, size, s, log, log[i].root))
    && HuApart(cs, size, s, log)
  }

  /** No component with a value of its own has a label that is in the table. */
  ghost predicate HuApart(cs: seq<Constraint>, size: nat, s: Opt, log: seq<Component>) {
    forall ts, i | ts in s.setLabel && 0 <= i < |log| && Indirect(cs, size, log[i]) :: s.setLabel[ts] != Lab(s, log, log[i].root)
  }

  ghost predicate HuSets(cs: seq<Constraint>, size: nat, s: Opt, log: seq<Component>) {
    && s.ptsSet.Keys == s.peLabel.Keys
    && (forall x | x in Done(log) && Leader(log, x) in s.ptsSet :: s.ptsSet[Leader(log, x)] == Tokens(size, Sources(cs, size, log, x)))
  }

  ghost predicate HuEntry(cs: seq<Constraint>, size: nat, s: Opt, log: seq<Component>, ts: set<nat>)
    requires ts in s.setLabel
  {
    && 0 < s.setLabel[ts] < s.next && ts != {} && Used(s, log, s.setLabel[ts])
    && forall y | y in Done(log) && Lab(s, log, y) == s.setLabel[ts] :: Tokens(size, Sources(cs, size, log, y)) == ts
  }

  ghost predicate HuDirect(cs: seq<Constraint>, size: nat, s: Opt, log: seq<Component>, x: nat) {
    var ts := Tokens(size, Sources(cs, size, log, x));
    ts == {} || (ts in s.setLabel && s.setLabel[ts] == Lab(s, log, x))
  }

  ghost predicate OptInv(cs: seq<Constraint>, size: nat, kind: Kind, s: Opt, log: seq<Component>) {
    && Shape(cs, size, s, log) && LabelsOk(cs, size, s, log)
    && (if kind == HVN then HvnTable(cs, size, s, log) else HuTable(cs, size, s, log))
  }

  // ----- Labelling a component keeps the invariant -----

  /** u is s with the component c reported and its root labelled l. */
  ghost predicate Labelled(cs: seq<Constraint>, size: nat, s: Opt, u: Opt, log: seq<Component>, c: Component, l: nat) {
    && SccOrder(PredGraph(cs, size), log) && ComesNext(PredGraph(cs, size), Done(log), c)
    && u.peLabel == s.peLabel[c.root := l]
    && l < u.next && s.next <= u.next
  }

  lemma OldAndNew(cs: seq<Constraint>, size: nat, s: Opt, u: Opt, log: seq<Component>, c: Component, l: nat)
    requires Labelled(cs, size, s, u, log, c, l)
    ensures Done(log + [c]) == Done(log) + Nodes(c) && Done(log) !! Nodes(c)
    ensures forall x | x in Done(log) :: Lab(u, log + [c], x) == Lab(s, log, x)
    ensures forall x | x in Done(log) :: Sources(cs, size, log + [c], x) == Sources(cs, size, log, x)
    ensures forall x | x in Nodes(c) :: Lab(u, log + [c], x) == l && Leader(log + [c], x) == c.root
    ensures forall x | x in Nodes(c) :: Sources(cs, size, log + [c], x) == Sources(cs, size, log + [c], c.root)
  {
    var log' := log + [c];
    DoneSnoc(log, c);
    assert log'[..|log|] == log;
    assert c.root in Nodes(c);
    forall x | x in Done(log) ensures Lab(u, log', x) == Lab(s, log, x) {
      LeaderFacts(PredGraph(cs, size), log, x);
    }
  }

  lemma LabelsStep(cs: seq<Constraint>, size: nat, s: Opt, u: Opt, log: seq<Component>, c: Component, l: nat)
    requires LabelsOk(cs, size, s, log) && Labelled(cs, size, s, u, log, c, l)
    requires l == 0 <==> Sources(cs, size, log + [c], c.root) == {}
    requires forall y | y in Done(log) && Lab(s, log, y) == l :: Sources(cs, size, log, y) == Sources(cs, size, log + [c], c.root)
    ensures LabelsOk(cs, size, u, log + [c])
  {
    OldAndNew(cs, size, s, u, log, c, l);
    hide Labelled, Sources, Lab, SccOrder, ComesNext, Done;
  }

  lemma ShapeStep(cs: seq<Constraint>, size: nat, s: Opt, t: Opt, u: Opt, log: seq<Component>, c: Component, l: nat)
    requires Shape(cs, size, s, log) && Ready(cs, size, s, t, log, c) && Labelled(cs, size, s, u, log, c, l)
    requires u.mergeTarget == t.mergeTarget && u.pred == t.pred && u.indirect == t.indirect
    ensures Shape(cs, size, u, log + [c])
  {
    OldAndNew(cs, size, s, u, log, c, l);
    var log' := log + [c];
    assert log'[..|log|] == log;
    assert c.root in Nodes(c);
    hide SccOrder, ComesNext, Preds, Succ, Sources;
    forall r ensures r in u.peLabel <==> r in Done(log') && Leader(log', r) == r {
      if r in Done(log) {
        assert Leader(log', r) == Leader(log, r);
      }
    }
  }

  /** The sources of a component that is reported next. */
  lemma SourcesOfNext(cs: seq<Constraint>, size: nat, log: seq<Component>, c: Component)
    requires SccOrder(PredGraph(cs, size), log) && ComesNext(PredGraph(cs, size), Done(log), c)
    ensures OutPreds(cs, size, c) <= Done(log)
    ensures Indirect(cs, size, c) ==> Sources(cs, size, log + [c], c.root) == {c.root}
    ensures !Indirect(cs, size, c) ==> forall r :: r in Sources(cs, size, log + [c], c.root) <==>
              exists p :: p in OutPreds(cs, size, c) && r in Sources(cs, size, log, p)
  {
    assert (log + [c])[..|log|] == log;
    assert c.root in Nodes(c);
    forall p | p in OutPreds(cs, size, c) ensures p in Done(log) {
      var z :| z in Nodes(c) && p in Preds(cs, size, z) && p !in Nodes(c);
      assert p in Succ(PredGraph(cs, size), z);
    }
  }

  lemma PoolIsStable(cs: seq<Constraint>, size: nat, s: Opt, u: Opt, log: seq<Component>, c: Component, l: nat, ls: set<nat>)
    requires Labelled(cs, size, s, u, log, c, l)
    requires l in ls ==> exists y :: y in Done(log) && Lab(s, log, y) == l && Sources(cs, size, log, y) == Sources(cs, size, log + [c], c.root)
    ensures Pool(cs, size, u, log + [c], ls) == Pool(cs, size, s, log, ls)
  {
    OldAndNew(cs, size, s, u, log, c, l);
    hide Labelled, Sources, Lab, Done;
    forall r ensures r in Pool(cs, size, u, log + [c], ls) <==> r in Pool(cs, size, s, log, ls) {
      if r in Pool(cs, size, s, log, ls) {
        var p :| p in Done(log) && Lab(s, log, p) in ls && r in Sources(cs, size, log, p);
        assert p in Done(log + [c]);
      }
      if r in Pool(cs, size, u, log + [c], ls) {
        var p :| p in Done(log + [c]) && Lab(u, log + [c], p) in ls && r in Sources(cs, size, log + [c], p);
        if p in Nodes(c) {
          var y :| y in Done(log) && Lab(s, log, y) == l && Sources(cs, size, log, y) == Sources(cs, size, log + [c], c.root);
        }
      }
    }
  }

  // HVN

  /** The non-zero labels that flow into c. */
  ghost function LabelsInto(cs: seq<Constraint>, size: nat, s: Opt, log: seq<Component>, c: Component): set<nat> {
    set p | p in OutPreds(cs, size, c) && Lab(s, log, p) != 0 :: Lab(s, log, p)
  }

  lemma RepInto(cs: seq<Constraint>, size: nat, s: Opt, t: Opt, log: seq<Component>, c: Component, p: nat)
    requires SccOrder(PredGraph(cs, size), log) && ComesNext(PredGraph(cs, size), Done(log), c)
    requires Ready(cs, size, s, t, log, c) && p in Succ(t.pred, c.root)
    ensures p in Nodes(c) ==> RepOf(t, p) == c.root
    ensures p !in Nodes(c) ==> p in OutPreds(cs, size, c) && p in Done(log) && RepOf(t, p) == Leader(log, p) != c.root
  {
    SccOrderSnoc(PredGraph(cs, size), log, c);
    RepIsLeader(PredGraph(cs, size), t, log + [c], p);
    assert (log + [c])[..|log|] == log;
    var x :| x in Nodes(c) && p in Preds(cs, size, x);
    assert p in Succ(PredGraph(cs, size), x);
    assert c.root in Nodes(c);
    LeaderFacts(PredGraph(cs, size), log, p);
  }

  lemma LabelInto(cs: seq<Constraint>, size: nat, s: Opt, t: Opt, log: seq<Component>, c: Component, p: nat)
    requires SccOrder(PredGraph(cs, size), log) && ComesNext(PredGraph(cs, size), Done(log), c)
    requires Ready(cs, size, s, t, log, c)
    ensures p in Succ(t.pred, c.root) && RepOf(t, p) != c.root <==> p in OutPreds(cs, size, c)
    ensures p in OutPreds(cs, size, c) ==> LabelOf(t, RepOf(t, p)) == Lab(s, log, p) && RepOf(t, p) == Leader(log, p) && p in Done(log)
  {
    hide SccOrder, ComesNext, Done, Leader, RepOf, Preds, Succ, Nodes;
    if p in OutPreds(cs, size, c) {
      var x := OutPredFrom(cs, size, c, p);
      assert p in Succ(t.pred, c.root);
    }
    if p in Succ(t.pred, c.root) {
      RepInto(cs, size, s, t, log, c, p);
      if p !in Nodes(c) {
        assert c.root !in Done(log) by {
          RootIsNew(PredGraph(cs, size), Done(log), c);
        }
        LeaderFacts(PredGraph(cs, size), log, p);
        assert LabelOf(t, Leader(log, p)) == LabelOf(s, Leader(log, p));
      }
    }
  }

  lemma RootIsNew(g: Graph, done: set<nat>, c: Component)
    requires ComesNext(g, done, c)
    ensures c.root !in done
  {
    assert c.root in Nodes(c);
  }

  lemma PredLabelsAre(cs: seq<Constraint>, size: nat, s: Opt, t: Opt, log: seq<Component>, c: Component)
    requires SccOrder(PredGraph(cs, size), log) && ComesNext(PredGraph(cs, size), Done(log), c)
    requires Ready(cs, size, s, t, log, c)
    ensures PredLabels(t, c.root) == LabelsInto(cs, size, s, log, c)
  {
    hide SccOrder, ComesNext, Ready, OutPreds, Lab, LabelOf, RepOf, Succ;
    forall l ensures l in PredLabels(t, c.root) <==> l in LabelsInto(cs, size, s, log, c) {
      if l in PredLabels(t, c.root) {
        var p :| p in Succ(t.pred, c.root) && RepOf(t, p) != c.root && LabelOf(t, RepOf(t, p)) != 0 && LabelOf(t, RepOf(t, p)) == l;
        LabelInto(cs, size, s, t, log, c, p);
      }
      if l in LabelsInto(cs, size, s, log, c) {
        var p :| p in OutPreds(cs, size, c) && Lab(s, log, p) != 0 && Lab(s, log, p) == l;
        LabelInto(cs, size, s, t, log, c, p);
      }
    }
  }

  lemma PoolOfLabels(cs: seq<Constraint>, size: nat, s: Opt, log: seq<Component>, c: Component)
    requires SccOrder(PredGraph(cs, size), log) && ComesNext(PredGraph(cs, size), Done(log), c) && LabelsOk(cs, size, s, log)
    requires !Indirect(cs, size, c)
    ensures Sources(cs, size, log + [c], c.root) == Pool(cs, size, s, log, LabelsInto(cs, size, s, log, c))
    ensures forall l | l in LabelsInto(cs, size, s, log, c) :: l != 0 && Used(s, log, l)
    ensures Sources(cs, size, log + [c], c.root) == {} <==> LabelsInto(cs, size, s, log, c) == {}
  {
    hide Sources, SccOrder, ComesNext, Lab, Indirect, OutPreds, LabelsInto, Pool, LabelsOk, Used, Done;
    SourcesOfNext(cs, size, log, c);
    var src := Sources(cs, size, log + [c], c.root);
    PoolIsUnion(cs, size, s, log, c, src);
    IntoAreUsed(cs, size, s, log, c, src);
  }

  lemma PoolIsUnion(cs: seq<Constraint>, size: nat, s: Opt, log: seq<Component>, c: Component, src: set<nat>)
    requires LabelsOk(cs, size, s, log) && OutPreds(cs, size, c) <= Done(log)
    requires forall r :: r in src <==> exists p :: p in OutPreds(cs, size, c) && r in Sources(cs, size, log, p)
    ensures src == Pool(cs, size, s, log, LabelsInto(cs, size, s, log, c))
  {
    hide Sources, Lab, OutPreds, Done;
    var ls := LabelsInto(cs, size, s, log, c);
    forall r ensures r in src <==> r in Pool(cs, size, s, log, ls) {
      if r in src {
        var p :| p in OutPreds(cs, size, c) && r in Sources(cs, size, log, p);
        assert p in Done(log) && Lab(s, log, p) in ls;
      }
      if r in Pool(cs, size, s, log, ls) {
        var q :| q in Done(log) && Lab(s, log, q) in ls && r in Sources(cs, size, log, q);
        var p :| p in OutPreds(cs, size, c) && Lab(s, log, p) != 0 && Lab(s, log, p) == Lab(s, log, q);
        assert r in Sources(cs, size, log, p);
      }
    }
  }

  lemma IntoAreUsed(cs: seq<Constraint>, size: nat, s: Opt, log: seq<Component>, c: Component, src: set<nat>)
    requires LabelsOk(cs, size, s, log) && OutPreds(cs, size, c) <= Done(log)
    requires forall r :: r in src <==> exists p :: p in OutPreds(cs, size, c) && r in Sources(cs, size, log, p)
    ensures forall l | l in LabelsInto(cs, size, s, log, c) :: l != 0 && Used(s, log, l)
    ensures src == {} <==> LabelsInto(cs, size, s, log, c) == {}
  {
    hide Sources, Lab, OutPreds, Done;
    var ls := LabelsInto(cs, size, s, log, c);
    if l :| l in ls {
      var p :| p in OutPreds(cs, size, c) && Lab(s, log, p) != 0 && Lab(s, log, p) == l;
      var r :| r in Sources(cs, size, log, p);
      assert r in src;
    }
    if r :| r in src {
      var p :| p in OutPreds(cs, size, c) && r in Sources(cs, size, log, p);
      assert Lab(s, log, p) in ls;
    }
  }

  /** l is 0, is new, or is already the label of a node with the same sources. */
  ghost predicate GoodLabel(cs: seq<Constraint>, size: nat, s: Opt, log: seq<Component>, c: Component, l: nat) {
    || (l == 0 && Sources(cs, size, log + [c], c.root) == {})
    || (l == s.next && Sources(cs, size, log + [c], c.root) != {})
    || (l != 0 && exists w :: w in Done(log) && Lab(s, log, w) == l && Sources(cs, size, log, w) == Sources(cs, size, log + [c], c.root))
  }

  lemma GoodLabelsStep(cs: seq<Constraint>, size: nat, s: Opt, u: Opt, log: seq<Component>, c: Component, l: nat)
    requires LabelsOk(cs, size, s, log) && Labelled(cs, size, s, u, log, c, l) && GoodLabel(cs, size, s, log, c, l)
    ensures LabelsOk(cs, size, u, log + [c])
  {
    hide Labelled, Sources, Lab, Done;
    LabelsStep(cs, size, s, u, log, c, l);
  }

  lemma UsedStays(cs: seq<Constraint>, size: nat, s: Opt, u: Opt, log: seq<Component>, c: Component, l: nat, k: nat)
    requires Labelled(cs, size, s, u, log, c, l) && Used(s, log, k)
    ensures Used(u, log + [c], k)
  {
    OldAndNew(cs, size, s, u, log, c, l);
    hide Labelled, Sources, Lab, Done, Nodes;
    var p :| p in Done(log) && Lab(s, log, p) == k;
    assert p in Done(log + [c]);
  }

  lemma GoodLabelIsKnown(cs: seq<Constraint>, size: nat, s: Opt, log: seq<Component>, c: Component, l: nat)
    requires LabelsOk(cs, size, s, log) && GoodLabel(cs, size, s, log, c, l) && Used(s, log, l) && l != 0
    ensures exists y :: y in Done(log) && Lab(s, log, y) == l && Sources(cs, size, log, y) == Sources(cs, size, log + [c], c.root)
  {
    hide Sources, Lab, Done;
  }

  lemma HvnEntryStep(cs: seq<Constraint>, size: nat, s: Opt, u: Opt, log: seq<Component>, c: Component, l: nat, ls: set<nat>)
    requires LabelsOk(cs, size, s, log) && Labelled(cs, size, s, u, log, c, l) && GoodLabel(cs, size, s, log, c, l)
    requires ls in s.setLabel && HvnEntry(cs, size, s, log, ls) && ls in u.setLabel && u.setLabel[ls] == s.setLabel[ls]
    ensures HvnEntry(cs, size, u, log + [c], ls)
  {
    assert s.next <= u.next;
    hide Labelled, Sources, Lab, Done, Pool, LabelsOk, GoodLabel, Used, Nodes;
    if l in ls {
      GoodLabelIsKnown(cs, size, s, log, c, l);
    }
    PoolIsStable(cs, size, s, u, log, c, l, ls);
    forall k | Used(s, log, k) ensures Used(u, log + [c], k) {
      UsedStays(cs, size, s, u, log, c, l, k);
    }
    forall y | y in Done(log + [c]) && Lab(u, log + [c], y) == s.setLabel[ls]
      ensures Sources(cs, size, log + [c], y) == Pool(cs, size, s, log, ls)
    {
      SourcesByLabel(cs, size, s, u, log, c, l, y, Pool(cs, size, s, log, ls));
    }
  }

  /** A label that was in use still stands for the same sources. */
  lemma SourcesByLabel(cs: seq<Constraint>, size: nat, s: Opt, u: Opt, log: seq<Component>, c: Component, l: nat, y: nat, src: set<nat>)
    requires LabelsOk(cs, size, s, log) && Labelled(cs, size, s, u, log, c, l) && GoodLabel(cs, size, s, log, c, l)
    requires y in Done(log + [c]) && Used(s, log, Lab(u, log + [c], y)) && Lab(u, log + [c], y) != 0
    requires forall z | z in Done(log) && Lab(s, log, z) == Lab(u, log + [c], y) :: Sources(cs, size, log, z) == src
    ensures Sources(cs, size, log + [c], y) == src
  {
    OldAndNew(cs, size, s, u, log, c, l);
    hide Labelled, Sources, Lab, Done, LabelsOk, GoodLabel, Used, Nodes;
    if y in Nodes(c) {
      GoodLabelIsKnown(cs, size, s, log, c, l);
    }
  }

  /** The new entry of HVN's table. */
  lemma HvnNewEntry(cs: seq<Constraint>, size: nat, s: Opt, u: Opt, log: seq<Component>, c: Component, ls: set<nat>)
    requires LabelsOk(cs, size, s, log) && Labelled(cs, size, s, u, log, c, s.next) && !Indirect(cs, size, c)
    requires ls == LabelsInto(cs, size, s, log, c) && ls != {}
    requires ls in u.setLabel && u.setLabel[ls] == s.next
    ensures HvnEntry(cs, size, u, log + [c], ls)
  {
    OldAndNew(cs, size, s, u, log, c, s.next);
    PoolOfLabels(cs, size, s, log, c);
    assert s.next !in ls;
    PoolIsStable(cs, size, s, u, log, c, s.next, ls);
    forall k | Used(s, log, k) ensures Used(u, log + [c], k) {
      UsedStays(cs, size, s, u, log, c, s.next, k);
    }
    assert c.root in Nodes(c);
    assert Used(u, log + [c], s.next);
    assert s.next < u.next;
    hide Labelled, Sources, Lab, Done, Pool, LabelsInto;
  }

  /** Everything but the labels and the table is as before. */
  ghost predicate SameGraph(t: Opt, u: Opt) {
    u.mergeTarget == t.mergeTarget && u.pred == t.pred && u.indirect == t.indirect
  }

  lemma FreshLabel(cs: seq<Constraint>, size: nat, s: Opt, t: Opt, log: seq<Component>, c: Component)
    requires SccOrder(PredGraph(cs, size), log) && ComesNext(PredGraph(cs, size), Done(log), c)
    requires SameLabels(s, t) && Sources(cs, size, log + [c], c.root) != {}
    ensures Labelled(cs, size, s, Fresh(t, c.root), log, c, s.next) && GoodLabel(cs, size, s, log, c, s.next)
  {
  }

  lemma CombineGoodLabel(cs: seq<Constraint>, size: nat, s: Opt, t: Opt, log: seq<Component>, c: Component, ls: set<nat>) returns (l: nat)
    requires SccOrder(PredGraph(cs, size), log) && ComesNext(PredGraph(cs, size), Done(log), c)
    requires SameLabels(s, t) && LabelsOk(cs, size, s, log) && HvnTable(cs, size, s, log)
    requires Sources(cs, size, log + [c], c.root) == Pool(cs, size, s, log, ls)
    requires forall l | l in ls :: l != 0 && Used(s, log, l)
    requires Sources(cs, size, log + [c], c.root) == {} <==> ls == {}
    ensures var u := Combine(t, c.root, ls);
      && Labelled(cs, size, s, u, log, c, l) && GoodLabel(cs, size, s, log, c, l) && SameGraph(t, u)
      && (u.setLabel == s.setLabel || (l == s.next && ls != {} && ls !in s.setLabel && u.setLabel == s.setLabel[ls := l]))
      && HvnChosen(u.setLabel, ls, l)
  {
    hide SccOrder, ComesNext, Sources, Pool, Lab, Done;
    var u := Combine(t, c.root, ls);
    assert s.next >= 1;
    if ls == {} {
      l := 0;
    } else if |ls| == 1 {
      OneLabel(cs, size, s, log, ls);
      l := Min(ls);
      assert ls == {l};
    } else if ls in s.setLabel {
      TableHit(cs, size, s, log, ls);
      l := s.setLabel[ls];
    } else {
      l := s.next;
    }
    hide HvnTable, LabelsOk, Used;
    assert GoodLabel(cs, size, s, log, c, l);
    hide GoodLabel;
  }

  lemma TableHit(cs: seq<Constraint>, size: nat, s: Opt, log: seq<Component>, ls: set<nat>)
    requires HvnTable(cs, size, s, log) && ls in s.setLabel
    ensures 0 < s.setLabel[ls] < s.next
    ensures exists w :: w in Done(log) && Lab(s, log, w) == s.setLabel[ls] && Sources(cs, size, log, w) == Pool(cs, size, s, log, ls)
  {
    hide Sources, Pool, Lab, Done;
    assert HvnEntry(cs, size, s, log, ls);
    var w :| w in Done(log) && Lab(s, log, w) == s.setLabel[ls];
  }

  lemma OneLabel(cs: seq<Constraint>, size: nat, s: Opt, log: seq<Component>, ls: set<nat>)
    requires LabelsOk(cs, size, s, log) && |ls| == 1 && forall l | l in ls :: l != 0 && Used(s, log, l)
    ensures Min(ls) != 0 && Min(ls) < s.next && ls == {Min(ls)}
    ensures exists w :: w in Done(log) && Lab(s, log, w) == Min(ls) && Sources(cs, size, log, w) == Pool(cs, size, s, log, ls)
  {
    var l := Min(ls);
    assert ls == {l} by {
      assert |ls - {l}| == 0;
    }
    assert Used(s, log, l);
    var w :| w in Done(log) && Lab(s, log, w) == l;
    hide Sources, Lab, Done;
    assert Sources(cs, size, log, w) == Pool(cs, size, s, log, ls);
  }

  lemma HvnDirectOld(cs: seq<Constraint>, size: nat, s: Opt, u: Opt, log: seq<Component>, c: Component, l: nat, i: nat)
    requires Labelled(cs, size, s, u, log, c, l) && i < |log| && HvnDirect(cs, size, s, log, log[i])
    requires forall ks | ks in s.setLabel :: ks in u.setLabel && u.setLabel[ks] == s.setLabel[ks]
    ensures HvnDirect(cs, size, u, log + [c], log[i])
  {
    OldAndNew(cs, size, s, u, log, c, l);
    assert log[i].root in Nodes(log[i]);
    InDone(log, i, log[i].root);
    FedByDone(cs, size, log, i);
    hide Labelled, Lab, OutPreds, Done, Nodes, Sources;
    assert LabelsInto(cs, size, u, log + [c], log[i]) == LabelsInto(cs, size, s, log, log[i]);
  }

  lemma {:induction false} FedByDone(cs: seq<Constraint>, size: nat, log: seq<Component>, i: nat)
    requires SccOrder(PredGraph(cs, size), log) && i < |log|
    ensures OutPreds(cs, size, log[i]) <= Done(log)
  {
    var front, c := log[..|log| - 1], log[|log| - 1];
    if i < |log| - 1 {
      FedByDone(cs, size, front, i);
    } else {
      forall p | p in OutPreds(cs, size, c) ensures p in Done(front) {
        var z :| z in Nodes(c) && p in Preds(cs, size, z) && p !in Nodes(c);
        assert p in Succ(PredGraph(cs, size), z);
      }
    }
  }

  lemma HvnDirectNew(cs: seq<Constraint>, size: nat, s: Opt, u: Opt, log: seq<Component>, c: Component, l: nat, ls: set<nat>)
    requires Labelled(cs, size, s, u, log, c, l) && ls == LabelsInto(cs, size, s, log, c) && HvnChosen(u.setLabel, ls, l)
    ensures HvnDirect(cs, size, u, log + [c], c)
  {
    OldAndNew(cs, size, s, u, log, c, l);
    assert c.root in Nodes(c);
    SccOrderSnoc(PredGraph(cs, size), log, c);
    FedByDone(cs, size, log + [c], |log|);
    hide Labelled, Lab, Done, Sources;
    forall p | p in OutPreds(cs, size, c) ensures p in Done(log) {
    }
    hide OutPreds, Nodes;
    assert LabelsInto(cs, size, u, log + [c], c) == ls;
  }

  lemma HvnTableStep(cs: seq<Constraint>, size: nat, s: Opt, u: Opt, log: seq<Component>, c: Component, l: nat, ls: set<nat>)
    requires LabelsOk(cs, size, s, log) && HvnTable(cs, size, s, log)
    requires Labelled(cs, size, s, u, log, c, l) && GoodLabel(cs, size, s, log, c, l)
    requires u.setLabel == s.setLabel
          || (l == s.next && !Indirect(cs, size, c) && ls == LabelsInto(cs, size, s, log, c) && ls != {} && ls !in s.setLabel
              && u.setLabel == s.setLabel[ls := l])
    requires !Indirect(cs, size, c) ==> ls == LabelsInto(cs, size, s, log, c) && HvnChosen(u.setLabel, ls, l)
    ensures HvnTable(cs, size, u, log + [c])
  {
    hide Sources, LabelsInto, LabelsOk, Labelled, GoodLabel, HvnEntry, Indirect, HvnDirect, HvnChosen;
    forall i | 0 <= i < |log + [c]| && !Indirect(cs, size, (log + [c])[i]) ensures HvnDirect(cs, size, u, log + [c], (log + [c])[i]) {
      if i < |log| {
        assert (log + [c])[i] == log[i];
        HvnDirectOld(cs, size, s, u, log, c, l, i);
      } else {
        HvnDirectNew(cs, size, s, u, log, c, l, ls);
      }
    }
    forall ks | ks in u.setLabel ensures HvnEntry(cs, size, u, log + [c], ks) {
      if ks in s.setLabel {
        assert HvnEntry(cs, size, s, log, ks);
        HvnEntryStep(cs, size, s, u, log, c, l, ks);
      } else {
        HvnNewEntry(cs, size, s, u, log, c, ks);
      }
    }
  }

  lemma HvnStep(cs: seq<Constraint>, size: nat, s: Opt, t: Opt, log: seq<Component>, c: Component)
    requires SccOrder(PredGraph(cs, size), log) && ComesNext(PredGraph(cs, size), Done(log), c)
    requires Ready(cs, size, s, t, log, c) && OptInv(cs, size, HVN, s, log)
    ensures OptInv(cs, size, HVN, HvnLabel(size, t, c.root), log + [c])
  {
    var u := HvnLabel(size, t, c.root);
    var ls := LabelsInto(cs, size, s, log, c);
    var l := s.next;
    SourcesOfNext(cs, size, log, c);
    PredLabelsAre(cs, size, s, t, log, c);
    assert SameLabels(s, t);
    if Indirect(cs, size, c) {
      assert u == Fresh(t, c.root);
      hide SccOrder, ComesNext, Sources, LabelsInto, Ready, Shape, LabelsOk, HvnTable, Indirect, Combine;
      FreshLabel(cs, size, s, t, log, c);
    } else {
      assert u == Combine(t, c.root, ls);
      PoolOfLabels(cs, size, s, log, c);
      hide SccOrder, ComesNext, Sources, LabelsInto, Ready, Shape, LabelsOk, HvnTable, Indirect, Combine, Fresh;
      l := CombineGoodLabel(cs, size, s, t, log, c, ls);
    }
    hide SccOrder, ComesNext, Sources, LabelsInto, Ready, Shape, LabelsOk, HvnTable, Indirect, Combine, Labelled, GoodLabel, HvnLabel, HvnChosen;
    ShapeStep(cs, size, s, t, u, log, c, l);
    GoodLabelsStep(cs, size, s, u, log, c, l);
    HvnTableStep(cs, size, s, u, log, c, l, ls);
  }

  // HU

  lemma {:induction false} SourcesInGraph(cs: seq<Constraint>, size: nat, log: seq<Component>, x: nat)
    requires SccOrder(PredGraph(cs, size), log)
    ensures forall r | r in Sources(cs, size, log, x) :: r < 3 * size
    decreases |log|
  {
    if log != [] {
      var front, c := log[..|log| - 1], log[|log| - 1];
      assert c.root in Nodes(c);
      SourcesInGraph(cs, size, front, x);
      forall p ensures forall r | r in Sources(cs, size, front, p) :: r < 3 * size {
        SourcesInGraph(cs, size, front, p);
      }
      hide SccOrder, Mutual;
    }
  }

  lemma TokenInjective(size: nat, a: nat, b: nat)
    requires a < 3 * size && b < 3 * size && Token(size, a) == Token(size, b)
    ensures a == b
  {
  }

  lemma TokensInjective(size: nat, a: set<nat>, b: set<nat>)
    requires (forall r | r in a :: r < 3 * size) && (forall r | r in b :: r < 3 * size)
    requires Tokens(size, a) == Tokens(size, b)
    ensures a == b
  {
    forall r | r in a ensures r in b {
      assert Token(size, r) in Tokens(size, a);
      var q :| q in b && Token(size, q) == Token(size, r);
      TokenInjective(size, r, q);
    }
    forall r | r in b ensures r in a {
      assert Token(size, r) in Tokens(size, b);
      var q :| q in a && Token(size, q) == Token(size, r);
      TokenInjective(size, r, q);
    }
  }

  lemma TokensEmpty(size: nat, a: set<nat>)
    ensures Tokens(size, a) == {} <==> a == {}
  {
    if r :| r in a {
      assert Token(size, r) in Tokens(size, a);
    }
  }

  lemma PredPtsAt(cs: seq<Constraint>, size: nat, s: Opt, t: Opt, log: seq<Component>, c: Component, p: nat)
    requires SccOrder(PredGraph(cs, size), log) && ComesNext(PredGraph(cs, size), Done(log), c)
    requires Ready(cs, size, s, t, log, c) && Shape(cs, size, s, log) && HuSets(cs, size, s, log)
    ensures p in Succ(t.pred, c.root) && RepOf(t, p) in t.ptsSet <==> p in OutPreds(cs, size, c)
    ensures p in OutPreds(cs, size, c) ==> t.ptsSet[RepOf(t, p)] == Tokens(size, Sources(cs, size, log, p))
  {
    LabelInto(cs, size, s, t, log, c, p);
    assert c.root in Nodes(c) && c.root !in s.peLabel.Keys;
    assert t.ptsSet == s.ptsSet;
    LeaderFacts(PredGraph(cs, size), log, p);
    hide SccOrder, ComesNext, OutPreds, RepOf, Succ, Sources, Tokens;
    if p in OutPreds(cs, size, c) {
      assert Leader(log, p) in s.peLabel.Keys;
    }
  }

  lemma PredPtsAre(cs: seq<Constraint>, size: nat, s: Opt, t: Opt, log: seq<Component>, c: Component)
    requires SccOrder(PredGraph(cs, size), log) && ComesNext(PredGraph(cs, size), Done(log), c)
    requires Ready(cs, size, s, t, log, c) && Shape(cs, size, s, log) && HuSets(cs, size, s, log)
    requires !Indirect(cs, size, c)
    ensures PredPts(t, c.root) == Tokens(size, Sources(cs, size, log + [c], c.root))
  {
    hide SccOrder, ComesNext, Ready, Shape, OutPreds, RepOf, Succ, Sources, Indirect, Token, HuSets, PredPts, Tokens;
    SourcesOfNext(cs, size, log, c);
    forall p: nat ensures PredPtsIs(cs, size, t, log, c, p) {
      PredPtsAt(cs, size, s, t, log, c, p);
    }
    UnionOfTokens(cs, size, t, log, c, Sources(cs, size, log + [c], c.root));
  }

  ghost predicate PredPtsIs(cs: seq<Constraint>, size: nat, t: Opt, log: seq<Component>, c: Component, p: nat) {
    && (p in Succ(t.pred, c.root) && RepOf(t, p) in t.ptsSet <==> p in OutPreds(cs, size, c))
    && (p in OutPreds(cs, size, c) ==> t.ptsSet[RepOf(t, p)] == Tokens(size, Sources(cs, size, log, p)))
  }

  lemma UnionOfTokens(cs: seq<Constraint>, size: nat, t: Opt, log: seq<Component>, c: Component, src: set<nat>)
    requires forall p: nat :: PredPtsIs(cs, size, t, log, c, p)
    requires forall r :: r in src <==> exists p :: p in OutPreds(cs, size, c) && r in Sources(cs, size, log, p)
    ensures PredPts(t, c.root) == Tokens(size, src)
  {
    hide OutPreds, RepOf, Succ, Sources, Token;
    forall e ensures e in PredPts(t, c.root) <==> e in Tokens(size, src) {
      if e in PredPts(t, c.root) {
        var p :| p in Succ(t.pred, c.root) && RepOf(t, p) in t.ptsSet && e in t.ptsSet[RepOf(t, p)];
        assert PredPtsIs(cs, size, t, log, c, p);
        var r :| r in Sources(cs, size, log, p) && Token(size, r) == e;
        assert r in src;
      }
      if e in Tokens(size, src) {
        var r :| r in src && Token(size, r) == e;
        var p :| p in OutPreds(cs, size, c) && r in Sources(cs, size, log, p);
        assert PredPtsIs(cs, size, t, log, c, p);
        assert e in Tokens(size, Sources(cs, size, log, p));
      }
    }
  }

  lemma HuEntryStep(cs: seq<Constraint>, size: nat, s: Opt, u: Opt, log: seq<Component>, c: Component, l: nat, ts: set<nat>)
    requires LabelsOk(cs, size, s, log) && Labelled(cs, size, s, u, log, c, l) && GoodLabel(cs, size, s, log, c, l)
    requires ts in s.setLabel && HuEntry(cs, size, s, log, ts) && ts in u.setLabel && u.setLabel[ts] == s.setLabel[ts]
    ensures HuEntry(cs, size, u, log + [c], ts)
  {
    OldAndNew(cs, size, s, u, log, c, l);
    assert s.next <= u.next;
    hide Labelled, Sources, Lab, Done, Tokens;
    var w :| w in Done(log) && Lab(s, log, w) == s.setLabel[ts];
    assert w in Done(log + [c]);
    forall y | y in Done(log + [c]) && Lab(u, log + [c], y) == s.setLabel[ts]
      ensures Tokens(size, Sources(cs, size, log + [c], y)) == ts
    {
      if y in Nodes(c) {
        assert Sources(cs, size, log, w) == Sources(cs, size, log + [c], c.root);
      }
    }
  }

  lemma HuNewEntry(cs: seq<Constraint>, size: nat, s: Opt, u: Opt, log: seq<Component>, c: Component, ts: set<nat>)
    requires LabelsOk(cs, size, s, log) && Labelled(cs, size, s, u, log, c, s.next)
    requires ts == Tokens(size, Sources(cs, size, log + [c], c.root)) && ts != {}
    requires ts in u.setLabel && u.setLabel[ts] == s.next
    ensures HuEntry(cs, size, u, log + [c], ts)
  {
    OldAndNew(cs, size, s, u, log, c, s.next);
    assert c.root in Nodes(c);
    assert Used(u, log + [c], s.next);
    assert s.next < u.next;
    hide Labelled, Sources, Lab, Done, Tokens;
  }

  lemma HuSetsStep(cs: seq<Constraint>, size: nat, s: Opt, u: Opt, log: seq<Component>, c: Component, l: nat)
    requires HuSets(cs, size, s, log) && Labelled(cs, size, s, u, log, c, l) && Shape(cs, size, s, log)
    requires u.ptsSet == s.ptsSet[c.root := Tokens(size, Sources(cs, size, log + [c], c.root))]
    ensures HuSets(cs, size, u, log + [c])
  {
    hide Sources, Lab, Done, Tokens, Shape, Leader, SccOrder, ComesNext;
    OldAndNew(cs, size, s, u, log, c, l);
    assert c.root in Nodes(c);
    assert u.peLabel.Keys == s.peLabel.Keys + {c.root} && u.ptsSet.Keys == s.ptsSet.Keys + {c.root};
    forall x | x in Done(log) ensures Leader(log + [c], x) == Leader(log, x) && Leader(log, x) != c.root {
      OldLeader(cs, size, s, u, log, c, l, x);
    }
    hide Labelled, Nodes;
    forall x | x in Done(log + [c]) && Leader(log + [c], x) in u.ptsSet
      ensures u.ptsSet[Leader(log + [c], x)] == Tokens(size, Sources(cs, size, log + [c], x))
    {
      if x in Done(log) {
        assert Leader(log, x) in s.ptsSet;
      }
    }
  }

  /** The next component changes no leader. */
  lemma OldLeader(cs: seq<Constraint>, size: nat, s: Opt, u: Opt, log: seq<Component>, c: Component, l: nat, x: nat)
    requires Labelled(cs, size, s, u, log, c, l) && x in Done(log)
    ensures Leader(log + [c], x) == Leader(log, x) && Leader(log, x) != c.root
  {
    OldAndNew(cs, size, s, u, log, c, l);
    assert c.root in Nodes(c) && (log + [c])[..|log|] == log;
    LeaderFacts(PredGraph(cs, size), log, x);
    hide Sources, Lab, ComesNext, SccOrder, PredGraph;
  }

  lemma HuDirectStep(cs: seq<Constraint>, size: nat, s: Opt, u: Opt, log: seq<Component>, c: Component, l: nat)
    requires Labelled(cs, size, s, u, log, c, l)
    requires forall i | 0 <= i < |log| && !Indirect(cs, size, log[i]) :: HuDirect(cs, size, s, log, log[i].root)
    requires !Indirect(cs, size, c) ==> HuDirect(cs, size, u, log + [c], c.root)
    requires forall ts | ts in s.setLabel :: ts in u.setLabel && u.setLabel[ts] == s.setLabel[ts]
    ensures forall i | 0 <= i < |log + [c]| && !Indirect(cs, size, (log + [c])[i]) :: HuDirect(cs, size, u, log + [c], (log + [c])[i].root)
  {
    OldAndNew(cs, size, s, u, log, c, l);
    forall i | 0 <= i < |log| ensures log[i].root in Done(log) {
      assert log[i].root in Nodes(log[i]);
      InDone(log, i, log[i].root);
    }
    hide Labelled, Sources, Lab, Done, Tokens, Indirect;
    forall i | 0 <= i < |log + [c]| && !Indirect(cs, size, (log + [c])[i]) ensures HuDirect(cs, size, u, log + [c], (log + [c])[i].root) {
      if i < |log| {
        assert (log + [c])[i] == log[i];
        assert HuDirect(cs, size, s, log, log[i].root);
      } else {
        assert (log + [c])[i] == c;
      }
    }
  }

  lemma HuHit(cs: seq<Constraint>, size: nat, s: Opt, log: seq<Component>, c: Component, ts: set<nat>)
    requires SccOrder(PredGraph(cs, size), log) && SccOrder(PredGraph(cs, size), log + [c])
    requires ts == Tokens(size, Sources(cs, size, log + [c], c.root)) && ts in s.setLabel && HuEntry(cs, size, s, log, ts)
    ensures GoodLabel(cs, size, s, log, c, s.setLabel[ts]) && s.setLabel[ts] < s.next
  {
    var w :| w in Done(log) && Lab(s, log, w) == s.setLabel[ts];
    SourcesInGraph(cs, size, log, w);
    SourcesInGraph(cs, size, log + [c], c.root);
    TokensInjective(size, Sources(cs, size, log, w), Sources(cs, size, log + [c], c.root));
  }

  /** The label that HuAssign gives. */
  function HuChoice(s: Opt, ts: set<nat>): nat {
    if ts == {} then 0 else if ts in s.setLabel then s.setLabel[ts] else s.next
  }

  lemma HuAssigned(cs: seq<Constraint>, size: nat, s: Opt, t: Opt, log: seq<Component>, c: Component, ts: set<nat>)
    requires SccOrder(PredGraph(cs, size), log) && ComesNext(PredGraph(cs, size), Done(log), c)
    requires SameLabels(s, t) && s.next >= 1 && (ts in s.setLabel && ts != {} ==> s.setLabel[ts] < s.next)
    ensures var u := HuAssign(t, c.root, ts); var l := HuChoice(s, ts);
      && Labelled(cs, size, s, u, log, c, l) && SameGraph(t, u)
      && u.ptsSet == s.ptsSet[c.root := ts]
      && (u.setLabel == s.setLabel || (l == s.next && ts != {} && ts !in s.setLabel && u.setLabel == s.setLabel[ts := l]))
      && (ts == {} || (ts in u.setLabel && u.setLabel[ts] == l))
  {
    hide SccOrder, ComesNext, Done;
  }

  lemma HuGoodLabel(cs: seq<Constraint>, size: nat, s: Opt, t: Opt, log: seq<Component>, c: Component, ts: set<nat>) returns (l: nat)
    requires SccOrder(PredGraph(cs, size), log) && ComesNext(PredGraph(cs, size), Done(log), c)
    requires SameLabels(s, t) && LabelsOk(cs, size, s, log) && HuTable(cs, size, s, log)
    requires ts == Tokens(size, Sources(cs, size, log + [c], c.root))
    ensures var u := HuAssign(t, c.root, ts);
      && Labelled(cs, size, s, u, log, c, l) && GoodLabel(cs, size, s, log, c, l) && SameGraph(t, u)
      && u.ptsSet == s.ptsSet[c.root := ts]
      && (u.setLabel == s.setLabel || (l == s.next && ts != {} && ts !in s.setLabel && u.setLabel == s.setLabel[ts := l]))
      && (ts == {} || (ts in u.setLabel && u.setLabel[ts] == l))
  {
    assert s.next >= 1;
    hide SccOrder, ComesNext, Sources, Tokens, LabelsOk, Used, HuEntry, Done, HuAssign, Labelled;
    SccOrderSnoc(PredGraph(cs, size), log, c);
    TokensEmpty(size, Sources(cs, size, log + [c], c.root));
    l := HuChoice(s, ts);
    if ts in s.setLabel && ts != {} {
      assert HuEntry(cs, size, s, log, ts);
      hide GoodLabel;
      HuHit(cs, size, s, log, c, ts);
    } else {
      assert GoodLabel(cs, size, s, log, c, l);
    }
    hide HuTable, GoodLabel;
    HuAssigned(cs, size, s, t, log, c, ts);
  }

  lemma HuEntriesStep(cs: seq<Constraint>, size: nat, s: Opt, u: Opt, log: seq<Component>, c: Component, l: nat, ts: set<nat>)
    requires LabelsOk(cs, size, s, log) && Labelled(cs, size, s, u, log, c, l) && GoodLabel(cs, size, s, log, c, l)
    requires forall ks | ks in s.setLabel :: HuEntry(cs, size, s, log, ks)
    requires ts == Tokens(size, Sources(cs, size, log + [c], c.root))
    requires u.setLabel == s.setLabel || (l == s.next && ts != {} && ts !in s.setLabel && u.setLabel == s.setLabel[ts := l])
    ensures forall ks | ks in u.setLabel :: HuEntry(cs, size, u, log + [c], ks)
  {
    hide Sources, LabelsOk, Labelled, GoodLabel, HuEntry, Tokens;
    forall ks | ks in u.setLabel ensures HuEntry(cs, size, u, log + [c], ks) {
      if ks in s.setLabel {
        HuEntryStep(cs, size, s, u, log, c, l, ks);
      } else {
        HuNewEntry(cs, size, s, u, log, c, ks);
      }
    }
  }

  lemma HuApartStep(cs: seq<Constraint>, size: nat, s: Opt, u: Opt, log: seq<Component>, c: Component, l: nat, ts: set<nat>)
    requires LabelsOk(cs, size, s, log) && Labelled(cs, size, s, u, log, c, l) && HuApart(cs, size, s, log)
    requires forall ks | ks in s.setLabel :: HuEntry(cs, size, s, log, ks)
    requires u.setLabel == s.setLabel || (l == s.next && u.setLabel == s.setLabel[ts := l])
    requires Indirect(cs, size, c) ==> u.setLabel == s.setLabel && l == s.next
    ensures HuApart(cs, size, u, log + [c])
  {
    OldAndNew(cs, size, s, u, log, c, l);
    assert c.root in Nodes(c) && forall ks | ks in s.setLabel :: s.setLabel[ks] < s.next;
    assert forall x | x in Done(log) :: Lab(s, log, x) < s.next;
    forall i | 0 <= i < |log| ensures log[i].root in Done(log) {
      assert log[i].root in Nodes(log[i]);
      InDone(log, i, log[i].root);
    }
    hide Labelled, LabelsOk, HuEntry, Sources, Lab, Done, Indirect, Nodes;
    forall ks, i | ks in u.setLabel && 0 <= i < |log + [c]| && Indirect(cs, size, (log + [c])[i])
      ensures u.setLabel[ks] != Lab(u, log + [c], (log + [c])[i].root)
    {
      if i < |log| {
        assert (log + [c])[i] == log[i];
      }
    }
  }

  lemma HuDirectNew(cs: seq<Constraint>, size: nat, s: Opt, u: Opt, log: seq<Component>, c: Component, l: nat, ts: set<nat>)
    requires Labelled(cs, size, s, u, log, c, l) && ts == Tokens(size, Sources(cs, size, log + [c], c.root))
    requires ts == {} || (ts in u.setLabel && u.setLabel[ts] == l)
    ensures HuDirect(cs, size, u, log + [c], c.root)
  {
    OldAndNew(cs, size, s, u, log, c, l);
    assert c.root in Nodes(c);
    hide Labelled, Sources, Lab, Tokens;
  }

  lemma HuTableStep(cs: seq<Constraint>, size: nat, s: Opt, u: Opt, log: seq<Component>, c: Component, l: nat, ts: set<nat>)
    requires LabelsOk(cs, size, s, log) && HuTable(cs, size, s, log) && Shape(cs, size, s, log)
    requires Labelled(cs, size, s, u, log, c, l) && GoodLabel(cs, size, s, log, c, l)
    requires ts == Tokens(size, Sources(cs, size, log + [c], c.root)) && u.ptsSet == s.ptsSet[c.root := ts]
    requires u.setLabel == s.setLabel || (l == s.next && ts != {} && ts !in s.setLabel && u.setLabel == s.setLabel[ts := l])
    requires Indirect(cs, size, c) || ts == {} || (ts in u.setLabel && u.setLabel[ts] == l)
    requires Indirect(cs, size, c) ==> u.setLabel == s.setLabel && l == s.next
    ensures HuTable(cs, size, u, log + [c])
  {
    hide Sources, LabelsOk, Labelled, GoodLabel, HuEntry, Indirect, Shape, HuSets, HuDirect, HuApart, Tokens, Nodes, Done, Lab;
    if !Indirect(cs, size, c) {
      HuDirectNew(cs, size, s, u, log, c, l, ts);
    }
    HuSetsStep(cs, size, s, u, log, c, l);
    HuDirectStep(cs, size, s, u, log, c, l);
    HuEntriesStep(cs, size, s, u, log, c, l, ts);
    HuApartStep(cs, size, s, u, log, c, l, ts);
  }

  lemma HuOfIndirect(cs: seq<Constraint>, size: nat, s: Opt, t: Opt, log: seq<Component>, c: Component)
    requires Ready(cs, size, s, t, log, c) && Indirect(cs, size, c)
    ensures SameLabels(s, t) && HuLabel(size, t, c.root) == Fresh(t, c.root).(ptsSet := t.ptsSet[c.root := {Token(size, c.root)}])
  {
    hide Indirect, Merged, Preds;
  }

  lemma OneToken(size: nat, n: nat)
    ensures Tokens(size, {n}) == {Token(size, n)}
  {
  }

  lemma HuIndirectStep(cs: seq<Constraint>, size: nat, s: Opt, t: Opt, log: seq<Component>, c: Component)
    requires SccOrder(PredGraph(cs, size), log) && ComesNext(PredGraph(cs, size), Done(log), c)
    requires Ready(cs, size, s, t, log, c) && OptInv(cs, size, HU, s, log) && Indirect(cs, size, c)
    ensures OptInv(cs, size, HU, HuLabel(size, t, c.root), log + [c])
  {
    hide SccOrder, ComesNext, Sources, Ready, Shape, LabelsOk, HuTable, Indirect, Tokens, Token, Labelled, GoodLabel, HuLabel, OptInv;
    var u := HuLabel(size, t, c.root);
    var ts := {Token(size, c.root)};
    SourcesOfNext(cs, size, log, c);
    OneToken(size, c.root);
    HuOfIndirect(cs, size, s, t, log, c);
    FreshLabel(cs, size, s, t, log, c);
    SameRootLabel(cs, size, s, Fresh(t, c.root), u, log, c, s.next);
    HuStepEnd(cs, size, s, t, u, log, c, s.next, ts);
  }

  lemma SameRootLabel(cs: seq<Constraint>, size: nat, s: Opt, t: Opt, u: Opt, log: seq<Component>, c: Component, l: nat)
    requires Labelled(cs, size, s, t, log, c, l) && u.peLabel == t.peLabel && u.next == t.next
    ensures Labelled(cs, size, s, u, log, c, l)
  {
    hide SccOrder, ComesNext;
  }

  lemma HuDirectlyStep(cs: seq<Constraint>, size: nat, s: Opt, t: Opt, log: seq<Component>, c: Component)
    requires SccOrder(PredGraph(cs, size), log) && ComesNext(PredGraph(cs, size), Done(log), c)
    requires Ready(cs, size, s, t, log, c) && OptInv(cs, size, HU, s, log) && !Indirect(cs, size, c)
    ensures OptInv(cs, size, HU, HuLabel(size, t, c.root), log + [c])
  {
    var u := HuLabel(size, t, c.root);
    var ts := Tokens(size, Sources(cs, size, log + [c], c.root));
    SourcesOfNext(cs, size, log, c);
    PredPtsAre(cs, size, s, t, log, c);
    assert SameLabels(s, t) && u == HuAssign(t, c.root, ts);
    hide SccOrder, ComesNext, Sources, Ready, Shape, LabelsOk, HuTable, Indirect, HuAssign, Fresh, Tokens;
    var l := HuGoodLabel(cs, size, s, t, log, c, ts);
    hide Labelled, GoodLabel, HuLabel, OptInv;
    HuStepEnd(cs, size, s, t, u, log, c, l, ts);
  }

  lemma HuStep(cs: seq<Constraint>, size: nat, s: Opt, t: Opt, log: seq<Component>, c: Component)
    requires SccOrder(PredGraph(cs, size), log) && ComesNext(PredGraph(cs, size), Done(log), c)
    requires Ready(cs, size, s, t, log, c) && OptInv(cs, size, HU, s, log)
    ensures OptInv(cs, size, HU, HuLabel(size, t, c.root), log + [c])
  {
    hide *;
    if Indirect(cs, size, c) {
      HuIndirectStep(cs, size, s, t, log, c);
    } else {
      HuDirectlyStep(cs, size, s, t, log, c);
    }
  }

  lemma HuStepEnd(cs: seq<Constraint>, size: nat, s: Opt, t: Opt, u: Opt, log: seq<Component>, c: Component, l: nat, ts: set<nat>)
    requires Ready(cs, size, s, t, log, c) && OptInv(cs, size, HU, s, log) && SameGraph(t, u)
    requires Labelled(cs, size, s, u, log, c, l) && GoodLabel(cs, size, s, log, c, l)
    requires ts == Tokens(size, Sources(cs, size, log + [c], c.root)) && u.ptsSet == s.ptsSet[c.root := ts]
    requires u.setLabel == s.setLabel || (l == s.next && ts != {} && ts !in s.setLabel && u.setLabel == s.setLabel[ts := l])
    requires Indirect(cs, size, c) || ts == {} || (ts in u.setLabel && u.setLabel[ts] == l)
    requires Indirect(cs, size, c) ==> u.setLabel == s.setLabel && l == s.next
    ensures OptInv(cs, size, HU, u, log + [c])
  {
    hide Sources, Ready, Shape, LabelsOk, HuTable, Indirect, Labelled, GoodLabel, Tokens;
    ShapeStep(cs, size, s, t, u, log, c, l);
    GoodLabelsStep(cs, size, s, u, log, c, l);
    HuTableStep(cs, size, s, u, log, c, l, ts);
  }

  // ----- The detector's client is lawful -----

  function Base(cs: seq<Constraint>, size: nat): map<nat, nat> {
    map i | i in PredGraph(cs, size) :: i
  }

  ghost function Sim(cs: seq<Constraint>, size: nat, kind: Kind): (Opt, seq<Component>) -> bool {
    (s, log) => OptInv(cs, size, kind, s, log)
  }

  /** Creating a graph node changes no label and no edge. */
  ghost predicate Touched(s: Opt, t: Opt) {
    && SameLabels(s, t) && t.mergeTarget == s.mergeTarget && t.indirect == s.indirect
    && forall x :: Succ(t.pred, x) == Succ(s.pred, x)
  }

  lemma TouchedHvn(cs: seq<Constraint>, size: nat, s: Opt, t: Opt, log: seq<Component>)
    requires Touched(s, t) && HvnTable(cs, size, s, log)
    ensures HvnTable(cs, size, t, log)
  {
    assert forall x :: Lab(t, log, x) == Lab(s, log, x);
    hide HvnEntry, Lab, LabelsInto, HvnChosen;
    forall ls | ls in t.setLabel ensures HvnEntry(cs, size, t, log, ls) {
      TouchedEntry(cs, size, s, t, log, ls);
    }
    forall i | 0 <= i < |log| && !Indirect(cs, size, log[i]) ensures HvnDirect(cs, size, t, log, log[i]) {
      assert HvnDirect(cs, size, s, log, log[i]);
      TouchedInto(cs, size, s, t, log, log[i]);
    }
  }

  lemma TouchedInto(cs: seq<Constraint>, size: nat, s: Opt, t: Opt, log: seq<Component>, c: Component)
    requires forall x :: Lab(t, log, x) == Lab(s, log, x)
    ensures LabelsInto(cs, size, t, log, c) == LabelsInto(cs, size, s, log, c)
  {
    hide Lab;
  }

  lemma TouchedEntry(cs: seq<Constraint>, size: nat, s: Opt, t: Opt, log: seq<Component>, ls: set<nat>)
    requires ls in s.setLabel && HvnEntry(cs, size, s, log, ls) && t.setLabel == s.setLabel && t.next == s.next
    requires forall x :: Lab(t, log, x) == Lab(s, log, x)
    ensures HvnEntry(cs, size, t, log, ls)
  {
    hide Sources, Lab, Done;
    assert forall l :: Used(t, log, l) == Used(s, log, l);
    assert Pool(cs, size, t, log, ls) == Pool(cs, size, s, log, ls);
    hide Used;
  }

  lemma TouchedHu(cs: seq<Constraint>, size: nat, s: Opt, t: Opt, log: seq<Component>)
    requires Touched(s, t) && HuTable(cs, size, s, log)
    ensures HuTable(cs, size, t, log)
  {
    assert forall x :: Lab(t, log, x) == Lab(s, log, x);
    assert forall l :: Used(t, log, l) == Used(s, log, l);
    hide Sources, Lab, Used, Tokens;
    forall ts | ts in t.setLabel ensures HuEntry(cs, size, t, log, ts) {
      assert HuEntry(cs, size, s, log, ts);
    }
    forall i | 0 <= i < |log| && !Indirect(cs, size, log[i]) ensures HuDirect(cs, size, t, log, log[i].root) {
      assert HuDirect(cs, size, s, log, log[i].root);
    }
    assert HuApart(cs, size, t, log);
  }

  lemma TouchedShape(cs: seq<Constraint>, size: nat, s: Opt, t: Opt, log: seq<Component>)
    requires Touched(s, t) && Shape(cs, size, s, log)
    ensures Shape(cs, size, t, log)
  {
    hide Succ, Preds, Done, Leader;
  }

  lemma TouchedLabels(cs: seq<Constraint>, size: nat, s: Opt, t: Opt, log: seq<Component>)
    requires Touched(s, t) && LabelsOk(cs, size, s, log)
    ensures LabelsOk(cs, size, t, log)
  {
    assert forall x :: Lab(t, log, x) == Lab(s, log, x);
    hide Sources, Lab, Done;
  }

  lemma TouchKeeps(cs: seq<Constraint>, size: nat, kind: Kind, s: Opt, log: seq<Component>, r: nat)
    requires OptInv(cs, size, kind, s, log)
    ensures OptInv(cs, size, kind, s.(pred := if r in s.pred then s.pred else s.pred[r := {}]), log)
  {
    var t := s.(pred := if r in s.pred then s.pred else s.pred[r := {}]);
    assert Touched(s, t);
    hide Touched, Shape, LabelsOk, HvnTable, HuTable;
    TouchedShape(cs, size, s, t, log);
    TouchedLabels(cs, size, s, t, log);
    if kind == HVN {
      TouchedHvn(cs, size, s, t, log);
    } else {
      TouchedHu(cs, size, s, t, log);
    }
  }

  lemma ReportKeeps(cs: seq<Constraint>, size: nat, kind: Kind, s: Opt, log: seq<Component>, c: Component)
    requires InRange(cs, size) && RefZeroHarmless(cs, size)
    requires SccOrder(PredGraph(cs, size), log) && ComesNext(PredGraph(cs, size), Done(log), c)
    requires OptInv(cs, size, kind, s, log)
    ensures OptInv(cs, size, kind, Report(Optimizer(kind, size), s, c), log + [c])
  {
    assert c.root !in Done(log) by {
      assert c.root in Nodes(c);
    }
    FoldIsFolded(kind, size, s, c.root, c.others);
    var t := Fold(Optimizer(kind, size), s, c.root, c.others);
    FoldIsReady(cs, size, s, t, log, c);
    hide OptInv, SccOrder, ComesNext, Ready, Folded, Fold, HvnLabel, HuLabel;
    assert Report(Optimizer(kind, size), s, c) == Propagate(kind, size, t, c.root);
    if kind == HVN {
      HvnStep(cs, size, s, t, log, c);
    } else {
      HuStep(cs, size, s, t, log, c);
    }
  }

  lemma InvMerged(cs: seq<Constraint>, size: nat, kind: Kind, s: Opt, log: seq<Component>)
    requires OptInv(cs, size, kind, s, log)
    ensures Merged(s, log)
  {
  }

  lemma RepStepKeeps(cs: seq<Constraint>, size: nat, kind: Kind, s: Opt, log: seq<Component>, i: nat)
    requires SccOrder(PredGraph(cs, size), log) && OptInv(cs, size, kind, s, log) && i in Base(cs, size)
    ensures GetRepLaw(Optimizer(kind, size), Base(cs, size), Sim(cs, size, kind), s, log, i)
  {
    hide OptInv, RepOf, SccOrder, Merged, Done, Leader;
    InvMerged(cs, size, kind, s, log);
    RepIsLeader(PredGraph(cs, size), s, log, i);
    LeaderFacts(PredGraph(cs, size), log, i);
    TouchKeeps(cs, size, kind, s, log, RepOf(s, i));
    var (t, r) := RepStep(s, i);
    assert OptInv(cs, size, kind, t, log);
  }

  lemma ChildrenKept(cs: seq<Constraint>, size: nat, kind: Kind, s: Opt, log: seq<Component>, n: nat)
    requires OptInv(cs, size, kind, s, log) && n < 3 * size && n !in Done(log)
    ensures ChildrenLaw(Optimizer(kind, size), PredGraph(cs, size), Base(cs, size), s, n)
  {
    assert Succ(s.pred, n) == Preds(cs, size, n);
    hide OptInv, HasEdge;
  }

  lemma StartIsOk(cs: seq<Constraint>, size: nat, kind: Kind, s: Opt)
    requires Starts(cs, size, s)
    ensures OptInv(cs, size, kind, s, [])
  {
  }

  lemma OptimizerIsLawful(cs: seq<Constraint>, size: nat, kind: Kind)
    requires InRange(cs, size) && RefZeroHarmless(cs, size)
    ensures Lawful(Optimizer(kind, size), PredGraph(cs, size), Base(cs, size), Sim(cs, size, kind))
  {
    var client, g, sim := Optimizer(kind, size), PredGraph(cs, size), Sim(cs, size, kind);
    hide OptInv, SccOrder, ComesNext, Done, GetRepLaw, ChildrenLaw, Report, RefZeroHarmless;
    PredGraphClosed(cs, size);
    forall s, log, i | sim(s, log) && SccOrder(g, log) && i in Base(cs, size) ensures GetRepLaw(client, Base(cs, size), sim, s, log, i) {
      RepStepKeeps(cs, size, kind, s, log, i);
    }
    forall s, log, n | sim(s, log) && SccOrder(g, log) && n in g && n !in Done(log) ensures ChildrenLaw(client, g, Base(cs, size), s, n) {
      ChildrenKept(cs, size, kind, s, log, n);
    }
    forall s, log, c | sim(s, log) && SccOrder(g, log) && ComesNext(g, Done(log), c) ensures sim(Report(client, s, c), log + [c]) {
      ReportKeeps(cs, size, kind, s, log, c);
    }
  }

  /** HVN gives one label to direct components that the same labels flow into. */
  lemma HvnLabelsAgree(cs: seq<Constraint>, size: nat, s: Opt, log: seq<Component>, c: Component, d: Component)
    requires OptInv(cs, size, HVN, s, log) && c in log && d in log && !Indirect(cs, size, c) && !Indirect(cs, size, d)
    requires LabelsInto(cs, size, s, log, c) == LabelsInto(cs, size, s, log, d)
    ensures Lab(s, log, c.root) == Lab(s, log, d.root)
    ensures LabelsInto(cs, size, s, log, c) == {Lab(s, log, c.root)} || |LabelsInto(cs, size, s, log, c)| != 1
  {
    assert HvnTable(cs, size, s, log);
    hide OptInv, LabelsInto, Lab, Indirect, HvnEntry;
    var i :| 0 <= i < |log| && log[i] == c;
    var j :| 0 <= j < |log| && log[j] == d;
    assert HvnDirect(cs, size, s, log, log[i]) && HvnDirect(cs, size, s, log, log[j]);
  }

  /** x is in a component all of whose values flow in. */
  ghost predicate IsDirect(cs: seq<Constraint>, size: nat, log: seq<Component>, x: nat) {
    exists i | 0 <= i < |log| :: x in Nodes(log[i]) && !Indirect(cs, size, log[i])
  }

  lemma DirectLabel(cs: seq<Constraint>, size: nat, s: Opt, log: seq<Component>, x: nat)
    requires SccOrder(PredGraph(cs, size), log) && OptInv(cs, size, HU, s, log) && x in Done(log) && IsDirect(cs, size, log, x)
    ensures HuDirect(cs, size, s, log, x)
  {
    var i :| 0 <= i < |log| && x in Nodes(log[i]) && !Indirect(cs, size, log[i]);
    var root := log[i].root;
    assert HuTable(cs, size, s, log);
    assert HuDirect(cs, size, s, log, root);
    hide OptInv, HuTable, Indirect, Tokens, Nodes;
    SameAsRoot(cs, size, s, log, x, i);
  }

  /** A node has the sources and the label of the root of its component. */
  lemma SameAsRoot(cs: seq<Constraint>, size: nat, s: Opt, log: seq<Component>, x: nat, i: nat)
    requires SccOrder(PredGraph(cs, size), log) && i < |log| && x in Nodes(log[i])
    ensures log[i].root in Done(log) && x in Done(log)
    ensures Lab(s, log, x) == Lab(s, log, log[i].root) && Sources(cs, size, log, x) == Sources(cs, size, log, log[i].root)
  {
    var g, root := PredGraph(cs, size), log[i].root;
    assert root in Nodes(log[i]);
    InDone(log, i, root);
    InDone(log, i, x);
    DoneClosed(g, log);
    hide Sources, SccOrder, Preds, PredGraph, Done;
    var c, j := SourcesAt(cs, size, log, x);
    SameComponent(g, log, x, root);
    LeadersAgree(g, log, x, root);
    hide Leader, Nodes;
    ReachesTrans(g, c.root, x, root);
    ReachesTrans(g, root, x, c.root);
  }

  /** Nodes of a component that is not direct have a label that no direct node has, and its root for their one source. */
  lemma IndirectLabel(cs: seq<Constraint>, size: nat, s: Opt, log: seq<Component>, y: nat) returns (i: nat)
    requires SccOrder(PredGraph(cs, size), log) && OptInv(cs, size, HU, s, log) && y in Done(log) && !IsDirect(cs, size, log, y)
    ensures i < |log| && y in Nodes(log[i]) && Sources(cs, size, log, y) == {log[i].root}
    ensures forall ts | ts in s.setLabel :: s.setLabel[ts] != Lab(s, log, y)
  {
    assert HuApart(cs, size, s, log);
    hide OptInv, Tokens, SccOrder, Lab, Done, HuTable, Sources;
    i := Where(cs, size, log, y);
    assert Indirect(cs, size, log[i]);
    hide Indirect, Nodes;
    SameAsRoot(cs, size, s, log, y, i);
    RootSource(cs, size, log, y, i);
  }

  lemma RootSource(cs: seq<Constraint>, size: nat, log: seq<Component>, y: nat, i: nat)
    requires i < |log| && y in Nodes(log[i]) && Indirect(cs, size, log[i]) && Sources(cs, size, log, y) == Sources(cs, size, log[..i + 1], y)
    ensures Sources(cs, size, log, y) == {log[i].root}
  {
    assert log[..i + 1][i] == log[i];
  }

  /** HU evaluates unions: two nodes have one label exactly when they have the same sources, and both or neither has
      a value of its own. */
  lemma HuLabelsAreSources(cs: seq<Constraint>, size: nat, s: Opt, log: seq<Component>, x: nat, y: nat)
    requires SccOrder(PredGraph(cs, size), log) && OptInv(cs, size, HU, s, log) && x in Done(log) && y in Done(log)
    ensures Lab(s, log, x) == Lab(s, log, y) <==>
              Sources(cs, size, log, x) == Sources(cs, size, log, y) && (IsDirect(cs, size, log, x) <==> IsDirect(cs, size, log, y))
  {
    assert LabelsOk(cs, size, s, log);
    hide OptInv, Sources, SccOrder, IsDirect, Lab, Tokens;
    TokensEmpty(size, Sources(cs, size, log, x));
    if IsDirect(cs, size, log, x) {
      DirectLabel(cs, size, s, log, x);
    }
    if IsDirect(cs, size, log, y) {
      DirectLabel(cs, size, s, log, y);
    }
    if !IsDirect(cs, size, log, x) {
      var i := IndirectLabel(cs, size, s, log, x);
      if !IsDirect(cs, size, log, y) {
        var j := IndirectLabel(cs, size, s, log, y);
        if log[i].root == log[j].root {
          SameAsRoot(cs, size, s, log, x, i);
          SameAsRoot(cs, size, s, log, y, j);
        }
      }
    } else if !IsDirect(cs, size, log, y) {
      var j := IndirectLabel(cs, size, s, log, y);
    }
  }

  /** HU never gives a VAR or REF node the label of an ADR node. */
  lemma HuAdrsApart(cs: seq<Constraint>, size: nat, s: Opt, log: seq<Component>, x: nat, k: nat)
    requires InRange(cs, size) && SccOrder(PredGraph(cs, size), log) && OptInv(cs, size, HU, s, log)
    requires x in Done(log) && x < 2 * size && k < size && k + 2 * size in Done(log)
    ensures Lab(s, log, x) != Lab(s, log, k + 2 * size)
  {
    hide OptInv, Sources, Lab, IsDirect, SccOrder, Done, PredGraph, InRange, Nodes;
    HuLabelsAreSources(cs, size, s, log, x, k + 2 * size);
    AdrSources(cs, size, log, k);
    AdrIsIndirect(cs, size, log, k);
    if !IsDirect(cs, size, log, x) {
      var i := IndirectLabel(cs, size, s, log, x);
      NotAdrRoot(cs, size, log, x, i);
    }
  }

  lemma NotAdrRoot(cs: seq<Constraint>, size: nat, log: seq<Component>, x: nat, i: nat)
    requires InRange(cs, size) && SccOrder(PredGraph(cs, size), log) && i < |log| && x in Nodes(log[i]) && x < 2 * size
    ensures log[i].root < 2 * size
  {
    var g := PredGraph(cs, size);
    InDone(log, i, x);
    assert log[i].root in Nodes(log[i]);
    InDone(log, i, log[i].root);
    SameComponent(g, log, x, log[i].root);
    if log[i].root >= 2 * size {
      assert log[i].root < 3 * size;
      AdrIsAlone(cs, size, log[i].root - 2 * size, x);
    }
  }

  lemma AdrIsIndirect(cs: seq<Constraint>, size: nat, log: seq<Component>, k: nat)
    requires InRange(cs, size) && SccOrder(PredGraph(cs, size), log) && k < size && k + 2 * size in Done(log)
    ensures !IsDirect(cs, size, log, k + 2 * size)
  {
    var x := k + 2 * size;
    forall i | 0 <= i < |log| && x in Nodes(log[i]) ensures Indirect(cs, size, log[i]) {
      assert IsIndirect(cs, size, x);
    }
  }
}
