/** When merging the nodes with one label is exact, and what the labels say about the least solution. */
module PointerEquivalence {
  import opened Constraints
  import opened Graphs
  import opened PredecessorGraphs
  import opened Rewriting

  /** The nodes that *p may hold. */
  function Pointees(l: PtsGraph, p: nat): set<nat> {
    set o, y | o in At(l, p) && y in At(l, o) :: y
  }

  /** What a predecessor-graph node stands for: n, *n or &n. */
  function Value(l: PtsGraph, size: nat, x: nat): set<nat> {
    if x < size then At(l, x) else if x < 2 * size then Pointees(l, x - size) else {x - 2 * size}
  }

  /** Nothing is stored nowhere: a pointer that is stored through points somewhere, or what is
      stored points nowhere. */
  predicate StoresLand(l: PtsGraph, cs: seq<Constraint>) {
    forall c | c in cs && c.ty.Store? :: At(l, c.dest) != {} || At(l, c.src) == {}
  }

  /** Values flow along the edges, the implicit ones included. */
  lemma EdgeValue(cs: seq<Constraint>, size: nat, l: PtsGraph, x: nat, y: nat)
    requires InRange(cs, size) && IsSolution(l, cs) && StoresLand(l, cs) && y in Preds(cs, size, x)
    ensures Value(l, size, y) <= Value(l, size, x)
  {
    var c :| c in cs && EdgeOf(c, size, x, y);
    assert Holds(l, c) && c.dest < size && c.src < size;
    hide At, IsSolution, Preds;
    if c.ty.Store? && At(l, c.src) != {} {
      var o :| o in At(l, c.dest);
    }
  }

  lemma {:induction false} PathValue(cs: seq<Constraint>, size: nat, l: PtsGraph, p: seq<nat>)
    requires InRange(cs, size) && IsSolution(l, cs) && StoresLand(l, cs) && IsPath(PredGraph(cs, size), p)
    ensures Value(l, size, p[|p| - 1]) <= Value(l, size, p[0])
    decreases |p|
  {
    if |p| > 1 {
      assert p[1] in Succ(PredGraph(cs, size), p[0]);
      hide Value, Preds, InRange, IsSolution, StoresLand;
      EdgeValue(cs, size, l, p[0], p[1]);
      var q := p[1..];
      assert forall i | 0 <= i < |q| :: q[i] == p[i + 1];
      PathValue(cs, size, l, q);
    }
  }

  /** Nodes on one cycle have one value. */
  lemma CycleValue(cs: seq<Constraint>, size: nat, l: PtsGraph, x: nat, y: nat)
    requires InRange(cs, size) && IsSolution(l, cs) && StoresLand(l, cs) && Mutual(PredGraph(cs, size), x, y)
    ensures Value(l, size, x) == Value(l, size, y)
  {
    hide Value, Preds, InRange, IsSolution, StoresLand, IsPath;
    var p: seq<nat> :| Joins(PredGraph(cs, size), p, x, y);
    var q: seq<nat> :| Joins(PredGraph(cs, size), q, y, x);
    PathValue(cs, size, l, p);
    PathValue(cs, size, l, q);
  }

  // ----- A direct component has only what flows into it -----

  /** The values that flow into c. */
  function Inflow(cs: seq<Constraint>, size: nat, l: PtsGraph, c: Component): set<nat> {
    set p, y | p in OutPreds(cs, size, c) && y in Value(l, size, p) :: y
  }

  /** l without what did not flow into the nodes of c. */
  ghost function Confined(l: PtsGraph, c: Component, inflow: set<nat>): PtsGraph {
    map n | n in l :: if n in Nodes(c) then l[n] * inflow else l[n]
  }

  lemma InflowFrom(cs: seq<Constraint>, size: nat, l: PtsGraph, c: Component, x: nat, y: nat)
    requires x in Nodes(c) && y in Preds(cs, size, x) && y !in Nodes(c)
    ensures Value(l, size, y) <= Inflow(cs, size, l, c)
  {
    assert y in OutPreds(cs, size, c);
    hide Value, OutPreds, Preds;
  }

  /** inflow bounds what b brings into the nodes ns. */
  ghost predicate Bounded(l: PtsGraph, ns: set<nat>, inflow: set<nat>, b: Constraint) {
    match b.ty
    case AddrOf => b.src in inflow
    case Copy => b.src in ns || At(l, b.src) <= inflow
    case Load => Pointees(l, b.src) <= inflow
    case Store => true
  }

  lemma CutHolds(l: PtsGraph, q: PtsGraph, ns: set<nat>, inflow: set<nat>, b: Constraint)
    requires forall n: nat :: At(q, n) == if n in ns then At(l, n) * inflow else At(l, n)
    requires Holds(l, b) && (b.dest in ns ==> Bounded(l, ns, inflow, b))
    requires forall n: nat, o | o in At(l, n) :: o !in ns
    ensures Holds(q, b)
  {
    hide At;
  }

  lemma ConfinedHolds(cs: seq<Constraint>, size: nat, l: PtsGraph, c: Component, b: Constraint)
    requires InRange(cs, size) && IsSolution(l, cs) && !Indirect(cs, size, c) && b in cs
    requires forall n: nat :: At(l, n) <= AddressTaken(cs)
    ensures Holds(Confined(l, c, Inflow(cs, size, l, c)), b)
  {
    var inflow := Inflow(cs, size, l, c);
    assert forall n | n in Nodes(c) :: n < size && n !in AddressTaken(cs);
    assert b.dest < size && b.src < size;
    hide Inflow, Indirect, Preds, IsSolution;
    if b.dest in Nodes(c) && !b.ty.Store? {
      var y := match b.ty case AddrOf => b.src + 2 * size case Load => b.src + size case _ => b.src;
      HasPred(cs, size, b.dest, y, b);
      if y !in Nodes(c) {
        InflowFrom(cs, size, l, c, b.dest, y);
      }
    }
    assert b.dest in Nodes(c) ==> Bounded(l, Nodes(c), inflow, b);
    CutHolds(l, Confined(l, c, inflow), Nodes(c), inflow, b);
  }

  /** In the least solution a direct node points only to what flows into its component. */
  lemma LeastIsConfined(cs: seq<Constraint>, size: nat, c: Component, x: nat)
    requires InRange(cs, size) && !Indirect(cs, size, c) && x in Nodes(c)
    ensures At(Least(cs, Identity(size)), x) <= Inflow(cs, size, Least(cs, Identity(size)), c)
  {
    var l := Least(cs, Identity(size));
    hide Least, Indirect, Inflow;
    LeastIsSolution(cs, Identity(size));
    forall n: nat ensures At(l, n) <= AddressTaken(cs) {
      LeastPointsToTaken(cs, Identity(size), n);
    }
    var q := Confined(l, c, Inflow(cs, size, l, c));
    forall b | b in cs ensures Holds(q, b) {
      ConfinedHolds(cs, size, l, c, b);
    }
    LeastIsLeast(cs, Identity(size), q);
    assert At(l, x) <= At(q, x);
  }

  // ----- Sources determine values -----

  /** The values of the sources in ss. */
  function ValueOf(l: PtsGraph, size: nat, ss: set<nat>): set<nat> {
    set s, y | s in ss && y in Value(l, size, s) :: y
  }

  lemma DirectValue(cs: seq<Constraint>, size: nat, l: PtsGraph, c: Component, x: nat)
    requires l == Least(cs, Identity(size)) && InRange(cs, size) && StoresLand(l, cs) && !Indirect(cs, size, c)
    requires x in Nodes(c)
    requires forall y :: y in Nodes(c) <==> y in PredGraph(cs, size) && Mutual(PredGraph(cs, size), c.root, y)
    ensures Value(l, size, x) == Inflow(cs, size, l, c)
  {
    assert x < size;
    LeastIsSolution(cs, Identity(size));
    LeastIsConfined(cs, size, c, x);
    hide Least, Indirect, StoresLand, InRange, IsSolution, Preds;
    forall p | p in OutPreds(cs, size, c) ensures Value(l, size, p) <= Value(l, size, x) {
      var z := OutPredFrom(cs, size, c, p);
      EdgeValue(cs, size, l, z, p);
      ReachesTrans(PredGraph(cs, size), z, c.root, x);
      ReachesTrans(PredGraph(cs, size), x, c.root, z);
      CycleValue(cs, size, l, z, x);
    }
    hide Mutual, OutPreds;
  }

  /** A visited node has the values of its sources. */
  lemma {:induction false} SourcesAreValue(cs: seq<Constraint>, size: nat, log: seq<Component>, l: PtsGraph, x: nat)
    requires l == Least(cs, Identity(size)) && InRange(cs, size) && StoresLand(l, cs)
    requires SccOrder(PredGraph(cs, size), log) && x in Done(log)
    ensures Value(l, size, x) == ValueOf(l, size, Sources(cs, size, log, x))
    decreases |log|
  {
    hide Value, Least, InRange, StoresLand, SccOrder, OutPreds, Preds, Indirect;
    var front, c := log[..|log| - 1], log[|log| - 1];
    ListedLast(PredGraph(cs, size), log);
    if x !in Nodes(c) {
      SourcesAreValue(cs, size, front, l, x);
    } else if Indirect(cs, size, c) {
      IndirectValue(cs, size, Done(front), l, c, x);
    } else {
      DirectNextValue(cs, size, Done(front), l, c, x);
      hide ComesNext, Done, Nodes;
      assert log == front + [c];
      OutPredsDone(cs, size, Done(front), c);
      forall p | p in OutPreds(cs, size, c) ensures Value(l, size, p) == ValueOf(l, size, Sources(cs, size, front, p)) {
        SourcesAreValue(cs, size, front, l, p);
      }
      InflowOfSources(cs, size, log, l, c, x);
    }
  }

  lemma IndirectValue(cs: seq<Constraint>, size: nat, done: set<nat>, l: PtsGraph, c: Component, x: nat)
    requires l == Least(cs, Identity(size)) && InRange(cs, size) && StoresLand(l, cs)
    requires ComesNext(PredGraph(cs, size), done, c) && x in Nodes(c)
    ensures Value(l, size, x) == ValueOf(l, size, {c.root})
  {
    LeastIsSolution(cs, Identity(size));
    hide Value, Least, InRange, StoresLand, IsSolution;
    CycleValue(cs, size, l, c.root, x);
    assert c.root in {c.root};
  }

  lemma DirectNextValue(cs: seq<Constraint>, size: nat, done: set<nat>, l: PtsGraph, c: Component, x: nat)
    requires l == Least(cs, Identity(size)) && InRange(cs, size) && StoresLand(l, cs) && !Indirect(cs, size, c)
    requires ComesNext(PredGraph(cs, size), done, c) && x in Nodes(c)
    ensures Value(l, size, x) == Inflow(cs, size, l, c)
  {
    hide Value, Least, InRange, StoresLand, Indirect, Mutual, Inflow;
    DirectValue(cs, size, l, c, x);
  }

  lemma OutPredsDone(cs: seq<Constraint>, size: nat, done: set<nat>, c: Component)
    requires ComesNext(PredGraph(cs, size), done, c)
    ensures OutPreds(cs, size, c) <= done
  {
    forall p | p in OutPreds(cs, size, c) ensures p in done {
      var z := OutPredFrom(cs, size, c, p);
      assert p in Succ(PredGraph(cs, size), z);
    }
  }

  /** A direct node has the sources of what flows into its component. */
  lemma DirectSources(cs: seq<Constraint>, size: nat, log: seq<Component>, front: seq<Component>, c: Component, x: nat)
    requires log != [] && front == log[..|log| - 1] && c == log[|log| - 1] && x in Nodes(c) && !Indirect(cs, size, c)
    ensures forall s :: s in Sources(cs, size, log, x) <==> exists p :: p in OutPreds(cs, size, c) && s in Sources(cs, size, front, p)
  {
    hide OutPreds, Indirect, Nodes;
    forall s | s in Sources(cs, size, log, x) ensures exists p :: p in OutPreds(cs, size, c) && s in Sources(cs, size, front, p) {
      var p := SourceBefore(cs, size, log, x, s);
    }
  }

  lemma InflowOfSources(cs: seq<Constraint>, size: nat, log: seq<Component>, l: PtsGraph, c: Component, x: nat)
    requires log != [] && c == log[|log| - 1] && x in Nodes(c) && !Indirect(cs, size, c)
    requires forall p | p in OutPreds(cs, size, c) :: Value(l, size, p) == ValueOf(l, size, Sources(cs, size, log[..|log| - 1], p))
    ensures Inflow(cs, size, l, c) == ValueOf(l, size, Sources(cs, size, log, x))
  {
    var front, src := log[..|log| - 1], Sources(cs, size, log, x);
    hide Sources, OutPreds, Indirect, Nodes, Value;
    DirectSources(cs, size, log, front, c, x);
    forall y ensures y in Inflow(cs, size, l, c) <==> y in ValueOf(l, size, src) {
      if y in Inflow(cs, size, l, c) {
        var p :| p in OutPreds(cs, size, c) && y in Value(l, size, p);
        var s :| s in Sources(cs, size, front, p) && y in Value(l, size, s);
        assert s in src;
      }
      if y in ValueOf(l, size, src) {
        var s :| s in src && y in Value(l, size, s);
        var p :| p in OutPreds(cs, size, c) && s in Sources(cs, size, front, p);
        assert y in ValueOf(l, size, Sources(cs, size, front, p));
      }
    }
  }

  // ----- The main results -----

  /** Nodes with one non-zero label have one points-to set in the least solution of the original
      constraints, provided every pointer that is stored through points somewhere. */
  lemma SameLabelSamePts(cs: seq<Constraint>, size: nat, log: seq<Component>, labels: map<nat, nat>, x: nat, y: nat)
    requires Labelling(cs, size, log, labels) && StoresLand(Least(cs, Identity(size)), cs)
    requires x < size && y < size && LabelIn(labels, x) == LabelIn(labels, y) != 0
    ensures At(Least(cs, Identity(size)), x) == At(Least(cs, Identity(size)), y)
  {
    var l := Least(cs, Identity(size));
    assert Sources(cs, size, log, x) == Sources(cs, size, log, y) && x in Done(log) && y in Done(log);
    hide Least, Sources, StoresLand, SccOrder;
    SourcesAreValue(cs, size, log, l, x);
    SourcesAreValue(cs, size, log, l, y);
  }

  /** Merging changes no least points-to set exactly if the merged nodes had the same ones. */
  lemma LeastWithMerges(cs: seq<Constraint>, size: nat, rep: seq<nat>)
    requires InRange(cs, size) && |rep| == size && IsRep(rep)
    ensures Below(Least(cs, Identity(size)), Least(cs, rep))
    ensures Respects(Least(cs, Identity(size)), rep) <==> forall n: nat :: At(Least(cs, rep), n) == At(Least(cs, Identity(size)), n)
  {
    LeastIsSolution(cs, rep);
    LeastIsSolution(cs, Identity(size));
    hide Least, IsSolution;
    LeastIsLeast(cs, Identity(size), Least(cs, rep));
    if Respects(Least(cs, Identity(size)), rep) {
      LeastIsLeast(cs, rep, Least(cs, Identity(size)));
    }
  }

  /** Rewriting changes nothing at all, read through the merges, exactly if the merged nodes had the
      same points-to sets. */
  lemma ExactIfEqual(cs: seq<Constraint>, size: nat, log: seq<Component>, labels: map<nat, nat>, rep: seq<nat>, rev: seq<nat>,
                     cs2: seq<Constraint>)
    requires Setting(cs, size, log, labels, rep, rev) && Rewritten(size, labels, rep, rev, cs, cs2)
    ensures (forall n: nat :: At(Least(cs2, rep), Find(rep, n)) == At(Least(cs, Identity(size)), n)) <==> Respects(Least(cs, Identity(size)), rep)
  {
    var m, r := Least(cs, rep), Least(cs2, rep);
    forall n: nat ensures At(r, Find(rep, n)) == At(m, n) {
      ReadThrough(cs, size, log, labels, rep, rev, cs2, n);
    }
    assert InRange(cs, size) && |rep| == size && IsRep(rep);
    hide Least, Setting, Rewritten, Respects, At, Find;
    LeastWithMerges(cs, size, rep);
  }

  lemma ReadThrough(cs: seq<Constraint>, size: nat, log: seq<Component>, labels: map<nat, nat>, rep: seq<nat>, rev: seq<nat>,
                    cs2: seq<Constraint>, n: nat)
    requires Setting(cs, size, log, labels, rep, rev) && Rewritten(size, labels, rep, rev, cs, cs2)
    ensures At(Least(cs2, rep), Find(rep, n)) == At(Least(cs, rep), n)
  {
    RewritingPreserves(cs, size, log, labels, rep, rev, cs2);
    LeastSolvesRewritten(cs, size, log, labels, rep, rev, cs2);
    hide Least, Labelling, Rewritten;
  }

  /** They had if nothing is stored nowhere, so that rewriting is exact then. */
  lemma RewritingIsExact(cs: seq<Constraint>, size: nat, log: seq<Component>, labels: map<nat, nat>, rep: seq<nat>, rev: seq<nat>,
                         cs2: seq<Constraint>)
    requires Setting(cs, size, log, labels, rep, rev) && Rewritten(size, labels, rep, rev, cs, cs2)
    requires StoresLand(Least(cs, Identity(size)), cs)
    ensures forall n: nat :: At(Least(cs2, rep), Find(rep, n)) == At(Least(cs, Identity(size)), n)
  {
    var l := Least(cs, Identity(size));
    forall n: nat | n < size ensures At(l, n) == At(l, rep[n]) {
      if rep[n] != n {
        SameLabelSamePts(cs, size, log, labels, n, rep[n]);
      }
    }
    ExactIfEqual(cs, size, log, labels, rep, rev, cs2);
  }

  /** Copies lead along p from a node that an address is assigned to. */
  ghost predicate Pointed(cs: seq<Constraint>, p: seq<nat>, n: nat) {
    && p != [] && p[|p| - 1] == n
    && (exists o: nat :: Constraint(AddrOf, p[0], o) in cs)
    && (forall i | 0 <= i < |p| - 1 :: Constraint(Copy, p[i + 1], p[i]) in cs)
  }

  lemma {:induction false} PointedPoints(cs: seq<Constraint>, l: PtsGraph, p: seq<nat>, n: nat)
    requires IsSolution(l, cs) && Pointed(cs, p, n)
    ensures At(l, n) != {}
    decreases |p|
  {
    if |p| == 1 {
      var o: nat :| Constraint(AddrOf, p[0], o) in cs;
      assert Holds(l, Constraint(AddrOf, p[0], o));
    } else {
      var q := p[..|p| - 1];
      assert Constraint(Copy, p[|q|], p[|q| - 1]) in cs;
      PointedPoints(cs, l, q, q[|q| - 1]);
      assert Holds(l, Constraint(Copy, p[|q|], p[|q| - 1]));
    }
  }

  /** What can be checked on the constraints: copies lead to every pointer stored through from an
      address, unless it is itself what is stored, as in the store of the universal object. */
  lemma PointedStoresLand(cs: seq<Constraint>, l: PtsGraph)
    requires IsSolution(l, cs)
    requires forall c | c in cs && c.ty.Store? :: c.src == c.dest || exists p :: Pointed(cs, p, c.dest)
    ensures StoresLand(l, cs)
  {
    forall c | c in cs && c.ty.Store? && c.src != c.dest ensures At(l, c.dest) != {} {
      var p :| Pointed(cs, p, c.dest);
      PointedPoints(cs, l, p, c.dest);
    }
  }

  /** For every input, a node labelled 0 points nowhere, and one that shares its label with &k points
      to k and nothing else. */
  lemma LabelsMean(cs: seq<Constraint>, size: nat, log: seq<Component>, labels: map<nat, nat>, rep: seq<nat>, rev: seq<nat>,
                   cs2: seq<Constraint>, x: nat)
    requires Setting(cs, size, log, labels, rep, rev) && Rewritten(size, labels, rep, rev, cs, cs2) && x < size
    ensures LabelIn(labels, x) == 0 ==> At(Least(cs, Identity(size)), x) == {}
    ensures forall k: nat | k < size && LabelIn(labels, x) == LabelIn(labels, k + 2 * size) != 0 :: At(Least(cs, Identity(size)), x) == {k}
  {
    var l := Least(cs, Identity(size));
    hide Least, Sources, Reverses, Rewritten, SccOrder, Preds;
    RewritingPreserves(cs, size, log, labels, rep, rev, cs2);
    LeastWithMerges(cs, size, rep);
    forall o | o in At(l, x) ensures LabelIn(labels, x) != 0 && Permits(cs, size, log, x, o) {
      LeastIsPermitted(cs, size, log, labels, rep, rev, cs2, x, o);
      HasLabel(cs, size, log, labels, x, o);
    }
    forall k: nat | k < size && LabelIn(labels, x) == LabelIn(labels, k + 2 * size) != 0 ensures At(l, x) == {k} {
      AdrSources(cs, size, log, k);
      assert k + 2 * size in Sources(cs, size, log, x);
      LeastIsSolution(cs, Identity(size));
      AdrFlows(cs, size, log, x, k, l);
      assert SingleAdr(cs, size, log, x);
      forall o | o in At(l, x) ensures o == k {
        assert Sources(cs, size, log, x) == {o + 2 * size};
      }
    }
  }
}
