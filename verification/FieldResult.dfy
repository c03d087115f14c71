/** What a run of the field-sensitive solver ends with. */
module FieldResults {
  import opened Constraints
  import opened FieldConstraints
  import opened FieldStates
  import opened FieldTasks
  import opened FieldVisits

  ghost predicate Same(p: PtsGraph, q: PtsGraph) {
    forall n: nat :: At(p, n) == At(q, n)
  }

  /** The points-to graph m, which the run ended with when r said what is merged, is the least tame one; it
      is the least solution exactly when the least solution is tame. */
  ghost predicate Solved(ly: Layout, t: Task, r: seq<nat>, m: PtsGraph) {
    var l := FieldLeast(ly, t.cs, t.root);
    && Coarser(t.root, r) && Respects(m, r) && Tame(ly, t, m, r)
    && (forall q: PtsGraph | Tame(ly, t, q, r) :: Below(m, q))
    && (forall q: PtsGraph | Steady(ly, t, q) :: Respects(q, r) && Below(m, q))
    && Below(l, m)
    && (Same(m, l) <==> PointeesEqual(ly, t.hcd, l) && IntEdges(ly, t, l, r))
  }

  // ----- The result is tame -----

  lemma PointeesMerged(ly: Layout, v: FState, t: Task)
    requires LoopInv(ly, v, {}) && TaskOk(ly, t) && MapsOn(v, t.hcd)
    ensures PointeesEqual(ly, t.hcd, Meaning(v))
  {
    hide Meaning, ClosedFor, DataOk, ListsOk, LayoutOk, MapsOn, OneTarget, FieldInRange;
    assert Sizes(ly, v);
    forall n, o | n in t.hcd && o in At(Meaning(v), n) && IsObject(ly, o) && o != ly.i2p
      ensures At(Meaning(v), o) == At(Meaning(v), t.hcd[n])
    {
      PointeeMerged(ly, v, t, n, o);
      MeaningAt(ly, v, o);
      MeaningAt(ly, v, t.hcd[n]);
    }
  }

  lemma PointeeMerged(ly: Layout, v: FState, t: Task, n: nat, o: nat)
    requires LoopInv(ly, v, {}) && TargetsOk(ly, t.hcd) && MapsOn(v, t.hcd) && n in t.hcd && o in At(Meaning(v), n) && o != ly.i2p
    ensures Rep(v, o) == Rep(v, t.hcd[n])
  {
    var p := Rep(v, n);
    assert Sizes(ly, v);
    MeaningAt(ly, v, n);
    assert MapsAt(v, t.hcd, n);
    OpenNone(ly, v, p);
    assert Together(ly, v, p, v.pts[p]);
    hide LoopInv, WellFormed, MapsOn, Meaning;
  }

  /** Nothing without an offset is listed with a mapped pointer, so its edges are there. */
  lemma PlainByHcd(ly: Layout, v: FState, t: Task, n: nat, c: FieldConstraint)
    requires LoopInv(ly, v, {}) && CoversAll(ly, v, t.cs) && MapsOn(v, t.hcd) && n in t.hcd && n < |v.root| && c in t.cs && Plain(c)
    requires Find(v.root, Pointer(c)) == Find(v.root, n) && At(Meaning(v), n) != {}
    ensures c.dest < |v.root| && c.src < |v.root| && ByHcd(ly, v, c)
  {
    var p := Rep(v, n);
    assert Sizes(ly, v);
    MeaningAt(ly, v, n);
    assert MapsAt(v, t.hcd, n) && Covers(ly, v, c);
    OpenNone(ly, v, p);
    assert NonePlain(v, p);
    hide LoopInv, WellFormed, MapsOn, Meaning, ByHcd, CoversAll, ClosedFor;
  }

  lemma EdgeIn(ly: Layout, v: FState, a: nat, b: nat)
    requires LoopInv(ly, v, {}) && a < |v.root| && b < |v.root| && HasEdge(ly, v, Rep(v, a), Rep(v, b)) && Tracked(ly, a, b)
    ensures At(Meaning(v), a) <= At(Meaning(v), b)
  {
    RepFacts(ly, v, {}, a);
    RepFacts(ly, v, {}, b);
    MeaningAt(ly, v, a);
    MeaningAt(ly, v, b);
    OpenNone(ly, v, Rep(v, a));
    hide LoopInv, WellFormed, Meaning, HasEdge, ClosedFor;
    EdgeCopies(ly, v, Rep(v, a), Rep(v, b));
  }

  lemma EdgesThere(ly: Layout, v: FState, t: Task)
    requires LoopInv(ly, v, {}) && CoversAll(ly, v, t.cs) && TaskOk(ly, t) && MapsOn(v, t.hcd)
    ensures IntEdges(ly, t, Meaning(v), v.root)
  {
    assert |v.root| == |ly.sz|;
    hide LoopInv, CoversAll, MapsOn, Meaning, OneTarget, FieldInRange, HasEdge;
    forall n, c | n in t.hcd && c in t.cs && Plain(c) && Find(v.root, Pointer(c)) == Find(v.root, n) && IntOnly(ly, At(Meaning(v), n))
      ensures EdgeHolds(ly, Meaning(v), c, t.hcd[n])
    {
      PlainByHcd(ly, v, t, n, c);
      TargetAt(ly, v, t, n, c);
      if c.ty.Load? && Tracked(ly, t.hcd[n], c.dest) {
        EdgeIn(ly, v, t.hcd[n], c.dest);
      } else if c.ty.Store? && Tracked(ly, c.src, t.hcd[n]) {
        EdgeIn(ly, v, c.src, t.hcd[n]);
      }
    }
  }

  lemma TargetAt(ly: Layout, v: FState, t: Task, n: nat, c: FieldConstraint)
    requires MapsOn(v, t.hcd) && n in t.hcd && ByHcd(ly, v, c) && Rep(v, Pointer(c)) == Rep(v, n)
    ensures if c.ty.Load? then HasEdge(ly, v, Rep(v, t.hcd[n]), Rep(v, c.dest)) else HasEdge(ly, v, Rep(v, c.src), Rep(v, t.hcd[n]))
  {
    assert MapsAt(v, t.hcd, n);
    hide MapsOn, HasEdge;
  }

  /** With nothing open the state's own points-to graph is tame. */
  lemma ResultIsTame(ly: Layout, v: FState, t: Task)
    requires Between(ly, v, {}, t)
    ensures Coarser(t.root, v.root) && Respects(Meaning(v), v.root) && Tame(ly, t, Meaning(v), v.root) && TaskOk(ly, t)
  {
    BetweenTask(ly, v, t);
    assert IsRep(v.root) && IsRep(t.root);
    hide LoopInv, CoversAll, MapsOn, TaskOk, Meaning;
    ClosedSolves(ly, v, t.cs, t.root);
    ClosedSolves(ly, v, t.cs, v.root);
    PointeesMerged(ly, v, t);
    EdgesThere(ly, v, t);
  }

  lemma BetweenTask(ly: Layout, v: FState, t: Task)
    requires Between(ly, v, {}, t)
    ensures LoopInv(ly, v, {}) && Sizes(ly, v) && CoversAll(ly, v, t.cs) && MapsOn(v, t.hcd) && Coarser(t.root, v.root)
    ensures SoundFor(ly, v, t) && TaskOk(ly, t)
  {
    hide CoversAll, MapsOn, OneTarget, Tame, Steady, Origin, MapsBack, ClosedFor, DataOk, ListsOk;
  }

  // ----- Compared with the least solution -----

  /** Whether a graph is tame depends on its sets alone. */
  lemma SameTame(ly: Layout, t: Task, r: seq<nat>, p: PtsGraph, q: PtsGraph)
    requires Same(p, q) && PointeesEqual(ly, t.hcd, p) && IntEdges(ly, t, p, r)
    ensures PointeesEqual(ly, t.hcd, q) && IntEdges(ly, t, q, r)
  {
    hide At;
    forall n, c | n in t.hcd && c in t.cs && Plain(c) && Find(r, Pointer(c)) == Find(r, n) && IntOnly(ly, At(q, n))
      ensures EdgeHolds(ly, q, c, t.hcd[n])
    {
      assert At(p, n) == At(q, n) && EdgeHolds(ly, p, c, t.hcd[n]);
    }
  }

  lemma BelowBoth(p: PtsGraph, q: PtsGraph)
    requires Below(p, q) && Below(q, p)
    ensures Same(p, q)
  {
    hide At;
  }

  lemma LeastTame(ly: Layout, t: Task, v: FState)
    requires Sizes(ly, v) && TaskOk(ly, t) && SoundFor(ly, v, t)
    requires forall q: PtsGraph | Tame(ly, t, q, v.root) :: Below(Meaning(v), q)
    requires Tame(ly, t, Meaning(v), v.root)
    ensures var l := FieldLeast(ly, t.cs, t.root);
      Below(l, Meaning(v)) && (Same(Meaning(v), l) <==> PointeesEqual(ly, t.hcd, l) && IntEdges(ly, t, l, v.root))
  {
    var l, m := FieldLeast(ly, t.cs, t.root), Meaning(v);
    FieldLeastIsSolution(ly, t.cs, t.root);
    FieldLeastIsLeast(ly, t.cs, t.root, m);
    hide FieldLeast, Meaning, PointeesEqual, IntEdges, FieldSolution, TaskOk, SoundFor, Below;
    if PointeesEqual(ly, t.hcd, l) && IntEdges(ly, t, l, v.root) {
      BelowBoth(m, l);
    }
    if Same(m, l) {
      SameTame(ly, t, v.root, m, l);
    }
  }

  /** What the run ends with when nothing is left to do. */
  lemma Converged(ly: Layout, v: FState, open: set<nat>, t: Task)
    requires Between(ly, v, open, t) && open == {}
    ensures Solved(ly, t, v.root, Meaning(v))
  {
    ResultIsTame(ly, v, t);
    BetweenTask(ly, v, t);
    hide Between, LoopInv, CoversAll, Meaning, Tame, Steady, TaskOk, Respects, Below, PointeesEqual, IntEdges, FieldLeast, Coarser, MapsOn, Origin;
    forall q: PtsGraph | Tame(ly, t, q, v.root) ensures Below(Meaning(v), q) {
      SoundIn(ly, v, t, q);
      SoundIsBelow(ly, v, q);
    }
    forall q: PtsGraph | Steady(ly, t, q) ensures Respects(q, v.root) && Below(Meaning(v), q) {
      assert Respects(q, v.root);
      assert |v.root| == |ly.sz|;
      SteadyIsTame(ly, t, q, v.root);
    }
    LeastTame(ly, t, v);
  }

  // ----- When the result is the least solution -----

  /** Two conditions that do not speak of what the run merged: the first is needed for the result to be the
      least solution, as the given merges are among those of the run, and the second is enough. */
  lemma ExactBetween(ly: Layout, t: Task, r: seq<nat>, m: PtsGraph)
    requires TaskOk(ly, t) && Solved(ly, t, r, m)
    ensures var l := FieldLeast(ly, t.cs, t.root);
      && (Same(m, l) ==> PointeesEqual(ly, t.hcd, l) && IntEdges(ly, t, l, t.root))
      && (Steady(ly, t, l) ==> Same(m, l))
  {
    var l := FieldLeast(ly, t.cs, t.root);
    assert |t.root| == |ly.sz|;
    hide FieldLeast, PointeesEqual, IntEdges, TaskOk, Coarser, FieldSolution, Below;
    if Same(m, l) {
      TameFiner(ly, t, m, t.root, r);
      SameTame(ly, t, t.root, m, l);
    }
    if Steady(ly, t, l) {
      BelowBoth(m, l);
    }
  }

  /** They are one condition if no load or store without an offset goes through a pointer that is only equal, in the least
      solution, to a mapped one without objects: then the edges of loads and stores through mapped pointers decide. */
  lemma ExactIff(ly: Layout, t: Task, r: seq<nat>, m: PtsGraph)
    requires TaskOk(ly, t) && Solved(ly, t, r, m)
    requires var l := FieldLeast(ly, t.cs, t.root); LayoutOk(ly) && forall n, c | n in t.hcd && c in t.cs && Plain(c) &&
      At(l, Pointer(c)) == At(l, n) && IntOnly(ly, At(l, n)) :: Find(t.root, Pointer(c)) == Find(t.root, n)
    ensures var l := FieldLeast(ly, t.cs, t.root);
      Same(m, l) <==> PointeesEqual(ly, t.hcd, l) && IntEdges(ly, t, l, t.root)
  {
    var l := FieldLeast(ly, t.cs, t.root);
    FieldLeastIsSolution(ly, t.cs, t.root);
    ExactBetween(ly, t, r, m);
    hide FieldLeast, PointeesEqual, FieldSolution, Solved, TaskOk, Same, IntOnly, EdgeHolds, Find, At;
    if PointeesEqual(ly, t.hcd, l) && IntEdges(ly, t, l, t.root) {
      assert Steady(ly, t, l);
    }
  }

  /** What a run ends with solves the constraints and is below every steady graph. */
  lemma ResultBounds(ly: Layout, t: Task, r: seq<nat>, m: PtsGraph, q: PtsGraph)
    requires Solved(ly, t, r, m) && Steady(ly, t, q)
    ensures FieldSolution(ly, m, t.cs, t.root) && Below(m, q)
  {
    hide Steady, FieldSolution, PointeesEqual, IntEdges, FieldLeast, Below;
  }

  /** And it has the edges of mapped pointers that point to no object. */
  lemma ResultEdge(ly: Layout, t: Task, r: seq<nat>, m: PtsGraph, n: nat, c: FieldConstraint)
    requires Solved(ly, t, r, m) && n in t.hcd && c in t.cs && Plain(c) && Pointer(c) == n && IntOnly(ly, At(m, n))
    ensures EdgeHolds(ly, m, c, t.hcd[n])
  {
    assert Tame(ly, t, m, r);
    hide Solved, Tame, IntOnly, EdgeHolds;
    IntEdge(ly, t, m, r, n, c);
  }
}
