/** Inputs on which the optimizers are not exact, and why their hypotheses are there. */
module OptimizerLimits {
  import opened Constraints
  import opened Graphs
  import opened CycleDetectors
  import opened PredecessorGraphs
  import opened Labels
  import opened Rewriting
  import opened PointerEquivalence

  // ----- Storing through a pointer that points nowhere -----

  /** x = &a; x = *p; *p = x; y = *p; *p = y, with a, x, y, p numbered 1 to 4. */
  function EmptyPointer(): seq<Constraint> {
    [Constraint(AddrOf, 2, 1), Constraint(Load, 2, 4), Constraint(Store, 4, 2), Constraint(Load, 3, 4), Constraint(Store, 4, 3)]
  }

  lemma EmptyPointerIs()
    ensures forall c :: c in EmptyPointer() <==>
              || c == Constraint(AddrOf, 2, 1) || c == Constraint(Load, 2, 4) || c == Constraint(Store, 4, 2)
              || c == Constraint(Load, 3, 4) || c == Constraint(Store, 4, 3)
    ensures InRange(EmptyPointer(), 5)
  {
    var cs := EmptyPointer();
    assert cs[0] in cs && cs[1] in cs && cs[2] in cs && cs[3] in cs && cs[4] in cs;
  }

  lemma EmptyPointerEdges()
    ensures forall x | x in {2, 3} :: 9 in Preds(EmptyPointer(), 5, x) && x in Preds(EmptyPointer(), 5, 9)
  {
    var cs := EmptyPointer();
    EmptyPointerIs();
    hide EmptyPointer, Preds;
    HasPred(cs, 5, 2, 9, Constraint(Load, 2, 4));
    HasPred(cs, 5, 9, 2, Constraint(Store, 4, 2));
    HasPred(cs, 5, 3, 9, Constraint(Load, 3, 4));
    HasPred(cs, 5, 9, 3, Constraint(Store, 4, 3));
  }

  lemma EmptyPointerCycle()
    ensures Mutual(PredGraph(EmptyPointer(), 5), 2, 3) && Mutual(PredGraph(EmptyPointer(), 5), 2, 9)
  {
    var g := PredGraph(EmptyPointer(), 5);
    EmptyPointerEdges();
    hide Preds;
    ReachesEdge(g, 2, 9);
    ReachesEdge(g, 9, 2);
    ReachesEdge(g, 3, 9);
    ReachesEdge(g, 9, 3);
    ReachesTrans(g, 2, 9, 3);
    ReachesTrans(g, 3, 9, 2);
  }

  lemma EmptyPointerLeast()
    ensures 1 in At(Least(EmptyPointer(), Identity(5)), 2)
    ensures At(Least(EmptyPointer(), Identity(5)), 3) == {}
    ensures At(Least(EmptyPointer(), Identity(5)), 4) == {}
  {
    var cs, l := EmptyPointer(), Least(EmptyPointer(), Identity(5));
    EmptyPointerIs();
    hide EmptyPointer, Least;
    LeastIsSolution(cs, Identity(5));
    assert Holds(l, Constraint(AddrOf, 2, 1));
    LeastIsLeast(cs, Identity(5), map[2 := {1}]);
  }

  lemma InvLabels(cs: seq<Constraint>, size: nat, kind: Kind, s: Opt, log: seq<Component>)
    requires OptInv(cs, size, kind, s, log)
    ensures LabelsOk(cs, size, s, log)
  {
  }

  /** x and y are labelled alike, and so are merged, though only x points to a: the hypothesis of
      `RewritingIsExact` cannot be dropped. */
  lemma EmptyPointerIsMerged(kind: Kind, s: Opt, log: seq<Component>)
    requires SccOrder(PredGraph(EmptyPointer(), 5), log) && OptInv(EmptyPointer(), 5, kind, s, log) && 2 in Done(log)
    ensures !StoresLand(Least(EmptyPointer(), Identity(5)), EmptyPointer())
    ensures Lab(s, log, 2) == Lab(s, log, 3) != 0
    ensures At(Least(EmptyPointer(), Identity(5)), 2) != At(Least(EmptyPointer(), Identity(5)), 3)
  {
    var cs := EmptyPointer();
    hide OptInv, Least, SccOrder, Reaches, EmptyPointer, Preds, LabelOf, Sources, Shape, Done, InRange;
    EmptyPointerIs();
    assert Constraint(Store, 4, 2) in cs;
    EmptyPointerCycle();
    EmptyPointerLeast();
    InvLabels(cs, 5, kind, s, log);
    LeadersAgree(PredGraph(cs, 5), log, 2, 3);
    var c, i := SourcesAt(cs, 5, log, 2);
    ReachesTrans(PredGraph(cs, 5), c.root, 2, 9);
    ReachesTrans(PredGraph(cs, 5), 9, 2, c.root);
    assert 9 in Nodes(c) && Indirect(cs, 5, c);
  }

  // ----- A cycle through the REF node of node 0 -----

  /** v = *0; *0 = v; 0 = *q; q = &r; r = &w; w = &z, with v, q, r, w, z numbered 1 to 5. */
  function RefZero(): seq<Constraint> {
    [Constraint(Load, 1, 0), Constraint(Store, 0, 1), Constraint(Load, 0, 2),
     Constraint(AddrOf, 2, 3), Constraint(AddrOf, 3, 4), Constraint(AddrOf, 4, 5)]
  }

  lemma RefZeroIs()
    ensures forall c :: c in RefZero() <==>
              || c == Constraint(Load, 1, 0) || c == Constraint(Store, 0, 1) || c == Constraint(Load, 0, 2)
              || c == Constraint(AddrOf, 2, 3) || c == Constraint(AddrOf, 3, 4) || c == Constraint(AddrOf, 4, 5)
    ensures InRange(RefZero(), 6) && RefZero()[0] == Constraint(Load, 1, 0)
  {
    var cs := RefZero();
    assert cs[0] in cs && cs[1] in cs && cs[2] in cs && cs[3] in cs && cs[4] in cs && cs[5] in cs;
  }

  lemma RefZeroPreds(cs: seq<Constraint>)
    requires cs == RefZero()
    ensures Preds(cs, 6, 1) == {6} && Preds(cs, 6, 6) == {1}
  {
    hide RefZero, HasEdge, InRange;
    RefZeroIs();
    HasPred(cs, 6, 1, 6, Constraint(Load, 1, 0));
    HasPred(cs, 6, 6, 1, Constraint(Store, 0, 1));
    forall y | y in Preds(cs, 6, 1) ensures y == 6 {
      RefZeroOnly(1, y);
    }
    forall y | y in Preds(cs, 6, 6) ensures y == 1 {
      RefZeroOnly(6, y);
    }
  }

  lemma RefZeroOnly(x: nat, y: nat)
    requires HasEdge(RefZero(), 6, x, y)
    ensures x == 1 ==> y == 6
    ensures x == 6 ==> y == 1
  {
    hide RefZero;
    RefZeroIs();
    var c :| c in RefZero() && EdgeOf(c, 6, x, y);
    hide HasEdge;
  }

  /** The component of v and *0 can be the first that is reported. */
  lemma RefZeroComponent()
    ensures ComesNext(PredGraph(RefZero(), 6), {}, Component(1, [6]))
  {
    var g := PredGraph(RefZero(), 6);
    hide Preds, RefZero;
    RefZeroPreds(RefZero());
    assert 1 in g && 6 in g;
    assert g[1] == {6} && g[6] == {1};
    hide PredGraph;
    TwoNodeComponent(g, 1, 6);
  }

  /** Two nodes that have edges to each other only. */
  lemma TwoNodeComponent(g: Graph, x: nat, y: nat)
    requires x in g && y in g && x != y && g[x] == {y} && g[y] == {x}
    ensures ComesNext(g, {}, Component(x, [y]))
  {
    ReachesEdge(g, x, y);
    ReachesEdge(g, y, x);
    ReachesSelf(g, x);
    forall z: nat | z in g && Mutual(g, x, z) ensures z in {x, y} {
      ReachesInside(g, {x, y}, x, z);
    }
    assert Nodes(Component(x, [y])) == {x, y};
    hide Reaches;
  }

  lemma RefZeroLeast()
    ensures 5 in At(Least(RefZero(), Identity(6)), 1)
  {
    var cs, l := RefZero(), Least(RefZero(), Identity(6));
    hide Least, RefZero;
    RefZeroIs();
    LeastIsSolution(cs, Identity(6));
    hide At;
    assert Holds(l, Constraint(AddrOf, 2, 3)) && Holds(l, Constraint(AddrOf, 3, 4)) && Holds(l, Constraint(AddrOf, 4, 5));
    assert Holds(l, Constraint(Load, 0, 2)) && 4 in At(l, 0);
    assert Holds(l, Constraint(Load, 1, 0));
  }

  /** When it is, v is labelled a non-pointer and its constraint dropped, though v points to z:
      neither optimizer is sound without the hypothesis on that node. */
  lemma RefZeroIsOverlooked(kind: Kind, s: Opt)
    requires Starts(RefZero(), 6, s)
    ensures ComesNext(PredGraph(RefZero(), 6), Done([]), Component(1, [6])) && Overlooked(RefZero(), 6, Component(1, [6]))
    ensures var labels := Report(Optimizer(kind, 6), s, Component(1, [6])).peLabel;
      LabelIn(labels, 1) == 0 && forall rep, rev :: Rewrite(6, labels, rep, rev, RefZero()[0]) == []
    ensures 5 in At(Least(RefZero(), Identity(6)), 1)
  {
    hide Least, ComesNext, Preds, RefZero, Report, Rewrite, Done;
    RefZeroIs();
    RefZeroComponent();
    RefZeroLeast();
    RefZeroPreds(RefZero());
    assert Done([]) == {} by {
      NothingDone();
    }
    assert AddressTaken(RefZero()) !! {1, 6};
    hide AddressTaken, InRange;
    RefZeroLabel(kind, s);
    forall rep, rev ensures Rewrite(6, Report(Optimizer(kind, 6), s, Component(1, [6])).peLabel, rep, rev, Constraint(Load, 1, 0)) == [] {
      NoLabelNoConstraint(6, Report(Optimizer(kind, 6), s, Component(1, [6])).peLabel, rep, rev, Constraint(Load, 1, 0));
    }
  }

  lemma NothingDone()
    ensures Done([]) == {}
  {
  }

  lemma NoLabelNoConstraint(size: nat, labels: map<nat, nat>, rep: seq<nat>, rev: seq<nat>, c: Constraint)
    requires size > 0 && LabelIn(labels, c.dest) == 0
    ensures Rewrite(size, labels, rep, rev, c) == []
  {
  }

  lemma RefZeroLabel(kind: Kind, s: Opt)
    requires Succ(s.pred, 1) == {6} && Succ(s.pred, 6) == {1} && 1 !in s.indirect && 6 !in s.indirect
    requires s.mergeTarget == map[] && s.ptsSet == map[]
    ensures LabelIn(Report(Optimizer(kind, 6), s, Component(1, [6])).peLabel, 1) == 0
  {
    var t := Fold(Optimizer(kind, 6), s, 1, [6]);
    FoldIsFolded(kind, 6, s, 1, [6]);
    hide Fold;
    assert 6 in [6] && Elems([6]) == {6};
    assert AllPreds(s, Elems([6])) == {1};
    assert Succ(t.pred, 1) == {6, 1};
    assert 1 !in t.indirect && t.ptsSet == map[];
    assert t.mergeTarget == map[6 := 1];
    assert RepOf(t, 6) == 1 && RepOf(t, 1) == 1;
    hide RepOf, Succ;
    assert PredLabels(t, 1) == {} && PredPts(t, 1) == {};
  }
}
