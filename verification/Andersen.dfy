/** The whole analysis: optimize the constraints, then solve what is left of them. */
module AndersenPass {
  import Rewriting
  import opened Constraints
  import opened NodeFactory
  import opened ConstraintGraphs
  import opened Solving
  import opened PredecessorGraphs
  import opened Labels
  import opened PointerEquivalence
  import opened ConstraintOptimize
  import opened Graphs
  import opened Programs
  import opened ConstraintCollect
  import opened Collectors
  import opened Inclusions

  datatype Flag = Off | On(kind: Kind)

  /** What every lookup in the factory returns. */
  method MergeTargets(nodeFactory: AndersNodeFactory) returns (root: seq<nat>)
    requires nodeFactory.Valid()
    modifies nodeFactory`mergeTarget
    ensures nodeFactory.Valid() && root == nodeFactory.root
  {
    hide IsForest;
    ForestSize(nodeFactory.mergeTarget, nodeFactory.root, nodeFactory.depth);
    root := [];
    var n := nodeFactory.GetNumNodes();
    for i := 0 to n
      invariant nodeFactory.Valid() && n == |nodeFactory.root| && root == nodeFactory.root[..i]
    {
      var target := nodeFactory.GetMergeTarget(i);
      root := root + [target];
    }
  }

  /** By the labels of a search the nodes with one label were merged, and each constraint was simplified. */
  ghost predicate Optimized(kind: Kind, cs: seq<Constraint>, root: seq<nat>, cs2: seq<Constraint>) {
    exists log, labels :: OptimizedBy(kind, cs, root, cs2, log, labels)
  }

  ghost predicate OptimizedBy(kind: Kind, cs: seq<Constraint>, root: seq<nat>, cs2: seq<Constraint>, log: seq<Component>, labels: map<nat, nat>) {
    && InRange(cs, |root|) && LabelsOf(cs, |root|, kind, log, labels) && Rewriting.Merges(|root|, labels, root)
    && (forall b :: b in cs2 <==> exists c :: c in cs && Simplified(|root|, labels, root, c, b))
  }

  /** optimizeConstraints with at most one optimizer enabled. */
  method OptimizeConstraints(cs: seq<Constraint>, nodeFactory: AndersNodeFactory, optimizer: Flag) returns (cs2: seq<Constraint>)
    requires nodeFactory.Valid() && nodeFactory.root == Identity(|nodeFactory.root|)
    requires 0 < |nodeFactory.root| && 3 * |nodeFactory.root| < Rewriting.INVALID_INDEX && InRange(cs, |nodeFactory.root|)
    requires optimizer.On? ==> RefZeroHarmless(cs, |nodeFactory.root|)
    modifies nodeFactory
    ensures nodeFactory.Valid() && |nodeFactory.root| == old(|nodeFactory.root|) && IsRep(nodeFactory.root)
    ensures InRange(cs2, |nodeFactory.root|)
    ensures if optimizer.On? then Optimized(optimizer.kind, cs, nodeFactory.root, cs2) else cs2 == cs && nodeFactory.root == old(nodeFactory.root)
    ensures forall n: nat :: At(Least(cs2, nodeFactory.root), n) == At(Least(cs, nodeFactory.root), n)
    ensures optimizer.Off? || StoresLand(Least(cs, old(nodeFactory.root)), cs) ==>
              forall n: nat :: At(Least(cs2, nodeFactory.root), Find(nodeFactory.root, n)) == At(Least(cs, old(nodeFactory.root)), n)
  {
    cs2 := cs;
    hide Least, StoresLand, RefZeroHarmless, Labels.Starts, IsForest, Rewriting.Setting, Simplified, LabelsOf, Rewriting.Merges, Rewriting.Rewritten;
    if optimizer.On? {
      var o := new ConstraintOptimizer(optimizer.kind, cs, nodeFactory);
      ghost var log, labels, rev := o.Run();
      cs2 := o.constraints;
      assert OptimizedBy(optimizer.kind, cs, nodeFactory.root, cs2, log, labels) by {
        SettingMerges(cs, |nodeFactory.root|, log, labels, nodeFactory.root, rev);
      }
    }
    ForestIsRep(nodeFactory.mergeTarget, nodeFactory.root, nodeFactory.depth);
  }

  lemma SettingMerges(cs: seq<Constraint>, size: nat, log: seq<Component>, labels: map<nat, nat>, rep: seq<nat>, rev: seq<nat>)
    requires Rewriting.Setting(cs, size, log, labels, rep, rev)
    ensures Rewriting.Merges(size, labels, rep)
  {
  }

  lemma ForestIsRep(mergeTarget: seq<nat>, root: seq<nat>, depth: seq<nat>)
    requires IsForest(mergeTarget, root, depth)
    ensures IsRep(root)
  {
  }

  /** With or without an optimizer, with or without lazy cycle collapsing, the result is the least
      solution of the given constraints, read through the merges. */
  method RunOnModule(cs: seq<Constraint>, nodeFactory: AndersNodeFactory, optimizer: Flag, lcd: bool) returns (a: Andersen)
    requires nodeFactory.Valid() && nodeFactory.root == Identity(|nodeFactory.root|)
    requires 0 < |nodeFactory.root| && 3 * |nodeFactory.root| < Rewriting.INVALID_INDEX && InRange(cs, |nodeFactory.root|)
    requires optimizer.On? ==> RefZeroHarmless(cs, |nodeFactory.root|)
    modifies nodeFactory
    ensures fresh(a) && |nodeFactory.root| == old(|nodeFactory.root|) && IsRep(nodeFactory.root)
    ensures forall n: nat :: At(Meaning(a.V()), n) == At(Least(cs, nodeFactory.root), n)
    ensures optimizer.Off? || StoresLand(Least(cs, old(nodeFactory.root)), cs) ==>
              forall n: nat :: At(Meaning(a.V()), n) == At(Least(cs, old(nodeFactory.root)), n)
  {
    hide Least, StoresLand, RefZeroHarmless, Meaning;
    var cs2 := OptimizeConstraints(cs, nodeFactory, optimizer);
    var root := MergeTargets(nodeFactory);
    a := new Andersen(root);
    a.SolveConstraints(cs2, lcd);
    if optimizer.Off? || StoresLand(Least(cs, old(nodeFactory.root)), cs) {
      forall n: nat ensures At(Least(cs2, root), Find(root, n)) == At(Least(cs2, root), n) {
        LeastRespects(cs2, root, n);
      }
    }
  }

  lemma LeastRespects(cs: seq<Constraint>, rep: seq<nat>, n: nat)
    requires InRange(cs, |rep|) && IsRep(rep)
    ensures At(Least(cs, rep), Find(rep, n)) == At(Least(cs, rep), n)
  {
    LeastIsSolution(cs, rep);
  }

  /** The optimizers' hypothesis on node 0, the universal pointer, holds of every collected program. */
  lemma CollectedIsHarmless(cs: seq<Constraint>, size: nat)
    requires InRange(cs, size) && SpecialOnly(cs)
    ensures RefZeroHarmless(cs, size)
  {
    var g := PredGraph(cs, size);
    forall y | y in Preds(cs, size, size) ensures y == 1 {
      var c :| c in cs && EdgeOf(c, size, size, y);
    }
    forall c, y | c in cs ensures !EdgeOf(c, size, 1, y) {
    }
    assert Preds(cs, size, 1) == {};
    hide Preds;
    forall x: nat | x < size && Mutual(g, size, x) ensures false {
      ReachesInside(g, {size, 1}, size, x);
      ReachesInside(g, {1}, 1, size);
    }
  }

  /** From a collected program to the points-to sets: in every state of every run, what a register,
      argument or cell points to is in the points-to set computed for it.  The sets are the least that have all the
      program asks for and do not tell merged nodes apart; the merges make no difference if nothing that points
      somewhere is stored through an empty pointer. */
  method Analyze(c: Collector, optimizer: Flag, lcd: bool) returns (a: Andersen)
    requires c.Inv(Keys(c.m, Registers(|c.m.functions|, 0))) && 3 * |c.nodeFactory.root| < Rewriting.INVALID_INDEX
    requires InRange(c.constraints, |c.nodeFactory.root|) && SpecialOnly(c.constraints)
    requires forall b :: b in c.constraints <==> Emits(c.m, c.t, b)
    modifies c.nodeFactory
    ensures fresh(a) && |c.nodeFactory.root| == old(|c.nodeFactory.root|) && IsRep(c.nodeFactory.root)
    ensures forall run, i | IsRun(c.m, run) && 0 <= i < |run| :: ConstraintCollect.Sound(c.m, c.t, Meaning(a.V()), run[i])
    ensures forall n: nat :: At(Meaning(a.V()), n) == At(Least(c.constraints, c.nodeFactory.root), n)
    ensures optimizer.Off? || StoresLand(Least(c.constraints, old(c.nodeFactory.root)), c.constraints) ==>
              forall n: nat :: At(Meaning(a.V()), n) == At(Least(c.constraints, old(c.nodeFactory.root)), n)
    ensures Meant(c.m, c.t, Meaning(a.V()))
    ensures forall p | Meant(c.m, c.t, p) && Respects(p, c.nodeFactory.root) :: Below(Meaning(a.V()), p)
    ensures optimizer.Off? || StoresLand(Least(c.constraints, old(c.nodeFactory.root)), c.constraints) ==>
              forall p | Meant(c.m, c.t, p) :: Below(Meaning(a.V()), p)
  {
    assert 4 <= |c.nodeFactory.root| && ModuleOk(c.m) && c.nodeFactory.root == Identity(|c.nodeFactory.root|);
    hide Least, StoresLand, RefZeroHarmless, Meaning, Keys, Emits, IsForest, ModuleOk, SpecialOnly, Meant;
    CollectedIsHarmless(c.constraints, |c.nodeFactory.root|);
    a := RunOnModule(c.constraints, c.nodeFactory, optimizer, lcd);
    hide *;
    var root := c.nodeFactory.root;
    AnySolutionCovers(c.m, c.t, c.constraints, root, Meaning(a.V()));
    LeastIsMeant(c.m, c.t, c.constraints, root, Meaning(a.V()));
    if optimizer.Off? || StoresLand(Least(c.constraints, old(c.nodeFactory.root)), c.constraints) {
      LeastOfAll(c.m, c.t, c.constraints, old(c.nodeFactory.root), Meaning(a.V()));
    }
  }

  /** A points-to graph that agrees with a least solution of a program's constraints is the least that has all the program
      asks for and does not tell merged nodes apart. */
  lemma LeastIsMeant(m: Programs.Module, t: Tables, cs: seq<Constraint>, rep: seq<nat>, q: PtsGraph)
    requires ModuleOk(m) && (forall c :: c in cs <==> Emits(m, t, c)) && InRange(cs, |rep|) && IsRep(rep)
    requires forall n: nat :: At(q, n) == At(Least(cs, rep), n)
    ensures Meant(m, t, q) && forall p | Meant(m, t, p) && Respects(p, rep) :: Below(q, p)
  {
    LeastIsSolution(cs, rep);
    hide Least, Emits, ModuleOk, Meant, Below, Respects;
    forall c | c in cs ensures Holds(q, c) {
      assert Holds(Least(cs, rep), c);
    }
    AllMeant(m, t, q, cs);
    forall p | Meant(m, t, p) && Respects(p, rep) ensures Below(q, p) {
      AllMeant(m, t, p, cs);
      LeastIsLeast(cs, rep, p);
      BelowLike(q, Least(cs, rep), p);
    }
  }

  lemma LeastOfAll(m: Programs.Module, t: Tables, cs: seq<Constraint>, rep: seq<nat>, q: PtsGraph)
    requires ModuleOk(m) && (forall c :: c in cs <==> Emits(m, t, c)) && InRange(cs, |rep|) && rep == Identity(|rep|)
    requires forall n: nat :: At(q, n) == At(Least(cs, rep), n)
    ensures forall p | Meant(m, t, p) :: Below(q, p)
  {
    LeastIsMeant(m, t, cs, rep, q);
    hide Least, Emits, ModuleOk, Meant, Below;
    assert forall p :: Respects(p, rep);
  }

  lemma BelowLike(q: PtsGraph, l: PtsGraph, p: PtsGraph)
    requires (forall n: nat :: At(q, n) == At(l, n)) && Below(l, p)
    ensures Below(q, p)
  {
    hide At;
  }

  /** Any points-to graph that agrees with a least solution of the constraints covers all runs. */
  lemma AnySolutionCovers(m: Programs.Module, t: Tables, cs: seq<Constraint>, rep: seq<nat>, p: PtsGraph)
    requires ModuleOk(m) && (forall c :: c in cs <==> Emits(m, t, c)) && InRange(cs, |rep|) && IsRep(rep)
    requires forall n: nat :: At(p, n) == At(Least(cs, rep), n)
    ensures forall run, i | IsRun(m, run) && 0 <= i < |run| :: ConstraintCollect.Sound(m, t, p, run[i])
  {
    LeastIsSolution(cs, rep);
    hide Least, Emits, ModuleOk, IsRun;
    forall c | Emits(m, t, c) ensures Holds(p, c) {
      assert Holds(Least(cs, rep), c);
    }
    forall run, i | IsRun(m, run) && 0 <= i < |run| ensures ConstraintCollect.Sound(m, t, p, run[i]) {
      RunIsSound(m, t, p, run, i);
    }
  }
}
