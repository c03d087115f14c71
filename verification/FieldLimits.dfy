/** Two inputs for the field-sensitive solver: one for which collapsing pointees is not exact, as a pointer was made
    from integers alone, and one with two equal pointers and different targets for which it is. */
module FieldLimits {
  import opened Constraints
  import opened FieldConstraints
  import opened FieldStates
  import opened FieldTasks
  import opened FieldInit
  import opened FieldResults
  import opened FieldOffline
  import opened FieldSolver
  import opened OfflineFlows

  // ----- p = &i2p; h = &z; h = *p; *p = h; x = &w; x = *p, with p mapped to h -----

  const P: nat := 2
  const H: nat := 3
  const X: nat := 4
  const Z: nat := 5
  const W: nat := 6
  const Ly: Layout := Layout([0, 1, 0, 0, 0, 1, 1], 1)
  const Ints: Task := Task([
    Cons(FieldType.AddrOf, P, 1, 0), Cons(FieldType.AddrOf, H, Z, 0),
    Cons(FieldType.Load, H, P, 0), Cons(FieldType.Store, P, H, 0),
    Cons(FieldType.AddrOf, X, W, 0), Cons(FieldType.Load, X, P, 0)], [0, 1, 2, 3, 4, 5, 6], map[P := H])
  const Least: PtsGraph := map[P := {1}, H := {Z}, X := {W}]
  const Result: PtsGraph := map[P := {1}, H := {Z}, X := {W, Z}]

  lemma LeastSolves()
    ensures FieldSolution(Ly, Least, Ints.cs, Ints.root)
  {
    forall c | c in Ints.cs ensures FieldHolds(Ly, Least, c) {
    }
  }

  lemma IntsInRange()
    ensures LayoutOk(Ly) && FieldInRange(Ly, Ints.cs) && IsRep(Ints.root) && |Ints.root| == |Ly.sz|
  {
  }

  lemma LeastIsForced(q: PtsGraph)
    requires FieldSolution(Ly, q, Ints.cs, Ints.root)
    ensures 1 in At(q, P) && Z in At(q, H) && W in At(q, X)
  {
    assert FieldHolds(Ly, q, Ints.cs[0]) && FieldHolds(Ly, q, Ints.cs[1]) && FieldHolds(Ly, q, Ints.cs[4]);
  }

  lemma LeastIs()
    ensures Same(FieldLeast(Ly, Ints.cs, Ints.root), Least)
  {
    LeastSolves();
    IntsInRange();
    var l := FieldLeast(Ly, Ints.cs, Ints.root);
    FieldLeastIsSolution(Ly, Ints.cs, Ints.root);
    FieldLeastIsLeast(Ly, Ints.cs, Ints.root, Least);
    LeastIsForced(l);
    hide FieldLeast, FieldSolution, FieldInRange, Ints, Ly;
    forall n: nat ensures At(l, n) == At(Least, n) {
      assert At(l, n) <= At(Least, n);
    }
  }

  lemma ResultSolves()
    ensures FieldSolution(Ly, Result, Ints.cs, Ints.root)
  {
    forall c | c in Ints.cs ensures FieldHolds(Ly, Result, c) {
    }
  }

  lemma ResultIsSteady()
    ensures Steady(Ly, Ints, Result)
  {
    ResultSolves();
    hide FieldSolution;
  }

  lemma PIsOnCycle()
    ensures OnCycles(Ly, Ints.cs, Ints.root, Ints.hcd)
  {
    TwoEdges(Ints.cs, H, P, Ints.cs[2], Ints.cs[3]);
  }

  /** By a load from p to h and a store of h through p values flow from what p points to, to h, and back. */
  lemma TwoEdges(cs: seq<FieldConstraint>, h: nat, p: nat, c: FieldConstraint, d: FieldConstraint)
    requires c in cs && d in cs && c == Cons(FieldType.Load, h, p, 0) && d == Cons(FieldType.Store, p, h, 0)
    ensures FieldWay(cs, Deref(p), Var(h)) && FieldWay(cs, Var(h), Deref(p))
  {
    assert IsFieldWay(cs, [Deref(p), Var(h)]) && IsFieldWay(cs, [Var(h), Deref(p)]);
  }

  lemma IntsAreOk()
    ensures Sizes(Ly, Blank(Ints.root, Ints.hcd)) && TaskOk(Ly, Ints)
  {
    IntsInRange();
    assert Used(Ints.cs, Ints.root, P) by {
      assert Find(Ints.root, Pointer(Ints.cs[2])) == P;
    }
    hide LayoutOk, FieldInRange;
  }

  /** The edge from h is in every result of a run. */
  lemma EdgeIsAdded(r: seq<nat>, m: PtsGraph)
    requires Solved(Ly, Ints, r, m)
    ensures At(m, X) == {W, Z}
  {
    ResultIsSteady();
    hide Solved, Steady, FieldSolution, FieldHolds, IntOnly;
    ResultBounds(Ly, Ints, r, m, Result);
    LeastIsForced(m);
    PIsInt(m);
    LoadsZ(r, m);
    assert At(m, X) <= At(Result, X);
  }

  lemma PIsInt(m: PtsGraph)
    requires Below(m, Result) && 1 in At(m, P)
    ensures IntOnly(Ly, At(m, P))
  {
    assert At(m, P) <= At(Result, P);
  }

  lemma LoadsZ(r: seq<nat>, m: PtsGraph)
    requires Solved(Ly, Ints, r, m) && IntOnly(Ly, At(m, P)) && Z in At(m, H)
    ensures Z in At(m, X)
  {
    var c := Ints.cs[5];
    hide Solved, IntOnly, At;
    ResultEdge(Ly, Ints, r, m, P, c);
  }

  lemma LeastHasNot()
    ensures var l := FieldLeast(Ly, Ints.cs, Ints.root);
      At(l, X) == {W} && PointeesEqual(Ly, Ints.hcd, l) && !IntEdges(Ly, Ints, l, Ints.root)
  {
    LeastIs();
    var l, c := FieldLeast(Ly, Ints.cs, Ints.root), Ints.cs[5];
    hide FieldLeast;
    assert At(l, P) == At(Least, P) && At(l, H) == At(Least, H) && At(l, X) == At(Least, X);
    assert IntOnly(Ly, At(l, P)) && !EdgeHolds(Ly, l, c, H) && c in Ints.cs && Plain(c) && Pointer(c) == P && P in Ints.hcd && Ints.hcd[P] == H;
    hide FieldLeast, IntOnly, EdgeHolds, At, Ints;
    NoIntEdges(Ly, Ints, l, P, c);
  }

  lemma NoIntEdges(ly: Layout, t: Task, q: PtsGraph, n: nat, c: FieldConstraint)
    requires n in t.hcd && c in t.cs && Plain(c) && Pointer(c) == n && IntOnly(ly, At(q, n)) && !EdgeHolds(ly, q, c, t.hcd[n])
    ensures !IntEdges(ly, t, q, t.root)
  {
    hide IntOnly, EdgeHolds, At;
    assert Find(t.root, Pointer(c)) == Find(t.root, n);
  }

  /** Here *p and h are on a cycle, and p points to i2p alone; x gets a pointee that it does not have in the least
      solution, and of the conditions for an exact result just that on such pointers does not hold. */
  method RunWithIntegers() returns (m: PtsGraph)
    ensures At(m, X) == {W, Z} && At(FieldLeast(Ly, Ints.cs, Ints.root), X) == {W}
    ensures OnCycles(Ly, Ints.cs, Ints.root, Ints.hcd) && PointeesEqual(Ly, Ints.hcd, FieldLeast(Ly, Ints.cs, Ints.root))
    ensures !IntEdges(Ly, Ints, FieldLeast(Ly, Ints.cs, Ints.root), Ints.root)
  {
    IntsAreOk();
    PIsOnCycle();
    LeastHasNot();
    var cs, root, hcd := Ints.cs, Ints.root, Ints.hcd;
    assert Ints == Task(cs, root, hcd) && |root| == |Ly.sz|;
    hide *;
    var solver := new Anders(Ly, root, hcd);
    solver.Solve(cs);
    m := Meaning(solver.V());
    EdgeIsAdded(solver.root, m);
  }

  // ----- x = &u; y = &w; u = &a; w = &a; p = *x; q = *y; h1 = *p; *p = h1; h2 = *q; *q = h2 -----

  const X1: nat := 2
  const Y1: nat := 3
  const P1: nat := 4
  const P2: nat := 5
  const H1: nat := 6
  const H2: nat := 7
  const U: nat := 8
  const A: nat := 9
  const V: nat := 10
  const Ly2: Layout := Layout([0, 1, 0, 0, 0, 0, 0, 0, 1, 1, 1], 1)
  const Setup: seq<FieldConstraint> := [
    Cons(FieldType.AddrOf, X1, U, 0), Cons(FieldType.AddrOf, Y1, V, 0), Cons(FieldType.AddrOf, U, A, 0), Cons(FieldType.AddrOf, V, A, 0),
    Cons(FieldType.Load, P1, X1, 0), Cons(FieldType.Load, P2, Y1, 0)]
  const Cycles: seq<FieldConstraint> := [
    Cons(FieldType.Load, H1, P1, 0), Cons(FieldType.Store, P1, H1, 0), Cons(FieldType.Load, H2, P2, 0), Cons(FieldType.Store, P2, H2, 0)]
  const Aliases: Task := Task(Setup + Cycles, [0, 1, 2, 3, 4, 5, 6, 7, 8, 9, 10], map[P1 := H1, P2 := H2])
  const Both: PtsGraph := map[X1 := {U}, Y1 := {V}, U := {A}, V := {A}, P1 := {A}, P2 := {A}]
  const Other: PtsGraph := map[X1 := {U}, Y1 := {V}, U := {A}, V := {A, V}, P1 := {A}, P2 := {A, V}, A := {A, V}, H1 := {A, V}, H2 := {A, V}]

  lemma AliasesInRange()
    ensures LayoutOk(Ly2) && FieldInRange(Ly2, Aliases.cs) && IsRep(Aliases.root) && |Aliases.root| == |Ly2.sz|
  {
    hide Setup, Cycles;
    assert FieldInRange(Ly2, Setup) && FieldInRange(Ly2, Cycles) by {
      PartsInRange();
    }
  }

  lemma PartsInRange()
    ensures FieldInRange(Ly2, Setup) && FieldInRange(Ly2, Cycles) && NamesNoI2p(Ly2, Setup) && NamesNoI2p(Ly2, Cycles)
    ensures NoNull(Setup) && NoNull(Cycles)
  {
  }

  lemma AliasesNameNodes()
    ensures NamesNoI2p(Ly2, Aliases.cs) && NoNull(Aliases.cs)
  {
    PartsInRange();
    hide Setup, Cycles;
  }

  lemma BothSolves()
    ensures FieldSolution(Ly2, Both, Aliases.cs, Aliases.root)
  {
    BothSetup();
    BothCycles();
    hide Setup, Cycles, FieldHolds;
  }

  lemma BothSetup()
    ensures forall c | c in Setup :: FieldHolds(Ly2, Both, c)
  {
  }

  lemma BothCycles()
    ensures forall c | c in Cycles :: FieldHolds(Ly2, Both, c)
  {
  }

  /** In this solution the two pointers differ. */
  lemma OtherSolves()
    ensures FieldSolution(Ly2, Other, Aliases.cs, Aliases.root)
  {
    OtherSetup();
    OtherCycles();
    hide Setup, Cycles, FieldHolds;
  }

  lemma OtherSetup()
    ensures forall c | c in Setup :: FieldHolds(Ly2, Other, c)
  {
  }

  lemma OtherCycles()
    ensures forall c | c in Cycles :: FieldHolds(Ly2, Other, c)
  {
  }

  lemma AliasesPoint(q: PtsGraph)
    requires FieldSolution(Ly2, q, Aliases.cs, Aliases.root)
    ensures A in At(q, P1) && A in At(q, P2)
  {
    assert FieldHolds(Ly2, q, Aliases.cs[0]) && FieldHolds(Ly2, q, Aliases.cs[1]);
    assert FieldHolds(Ly2, q, Aliases.cs[2]) && FieldHolds(Ly2, q, Aliases.cs[3]);
    assert FieldHolds(Ly2, q, Aliases.cs[4]) && FieldHolds(Ly2, q, Aliases.cs[5]);
    assert Fits(Ly2, U, 0) && Fits(Ly2, V, 0) && U + 0 == U && V + 0 == V;
  }

  lemma AliasesOnCycles()
    ensures OnCycles(Ly2, Aliases.cs, Aliases.root, Aliases.hcd)
  {
    TwoEdges(Aliases.cs, H1, P1, Aliases.cs[6], Aliases.cs[7]);
    TwoEdges(Aliases.cs, H2, P2, Aliases.cs[8], Aliases.cs[9]);
  }

  lemma AliasesMeet(q: PtsGraph)
    requires A in At(q, P1) && A in At(q, P2)
    ensures StoresMeet(Ly2, Aliases.cs, q)
  {
    forall m | StoredThrough(Aliases.cs, m) ensures A in At(q, m) {
    }
    assert IsObject(Ly2, A) && A != Ly2.i2p;
  }

  lemma LeastAliases()
    ensures var l := FieldLeast(Ly2, Aliases.cs, Aliases.root); At(l, P1) == At(l, P2) == {A} && StoresMeet(Ly2, Aliases.cs, l)
  {
    BothSolves();
    AliasesInRange();
    hide *;
    var l := FieldLeast(Ly2, Aliases.cs, Aliases.root);
    FieldLeastIsSolution(Ly2, Aliases.cs, Aliases.root);
    FieldLeastIsLeast(Ly2, Aliases.cs, Aliases.root, Both);
    AliasesPoint(l);
    AliasesMeet(l);
    OnlyA(l);
  }

  lemma OnlyA(l: PtsGraph)
    requires Below(l, Both) && A in At(l, P1) && A in At(l, P2)
    ensures At(l, P1) == At(l, P2) == {A}
  {
    assert At(l, P1) <= At(Both, P1) && At(l, P2) <= At(Both, P2);
  }

  lemma AliasesAreOk()
    ensures Sizes(Ly2, Blank(Aliases.root, Aliases.hcd)) && TaskOk(Ly2, Aliases) && Steady(Ly2, Aliases, FieldLeast(Ly2, Aliases.cs, Aliases.root))
  {
    AliasesInRange();
    AliasesOnCycles();
    LeastAliases();
    OtherSolves();
    AliasesNameNodes();
    hide Setup, Cycles, NamesNoI2p, NoNull, LayoutOk, FieldInRange, OnCycles, FieldSolution, TaskOk, Steady, FieldLeast, StoresMeet;
    assert At(Other, P1) != At(Other, P2);
    CyclesAreOk(Ly2, Aliases);
  }

  /** Here p and q have one set, and different targets, which are never merged: in another solution the two pointers differ.
      The run ends with the least solution. */
  method RunWithAliases() returns (m: PtsGraph)
    ensures Same(m, FieldLeast(Ly2, Aliases.cs, Aliases.root)) && At(m, P1) == At(m, P2) == {A}
    ensures OnCycles(Ly2, Aliases.cs, Aliases.root, Aliases.hcd) && Aliases.hcd[P1] != Aliases.hcd[P2]
  {
    AliasesAreOk();
    AliasesOnCycles();
    LeastAliases();
    var cs, root, hcd := Aliases.cs, Aliases.root, Aliases.hcd;
    assert Aliases == Task(cs, root, hcd) && |root| == |Ly2.sz| && hcd[P1] != hcd[P2];
    hide *;
    var solver := new Anders(Ly2, root, hcd);
    solver.Solve(cs);
    m := Meaning(solver.V());
    ExactBetween(Ly2, Aliases, solver.root, m);
    SameAt(m, FieldLeast(Ly2, Aliases.cs, Aliases.root));
  }

  lemma SameAt(p: PtsGraph, q: PtsGraph)
    requires Same(p, q)
    ensures forall n: nat :: At(p, n) == At(q, n)
  {
    hide At;
  }
}
