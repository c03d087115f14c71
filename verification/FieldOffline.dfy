/** Why the map from pointers to variables that is searched before the run meets what the run asks of it. */
module FieldOffline {
  import opened Constraints
  import opened OfflineFlows
  import opened FieldConstraints
  import opened FieldStates
  import opened FieldTasks
  import opened FieldResults

  /** One constraint moves values from x to y; loads and stores with an offset are not looked at. */
  ghost predicate FieldGoes(cs: seq<FieldConstraint>, x: Place, y: Place) {
    match (x, y)
    case (Var(s), Var(d)) => exists off: nat :: Cons(FieldType.Copy, d, s, off) in cs
    case (Deref(p), Var(d)) => Cons(FieldType.Load, d, p, 0) in cs
    case (Var(s), Deref(p)) => Cons(FieldType.Store, p, s, 0) in cs
    case (Deref(_), Deref(_)) => false
  }

  ghost predicate IsFieldWay(cs: seq<FieldConstraint>, w: seq<Place>) {
    w != [] && forall i | 0 <= i < |w| - 1 :: FieldGoes(cs, w[i], w[i + 1])
  }

  ghost predicate FieldWay(cs: seq<FieldConstraint>, x: Place, y: Place) {
    exists w :: IsFieldWay(cs, w) && w[0] == x && w[|w| - 1] == y
  }

  /** Everything in s is in the points-to set that x stands for, or in all of them. */
  ghost predicate Holding(ly: Layout, q: PtsGraph, x: Place, s: set<nat>) {
    match x
    case Var(n) => s <= At(q, n)
    case Deref(n) => forall o | o in At(q, n) && IsObject(ly, o) && o != ly.i2p :: s <= At(q, o)
  }

  /** Some constraint stores through m without an offset. */
  ghost predicate StoredThrough(cs: seq<FieldConstraint>, m: nat) {
    exists c :: c in cs && c.ty.Store? && c.off == 0 && c.dest == m
  }

  /** Constraints other than addresses do not name i2p. */
  predicate NamesNoI2p(ly: Layout, cs: seq<FieldConstraint>) {
    forall c | c in cs :: c.dest != ly.i2p && (c.ty.AddrOf? || c.src != ly.i2p)
  }

  /** Every pointer that is stored through points to an object, not to i2p alone. */
  ghost predicate StoresMeet(ly: Layout, cs: seq<FieldConstraint>, q: PtsGraph) {
    forall m | StoredThrough(cs, m) :: MeetsObject(ly, At(q, m))
  }

  /** What the source of a constraint holds its destination holds. */
  lemma HeldAlong(ly: Layout, cs: seq<FieldConstraint>, q: PtsGraph, x: Place, y: Place, s: set<nat>)
    requires (forall c | c in cs :: FieldHolds(ly, q, c)) && NamesNoI2p(ly, cs) && FieldGoes(cs, x, y)
    requires Holding(ly, q, x, s) && (x.Deref? ==> MeetsObject(ly, At(q, x.n)))
    ensures Holding(ly, q, y, s)
  {
    if y.Deref? {
      var c := Cons(FieldType.Store, y.n, x.n, 0);
      assert FieldHolds(ly, q, c) && c.dest != ly.i2p && c.src != ly.i2p;
      forall o | o in At(q, y.n) && IsObject(ly, o) && o != ly.i2p ensures s <= At(q, o) {
        assert Fits(ly, o, 0) && o + 0 == o;
      }
    } else if x.Deref? {
      var c := Cons(FieldType.Load, y.n, x.n, 0);
      assert FieldHolds(ly, q, c) && c.dest != ly.i2p && c.src != ly.i2p;
      var o :| o in At(q, x.n) && IsObject(ly, o) && o != ly.i2p;
      assert Fits(ly, o, 0) && o + 0 == o;
    } else {
      var off: nat :| Cons(FieldType.Copy, y.n, x.n, off) in cs;
      assert FieldHolds(ly, q, Cons(FieldType.Copy, y.n, x.n, off));
    }
  }

  /** Only stores lead to what a pointer points to. */
  lemma OnlyStores(cs: seq<FieldConstraint>, x: Place, y: Place)
    requires FieldGoes(cs, x, y) && y.Deref?
    ensures StoredThrough(cs, y.n)
  {
    assert Cons(FieldType.Store, y.n, x.n, 0) in cs;
  }

  lemma {:induction false} HeldAtEnd(ly: Layout, cs: seq<FieldConstraint>, q: PtsGraph, w: seq<Place>, s: set<nat>)
    requires (forall c | c in cs :: FieldHolds(ly, q, c)) && NamesNoI2p(ly, cs) && StoresMeet(ly, cs, q) && IsFieldWay(cs, w)
    requires Holding(ly, q, w[0], s) && (w[0].Deref? ==> MeetsObject(ly, At(q, w[0].n)))
    ensures Holding(ly, q, w[|w| - 1], s)
    decreases |w|
  {
    if |w| > 1 {
      var r, i := w[..|w| - 1], |w| - 2;
      assert FieldGoes(cs, w[i], w[i + 1]);
      assert i > 0 ==> FieldGoes(cs, w[i - 1], w[i - 1 + 1]);
      assert IsFieldWay(cs, r);
      hide IsFieldWay, FieldHolds, FieldGoes, MeetsObject, Holding, At, StoredThrough, NamesNoI2p;
      HeldAtEnd(ly, cs, q, r, s);
      if i > 0 && w[i].Deref? {
        OnlyStores(cs, w[i - 1], w[i]);
      }
      HeldAlong(ly, cs, q, w[i], w[i + 1], s);
    }
  }

  /** What a pointer points to holds what the variable holds that values flow from. */
  lemma PointeesHold(ly: Layout, cs: seq<FieldConstraint>, q: PtsGraph, n: nat, h: nat)
    requires (forall c | c in cs :: FieldHolds(ly, q, c)) && NamesNoI2p(ly, cs) && StoresMeet(ly, cs, q) && FieldWay(cs, Var(h), Deref(n))
    ensures MeetsObject(ly, At(q, n)) && StoredThrough(cs, n)
    ensures forall o | o in At(q, n) && IsObject(ly, o) && o != ly.i2p :: At(q, h) <= At(q, o)
  {
    var w: seq<Place> :| IsFieldWay(cs, w) && w[0] == Var(h) && w[|w| - 1] == Deref(n);
    assert FieldGoes(cs, w[|w| - 2], w[|w| - 2 + 1]);
    OnlyStores(cs, w[|w| - 2], w[|w| - 1]);
    hide FieldHolds, FieldGoes, NamesNoI2p, MeetsObject;
    HeldAtEnd(ly, cs, q, w, At(q, h));
  }

  /** And the variable that values flow to holds what the pointees hold. */
  lemma VariableHolds(ly: Layout, cs: seq<FieldConstraint>, q: PtsGraph, n: nat, h: nat, o: nat)
    requires (forall c | c in cs :: FieldHolds(ly, q, c)) && NamesNoI2p(ly, cs) && StoresMeet(ly, cs, q) && FieldWay(cs, Deref(n), Var(h))
    requires o in At(q, n) && IsObject(ly, o) && o != ly.i2p
    ensures At(q, o) <= At(q, h)
  {
    var w: seq<Place> :| IsFieldWay(cs, w) && w[0] == Deref(n) && w[|w| - 1] == Var(h);
    var c := Cons(FieldType.Load, w[1].n, n, 0);
    assert FieldGoes(cs, w[0], w[0 + 1]);
    assert w[1].Var? && c in cs && FieldHolds(ly, q, c) && c.dest != ly.i2p && Fits(ly, o, 0) && o + 0 == o;
    var r := w[1..];
    forall i | 0 <= i < |r| - 1 ensures FieldGoes(cs, r[i], r[i + 1]) {
      assert FieldGoes(cs, w[i + 1], w[i + 1 + 1]);
    }
    hide FieldHolds, FieldGoes, MeetsObject, NamesNoI2p;
    HeldAtEnd(ly, cs, q, r, At(q, o));
  }

  function Objects(ly: Layout, s: set<nat>): set<nat> {
    set o | o in s && IsObject(ly, o)
  }

  lemma ObjectsHold(ly: Layout, l: PtsGraph, q: PtsGraph, c: FieldConstraint)
    requires LayoutOk(ly) && CanEnter(ly, c) && FieldHolds(ly, l, c) && forall m: nat :: At(q, m) == Objects(ly, At(l, m))
    ensures FieldHolds(ly, q, c)
  {
    hide At;
    match c.ty
    case Gep =>
      forall o | o in At(q, c.src) && Fits(ly, o, c.off) ensures o + c.off in At(q, c.dest) {
        assert o in At(l, c.src);
      }
    case _ =>
  }

  /** In the least solution every pointee is an object. */
  lemma LeastPointsToObjects(ly: Layout, cs: seq<FieldConstraint>, rep: seq<nat>)
    requires LayoutOk(ly) && FieldInRange(ly, cs) && |rep| == |ly.sz| && IsRep(rep)
    ensures forall n: nat, o | o in At(FieldLeast(ly, cs, rep), n) :: IsObject(ly, o)
  {
    var l := FieldLeast(ly, cs, rep);
    FieldLeastIsSolution(ly, cs, rep);
    hide FieldLeast;
    var q: PtsGraph := map m | m in l :: Objects(ly, l[m]);
    assert forall m: nat :: At(q, m) == Objects(ly, At(l, m));
    forall m: nat | m < |rep| ensures At(q, m) == At(q, rep[m]) {
      assert At(l, m) == At(l, rep[m]);
    }
    hide LayoutOk;
    forall c | c in cs ensures FieldHolds(ly, q, c) {
      assert FieldHolds(ly, l, c) && CanEnter(ly, c);
      ObjectsHold(ly, l, q, c);
    }
    FieldLeastIsLeast(ly, cs, rep, q);
    forall n: nat, o | o in At(l, n) ensures IsObject(ly, o) {
      assert o in At(q, n);
    }
  }

  /** The map: values flow from what each pointer points to, to the node that the pointer is mapped to, and back. */
  ghost predicate OnCycles(ly: Layout, cs: seq<FieldConstraint>, root: seq<nat>, hcd: map<nat, nat>) {
    forall n | n in hcd :: n < |ly.sz| && Find(root, n) == n && FieldWay(cs, Deref(n), Var(hcd[n])) && FieldWay(cs, Var(hcd[n]), Deref(n))
  }

  /** In every solution. */
  ghost predicate EqualInSolutions(ly: Layout, cs: seq<FieldConstraint>, root: seq<nat>, n: nat, m: nat) {
    forall q: PtsGraph | FieldSolution(ly, q, cs, root) :: At(q, n) == At(q, m)
  }

  /** So the run may collapse what those pointers point to, and ends with the least solution, if every pointer that is
      stored through points to an object in the least solution, and pointers that are equal in every solution have
      one target.  That they are equal in the least solution alone is harmless: they are never merged then. */
  lemma CyclesAreOk(ly: Layout, t: Task)
    requires LayoutOk(ly) && FieldInRange(ly, t.cs) && NamesNoI2p(ly, t.cs) && NoNull(t.cs) && |t.root| == |ly.sz| && IsRep(t.root)
    requires OnCycles(ly, t.cs, t.root, t.hcd) && TargetsOk(ly, t.hcd) && StoresMeet(ly, t.cs, FieldLeast(ly, t.cs, t.root))
    requires forall n, m | n in t.hcd && m in t.hcd && EqualInSolutions(ly, t.cs, t.root, n, m) :: Find(t.root, t.hcd[n]) == Find(t.root, t.hcd[m])
    ensures TaskOk(ly, t) && forall q: PtsGraph | FieldSolution(ly, q, t.cs, t.root) :: Steady(ly, t, q)
    ensures Steady(ly, t, FieldLeast(ly, t.cs, t.root))
  {
    FieldLeastIsSolution(ly, t.cs, t.root);
    hide FieldLeast, LayoutOk, StoresMeet, FieldWay, FieldInRange, NamesNoI2p, FieldHolds, Find, At, Steady, FieldSolution, OnCycles;
    forall q: PtsGraph | FieldSolution(ly, q, t.cs, t.root) ensures Steady(ly, t, q) {
      FieldLeastIsLeast(ly, t.cs, t.root, q);
      StoresMeetAbove(ly, t.cs, FieldLeast(ly, t.cs, t.root), q);
      SolutionIsSteady(ly, t, q);
    }
    forall n | n in t.hcd ensures Used(t.cs, t.root, n) && Find(t.root, n) == n {
      CycleIsUsed(ly, t, FieldLeast(ly, t.cs, t.root), n);
    }
    forall n, m | n in t.hcd && m in t.hcd && EqualInAll(ly, t, n, m) ensures EqualInSolutions(ly, t.cs, t.root, n, m) {
    }
  }

  /** The run is exact then. */
  lemma CyclesAreExact(ly: Layout, t: Task, r: seq<nat>, m: PtsGraph)
    requires LayoutOk(ly) && FieldInRange(ly, t.cs) && NamesNoI2p(ly, t.cs) && NoNull(t.cs) && |t.root| == |ly.sz| && IsRep(t.root)
    requires OnCycles(ly, t.cs, t.root, t.hcd) && TargetsOk(ly, t.hcd) && StoresMeet(ly, t.cs, FieldLeast(ly, t.cs, t.root))
    requires forall n, m | n in t.hcd && m in t.hcd && EqualInSolutions(ly, t.cs, t.root, n, m) :: Find(t.root, t.hcd[n]) == Find(t.root, t.hcd[m])
    requires Solved(ly, t, r, m)
    ensures Same(m, FieldLeast(ly, t.cs, t.root))
  {
    CyclesAreOk(ly, t);
    hide Solved, Steady, TaskOk, FieldLeast;
    ExactBetween(ly, t, r, m);
  }

  lemma StoresMeetAbove(ly: Layout, cs: seq<FieldConstraint>, p: PtsGraph, q: PtsGraph)
    requires Below(p, q) && StoresMeet(ly, cs, p)
    ensures StoresMeet(ly, cs, q)
  {
    hide At, StoredThrough;
    forall m | StoredThrough(cs, m) ensures MeetsObject(ly, At(q, m)) {
      var o :| o in At(p, m) && IsObject(ly, o) && o != ly.i2p;
      assert At(p, m) <= At(q, m);
    }
  }

  lemma CycleIsUsed(ly: Layout, t: Task, q: PtsGraph, n: nat)
    requires FieldSolution(ly, q, t.cs, t.root) && NamesNoI2p(ly, t.cs) && FieldInRange(ly, t.cs) && StoresMeet(ly, t.cs, q)
    requires OnCycles(ly, t.cs, t.root, t.hcd) && TargetsOk(ly, t.hcd) && n in t.hcd
    ensures Used(t.cs, t.root, n) && Find(t.root, n) == n
  {
    hide NamesNoI2p, FieldInRange, StoresMeet, FieldHolds, FieldWay, Find, At, MeetsObject, Used, Respects;
    PointeesHold(ly, t.cs, q, n, t.hcd[n]);
    UsedByStore(t.cs, t.root, n);
  }

  /** A solution in which stores meet objects has all that collapsing asks for. */
  lemma SolutionIsSteady(ly: Layout, t: Task, q: PtsGraph)
    requires FieldSolution(ly, q, t.cs, t.root) && NamesNoI2p(ly, t.cs) && FieldInRange(ly, t.cs) && StoresMeet(ly, t.cs, q)
    requires OnCycles(ly, t.cs, t.root, t.hcd) && TargetsOk(ly, t.hcd)
    ensures Steady(ly, t, q)
  {
    hide NamesNoI2p, FieldInRange, StoresMeet, FieldHolds, FieldWay, Find, At, MeetsObject, EdgeHolds, Respects;
    forall n | n in t.hcd
      ensures MeetsObject(ly, At(q, n)) && forall o | o in At(q, n) && IsObject(ly, o) && o != ly.i2p :: At(q, o) == At(q, t.hcd[n])
    {
      PointeesHold(ly, t.cs, q, n, t.hcd[n]);
      forall o | o in At(q, n) && IsObject(ly, o) && o != ly.i2p ensures At(q, o) == At(q, t.hcd[n]) {
        VariableHolds(ly, t.cs, q, n, t.hcd[n], o);
      }
    }
  }

  lemma UsedByStore(cs: seq<FieldConstraint>, root: seq<nat>, n: nat)
    requires StoredThrough(cs, n) && Find(root, n) == n
    ensures Used(cs, root, n)
  {
    var c :| c in cs && c.ty.Store? && c.off == 0 && c.dest == n;
    var j :| 0 <= j < |cs| && cs[j] == c;
  }
}
