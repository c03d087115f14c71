/** What the universal object holds, and what the store adds that is to make it point to itself. */
module UniversalObject {
  import opened Constraints
  import opened Programs
  import opened ConstraintCollect
  import opened Collectors

  function UniversalStore(): Constraint {
    Constraint(ConstraintType.Store, UNIVERSAL_OBJ, UNIVERSAL_OBJ)
  }

  /** less is the list without the store. */
  ghost predicate IsWithout(cs: seq<Constraint>, less: seq<Constraint>) {
    forall c :: c in less <==> c in cs && c != UniversalStore()
  }

  /** The store changes no points-to set exactly if it holds without being listed, and the universal
      object is empty exactly if it is empty without the store, which then changes nothing. */
  lemma StoreAdds(cs: seq<Constraint>, less: seq<Constraint>, size: nat)
    requires InRange(cs, size) && IsWithout(cs, less) && UniversalStore() in cs
    ensures var l, k := Least(cs, Identity(size)), Least(less, Identity(size));
      && ((forall n: nat :: At(l, n) == At(k, n)) <==> Holds(k, UniversalStore()))
      && (At(l, UNIVERSAL_OBJ) == {} <==> At(k, UNIVERSAL_OBJ) == {})
      && (At(l, UNIVERSAL_OBJ) == {} ==> forall n: nat :: At(l, n) == At(k, n))
  {
    var id, l, k := Identity(size), Least(cs, Identity(size)), Least(less, Identity(size));
    assert InRange(less, size);
    LeastIsSolution(cs, id);
    LeastIsSolution(less, id);
    LeastIsLeast(less, id, l);
    hide Least;
    if Holds(k, UniversalStore()) {
      forall c | c in cs ensures Holds(k, c) {
        assert c in less || c == UniversalStore();
      }
      LeastIsLeast(cs, id, k);
    }
  }

  /** What the check on a program amounts to: nothing reads node 0, and node 1 is its pointee only. */
  predicate NeverRead(cs: seq<Constraint>) {
    forall c | c in cs :: c.src != UNIVERSAL_PTR && (c.src == UNIVERSAL_OBJ && c.ty.AddrOf? ==> c.dest == UNIVERSAL_PTR)
  }

  lemma NeverReadIsEmpty(cs: seq<Constraint>, size: nat)
    requires InRange(cs, size) && SpecialOnly(cs) && NeverRead(cs)
    ensures At(Least(cs, Identity(size)), UNIVERSAL_OBJ) == {}
  {
    var id, l := Identity(size), Least(cs, Identity(size));
    var q := map n | n in l :: if n == UNIVERSAL_PTR then {UNIVERSAL_OBJ} else if n == UNIVERSAL_OBJ then {} else l[n] - {UNIVERSAL_OBJ};
    LeastIsSolution(cs, id);
    forall n: nat ensures UNIVERSAL_PTR !in At(l, n) {
      LeastPointsToTaken(cs, id, n);
    }
    hide Least;
    assert forall n: nat | n > 1 :: At(q, n) == At(l, n) - {UNIVERSAL_OBJ};
    assert At(q, UNIVERSAL_OBJ) == {};
    forall c | c in cs ensures Holds(q, c) {
      assert Holds(l, c);
      if c.ty.AddrOf? {
        assert c.src in At(l, c.dest);
      } else if c.dest == UNIVERSAL_OBJ {
        assert c == UniversalStore();
      } else {
        assert c.dest > 1 && (c.src > 1 || At(q, c.src) == {});
      }
    }
    LeastIsLeast(cs, id, q);
  }

  /** The universal object of a program that passes a pointer for every pointer parameter is empty,
      and the store has no effect. */
  lemma UniversalObjectIsEmpty(m: Module, t: Tables, cs: seq<Constraint>, less: seq<Constraint>, size: nat)
    requires ModuleOk(m) && Complete(m, t, size) && (forall c :: c in cs <==> Emits(m, t, c)) && IsWithout(cs, less)
    requires !PassesInt(m)
    ensures At(Least(cs, Identity(size)), UNIVERSAL_OBJ) == {}
    ensures forall n: nat :: At(Least(cs, Identity(size)), n) == At(Least(less, Identity(size)), n)
  {
    forall c | c in cs
      ensures c.dest < size && c.src < size && c.src != 0 && (c.src == 1 && c.ty.AddrOf? ==> c.dest == 0)
      ensures c.dest < 2 ==> c.src == 1 && c.dest == (if c.ty.AddrOf? then 0 else 1) && !c.ty.Copy? && !c.ty.Load?
    {
      EmitsInRange(m, t, size, c);
    }
    assert Emits(m, t, UniversalStore());
    hide Emits, Complete, Least;
    NeverReadIsEmpty(cs, size);
    StoreAdds(cs, less, size);
  }

  // ----- A program that stores through an integer -----

  /** void f(p) { a = alloca; *p = a; } and a call f(integer). */
  function StoresThroughInt(): Module {
    Module([], [
      Function([true], false, false, [Alloca, Inst.Store(Reg(0), Arg(0)), Ret(None)]),
      Function([], false, false, [Call(0, [IntActual], false)])
    ])
  }

  lemma StoresThroughIntOk(m: Module)
    requires m == StoresThroughInt()
    ensures ModuleOk(m) && m.globals == []
    ensures forall f: nat, i: nat :: IsInst(m, f, i) <==> (f == 0 && i < 3) || (f == 1 && i == 0)
  {
    assert forall h | h in m.functions :: h == m.functions[0] || h == m.functions[1];
  }

  lemma StoresThroughIntCons(m: Module, t: Tables)
    requires m == StoresThroughInt() && ModuleOk(m) && IsInst(m, 0, 0) && IsInst(m, 0, 1) && IsInst(m, 0, 2) && IsInst(m, 1, 0)
    ensures var a, p, o := ValueNode(t, InstV(0, 0)), ValueNode(t, ArgV(0, 0)), ObjectNode(t, AllocaSite(0, 0));
      && InstCons(m, t, 0, 0, InstAt(m, 0, 0)) == [Constraint(AddrOf, a, o)]
      && InstCons(m, t, 0, 1, InstAt(m, 0, 1)) == [Constraint(ConstraintType.Store, p, a)]
      && InstCons(m, t, 0, 2, InstAt(m, 0, 2)) == []
      && InstCons(m, t, 1, 0, InstAt(m, 1, 0)) == [Constraint(Copy, p, UNIVERSAL_PTR)]
  {
    var p := ValueNode(t, ArgV(0, 0));
    assert ArgCons(m, t, 1, 0, [IntActual], 0) == [Constraint(Copy, p, UNIVERSAL_PTR)];
    assert ArgsCons(m, t, 1, 0, [IntActual], 0) == [];
  }

  predicate IsOneOf(c: Constraint, a: nat, p: nat, o: nat) {
    || c == Constraint(AddrOf, UNIVERSAL_PTR, UNIVERSAL_OBJ) || c == Constraint(AddrOf, NULL_PTR, NULL_OBJ)
    || c == Constraint(AddrOf, a, o) || c == Constraint(ConstraintType.Store, p, a) || c == Constraint(Copy, p, UNIVERSAL_PTR)
  }

  /** Its constraints: a = &object, *p = a and p = universal pointer, besides the special ones. */
  lemma StoresThroughIntEmits(m: Module, t: Tables, c: Constraint)
    requires m == StoresThroughInt()
    ensures ModuleOk(m)
    ensures var a, p, o := ValueNode(t, InstV(0, 0)), ValueNode(t, ArgV(0, 0)), ObjectNode(t, AllocaSite(0, 0));
      Emits(m, t, c) <==> c == UniversalStore() || IsOneOf(c, a, p, o)
  {
    StoresThroughIntOk(m);
    assert IsInst(m, 0, 0) && IsInst(m, 0, 1) && IsInst(m, 0, 2) && IsInst(m, 1, 0);
    StoresThroughIntCons(m, t);
    hide InstCons, StoresThroughInt, ModuleOk, ValueNode, ObjectNode, GlobalEmits, GlobalCon;
    if f: nat, i: nat :| IsInst(m, f, i) && c in InstCons(m, t, f, i, InstAt(m, f, i)) {
      assert (f == 0 && i < 3) || (f == 1 && i == 0);
      assert f == 0 ==> i == 0 || i == 1 || i == 2;
    }
  }

  lemma StoresThroughIntNodes(m: Module, t: Tables, size: nat)
    requires m == StoresThroughInt() && Complete(m, t, size)
    ensures var a, p, o := ValueNode(t, InstV(0, 0)), ValueNode(t, ArgV(0, 0)), ObjectNode(t, AllocaSite(0, 0));
      4 <= a && 4 <= p && 4 <= o && a != p && a != o && p != o
  {
    var a, p, o := ValueKey(InstV(0, 0)), ValueKey(ArgV(0, 0)), ObjectKey(AllocaSite(0, 0));
    assert Ready(m, t, 0) && IsInst(m, 0, 0);
    assert InstKey(m, a) && FunctionKey(m, p) && AllocaKey(m, o);
    assert Has(t, a) && Has(t, p) && Has(t, o);
    assert NodeOf(t, a) != NodeOf(t, p) && NodeOf(t, a) != NodeOf(t, o) && NodeOf(t, p) != NodeOf(t, o);
  }

  lemma WithStore(l: PtsGraph, a: nat, p: nat, o: nat)
    requires Holds(l, UniversalStore()) && forall c | IsOneOf(c, a, p, o) :: Holds(l, c)
    ensures o in At(l, UNIVERSAL_OBJ) && o in At(l, o)
  {
    assert Holds(l, Constraint(Copy, p, UNIVERSAL_PTR)) && Holds(l, Constraint(AddrOf, UNIVERSAL_PTR, UNIVERSAL_OBJ));
    assert Holds(l, Constraint(AddrOf, a, o)) && Holds(l, Constraint(ConstraintType.Store, p, a));
    hide IsOneOf;
  }

  lemma WithoutStore(less: seq<Constraint>, size: nat, a: nat, p: nat, o: nat)
    requires forall c | c in less :: IsOneOf(c, a, p, o)
    requires 4 <= a && 4 <= p && 4 <= o && a != p && a != o && p != o
    ensures At(Least(less, Identity(size)), o) == {}
  {
    var q: PtsGraph := map[UNIVERSAL_PTR := {UNIVERSAL_OBJ}, UNIVERSAL_OBJ := {o}, NULL_PTR := {NULL_OBJ}, a := {o}, p := {UNIVERSAL_OBJ}];
    assert At(q, o) == {};
    hide Least;
    LeastIsLeast(less, Identity(size), q);
  }

  /** Here the store does add something: the object of a is stored in the universal object, and
      points to itself only because of the store. */
  lemma StoreMatters(m: Module, t: Tables, cs: seq<Constraint>, less: seq<Constraint>, size: nat)
    requires m == StoresThroughInt() && Complete(m, t, size) && IsWithout(cs, less)
    requires ModuleOk(m) && forall c :: c in cs <==> Emits(m, t, c)
    ensures var l, k, o := Least(cs, Identity(size)), Least(less, Identity(size)), ObjectNode(t, AllocaSite(0, 0));
      PassesInt(m) && o in At(l, UNIVERSAL_OBJ) && o in At(l, o) && At(k, o) == {}
  {
    var a, p, o := ValueNode(t, InstV(0, 0)), ValueNode(t, ArgV(0, 0)), ObjectNode(t, AllocaSite(0, 0));
    assert PassesInt(m) by {
      assert IsInst(m, 1, 0) && IntForPtr(m, 0, [IntActual], 0);
    }
    StoresThroughIntNodes(m, t, size);
    hide Emits, Complete, Least, StoresThroughInt, PassesInt, IsOneOf, ModuleOk, ValueNode, ObjectNode, Holds, At;
    forall c | c in cs ensures c.dest < size && c.src < size {
      EmitsInRange(m, t, size, c);
    }
    forall c ensures c in cs <==> c == UniversalStore() || IsOneOf(c, a, p, o) {
      StoresThroughIntEmits(m, t, c);
    }
    LeastIsSolution(cs, Identity(size));
    WithStore(Least(cs, Identity(size)), a, p, o);
    WithoutStore(less, size, a, p, o);
  }
}
