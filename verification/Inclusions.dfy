/** What a program asks of a points-to graph, written out instruction by instruction.

    Nodes 0 and 1 are the universal pointer and object, 2 and 3 the null pointer and object.
 */
module Inclusions {
  import opened Constraints
  import opened Programs
  import opened ConstraintCollect

  /** The global that a constant points into, if it is not null. */
  function Into(c: Const): Option<nat> {
    match c
    case GlobalAddr(g) => Some(g)
    case NullConst => None
    case GepOf(d) => Into(d)
    case CastOf(d) => Into(d)
  }

  /** What an operand of an instruction of function f points to. */
  function PtsOf(t: Tables, p: PtsGraph, f: nat, op: Operand): set<nat> {
    match op
    case Reg(i) => At(p, ValueNode(t, InstV(f, i)))
    case Arg(i) => At(p, ValueNode(t, ArgV(f, i)))
    case Imm(c) => if Into(c).Some? then At(p, ValueNode(t, GlobalV(Into(c).value))) else At(p, 2)
  }

  /** Argument k is passed to its parameter or to the variable arguments; an integer for a pointer may point anywhere. */
  ghost predicate ArgMeant(m: Module, t: Tables, p: PtsGraph, f: nat, callee: nat, actuals: seq<Actual>, k: nat)
    requires callee < |m.functions| && k < |actuals|
  {
    var fun, a := m.functions[callee], actuals[k];
    && (k < |fun.formals| && fun.formals[k] && a.PtrActual? ==> PtsOf(t, p, f, a.op) <= At(p, ValueNode(t, ArgV(callee, k))))
    && (k < |fun.formals| && fun.formals[k] && a.IntActual? ==> At(p, 0) <= At(p, ValueNode(t, ArgV(callee, k))))
    && (|fun.formals| <= k && fun.isVarArg && a.PtrActual? ==> PtsOf(t, p, f, a.op) <= At(p, VarargNode(t, callee)))
  }

  ghost predicate InstMeant(m: Module, t: Tables, p: PtsGraph, f: nat, i: nat, inst: Inst)
    requires inst.Call? ==> inst.callee < |m.functions|
  {
    var dst := At(p, ValueNode(t, InstV(f, i)));
    match inst
    case Alloca => ObjectNode(t, AllocaSite(f, i)) in dst
    case Load(q) => forall o | o in PtsOf(t, p, f, q) :: At(p, o) <= dst
    case Store(v, q) => forall o | o in PtsOf(t, p, f, q) :: PtsOf(t, p, f, v) <= At(p, o)
    case Gep(q) => PtsOf(t, p, f, q) <= dst
    case BitCast(q) => PtsOf(t, p, f, q) <= dst
    case Phi(qs) => forall q | q in qs :: PtsOf(t, p, f, q) <= dst
    case Select(a, b) => PtsOf(t, p, f, a) <= dst && PtsOf(t, p, f, b) <= dst
    case VaArg => At(p, VarargNode(t, f)) <= dst
    case Call(callee, actuals, setsPtr) =>
      && (setsPtr ==> At(p, ReturnNode(t, callee)) <= dst)
      && (forall k | 0 <= k < |actuals| :: ArgMeant(m, t, p, f, callee, actuals, k))
    case Ret(r) => r.Some? ==> PtsOf(t, p, f, r.value) <= At(p, ReturnNode(t, f))
    case Branch(_) => true
    case Other => true
  }

  /** The object n is initialized: pointers to the objects they point into or to the null object, all elements alike. */
  ghost predicate InitMeant(t: Tables, p: PtsGraph, n: nat, init: Init) {
    match init
    case PtrInit(k) => (if Into(k).Some? then ObjectNode(t, GlobalSite(Into(k).value)) else 3) in At(p, n)
    case IntInit => true
    case ZeroInit => At(p, 3) <= At(p, n)
    case UndefInit => true
    case Aggregate(es) => forall e | e in es :: InitMeant(t, p, n, e)
  }

  ghost predicate GlobalMeant(t: Tables, p: PtsGraph, g: nat, global: Global) {
    && ObjectNode(t, GlobalSite(g)) in At(p, ValueNode(t, GlobalV(g)))
    && (global.External? ==> At(p, 1) <= At(p, ObjectNode(t, GlobalSite(g))))
    && (global.Defined? ==> InitMeant(t, p, ObjectNode(t, GlobalSite(g)), global.init))
  }

  ghost predicate SpecialMeant(p: PtsGraph) {
    1 in At(p, 0) && (forall o | o in At(p, 1) :: At(p, 1) <= At(p, o)) && 3 in At(p, 2)
  }

  /** All that the program asks for. */
  ghost predicate Meant(m: Module, t: Tables, p: PtsGraph)
    requires ModuleOk(m)
  {
    && SpecialMeant(p)
    && (forall g | 0 <= g < |m.globals| :: GlobalMeant(t, p, g, m.globals[g]))
    && (forall f, i | IsInst(m, f, i) :: InstMeant(m, t, p, f, i, InstAt(m, f, i)))
  }

  // ----- The constraints ask for that and nothing else -----

  ghost predicate AllHold(p: PtsGraph, cs: seq<Constraint>) {
    forall c | c in cs :: Holds(p, c)
  }

  lemma AllHoldJoin(p: PtsGraph, a: seq<Constraint>, b: seq<Constraint>)
    ensures AllHold(p, a + b) <==> AllHold(p, a) && AllHold(p, b)
  {
    hide Holds;
    if AllHold(p, a) && AllHold(p, b) {
      forall c | c in a + b ensures Holds(p, c) {
        assert c in a || c in b;
      }
    }
    if AllHold(p, a + b) {
      forall c | c in a || c in b ensures Holds(p, c) {
        assert c in a + b;
      }
    }
  }

  lemma {:induction false} ConstNodes(t: Tables, c: Const)
    ensures ConstNode(t, c) == (if Into(c).Some? then ValueNode(t, GlobalV(Into(c).value)) else 2)
    ensures ConstObject(t, c) == (if Into(c).Some? then ObjectNode(t, GlobalSite(Into(c).value)) else 3)
  {
    match c
    case GepOf(d) => ConstNodes(t, d);
    case CastOf(d) => ConstNodes(t, d);
    case _ =>
  }

  lemma NodePts(t: Tables, p: PtsGraph, f: nat, op: Operand)
    ensures At(p, NodeFor(t, f, op)) == PtsOf(t, p, f, op)
  {
    if op.Imm? {
      ConstNodes(t, op.c);
    }
  }

  lemma OneHolds(p: PtsGraph, c: Constraint)
    ensures AllHold(p, [c]) <==> Holds(p, c)
  {
    assert c in [c];
    hide Holds;
  }

  lemma {:induction false} PhiMeans(t: Tables, p: PtsGraph, f: nat, dst: nat, ps: seq<Operand>)
    ensures AllHold(p, PhiCons(t, f, dst, ps)) <==> forall q | q in ps :: PtsOf(t, p, f, q) <= At(p, dst)
  {
    if ps != [] {
      var front, last := ps[..|ps| - 1], ps[|ps| - 1];
      var c := Constraint(Copy, dst, NodeFor(t, f, last));
      PhiMeans(t, p, f, dst, front);
      NodePts(t, p, f, last);
      OneHolds(p, c);
      AllHoldJoin(p, PhiCons(t, f, dst, front), [c]);
      assert ps == front + [last];
      hide AllHold, PtsOf, At, NodeFor;
    }
  }

  lemma ArgMeans(m: Module, t: Tables, p: PtsGraph, f: nat, callee: nat, actuals: seq<Actual>, k: nat)
    requires callee < |m.functions| && k < |actuals|
    ensures AllHold(p, ArgCons(m, t, f, callee, actuals, k)) <==> ArgMeant(m, t, p, f, callee, actuals, k)
  {
    var a, cs := actuals[k], ArgCons(m, t, f, callee, actuals, k);
    if a.PtrActual? {
      NodePts(t, p, f, a.op);
    }
    if cs != [] {
      OneHolds(p, cs[0]);
      assert cs == [cs[0]];
    }
    hide AllHold, PtsOf, At, NodeFor, ValueNode, VarargNode;
  }

  lemma {:induction false} ArgsMean(m: Module, t: Tables, p: PtsGraph, f: nat, callee: nat, actuals: seq<Actual>, n: nat)
    requires callee < |m.functions| && n <= |actuals|
    ensures AllHold(p, ArgsCons(m, t, f, callee, actuals, n)) <==> forall k | 0 <= k < n :: ArgMeant(m, t, p, f, callee, actuals, k)
  {
    if n > 0 {
      ArgsMean(m, t, p, f, callee, actuals, n - 1);
      ArgMeans(m, t, p, f, callee, actuals, n - 1);
      AllHoldJoin(p, ArgsCons(m, t, f, callee, actuals, n - 1), ArgCons(m, t, f, callee, actuals, n - 1));
      hide AllHold, ArgMeant, ArgCons;
    }
  }

  lemma CallMeans(m: Module, t: Tables, p: PtsGraph, f: nat, i: nat, inst: Inst)
    requires inst.Call? && inst.callee < |m.functions|
    ensures AllHold(p, InstCons(m, t, f, i, inst)) <==> InstMeant(m, t, p, f, i, inst)
  {
    var c := Constraint(Copy, ValueNode(t, InstV(f, i)), ReturnNode(t, inst.callee));
    var cs := if inst.setsPtr then [c] else [];
    ArgsMean(m, t, p, f, inst.callee, inst.actuals, |inst.actuals|);
    OneHolds(p, c);
    AllHoldJoin(p, cs, ArgsCons(m, t, f, inst.callee, inst.actuals, |inst.actuals|));
    assert AllHold(p, []);
    hide AllHold, ArgMeant, ArgsCons, At, ValueNode, ReturnNode;
  }

  /** The constraints of an instruction hold exactly if what is written out for it does. */
  lemma InstMeans(m: Module, t: Tables, p: PtsGraph, f: nat, i: nat, inst: Inst)
    requires inst.Call? ==> inst.callee < |m.functions|
    ensures AllHold(p, InstCons(m, t, f, i, inst)) <==> InstMeant(m, t, p, f, i, inst)
  {
    var dst := ValueNode(t, InstV(f, i));
    hide PtsOf, NodeFor, ValueNode, ArgMeant, ArgsCons, At, PhiCons, ObjectNode, ReturnNode, VarargNode;
    var cs := InstCons(m, t, f, i, inst);
    if |cs| == 1 {
      OneHolds(p, cs[0]);
      assert cs == [cs[0]];
    }
    match inst
    case Call(_, _, _) => CallMeans(m, t, p, f, i, inst);
    case Phi(ps) => PhiMeans(t, p, f, dst, ps);
    case Load(q) =>
      NodePts(t, p, f, q);
    case Store(v, q) =>
      NodePts(t, p, f, v);
      NodePts(t, p, f, q);
    case Gep(q) => NodePts(t, p, f, q);
    case BitCast(q) => NodePts(t, p, f, q);
    case Select(a, b) =>
      NodePts(t, p, f, a);
      NodePts(t, p, f, b);
      var x, y := Constraint(Copy, dst, NodeFor(t, f, a)), Constraint(Copy, dst, NodeFor(t, f, b));
      assert InstCons(m, t, f, i, inst) == [x, y] && x in [x, y] && y in [x, y];
    case Ret(r) =>
      if r.Some? {
        NodePts(t, p, f, r.value);
      }
    case _ =>
  }

  /** So do those of an initializer. */
  lemma {:induction false} InitMeans(t: Tables, p: PtsGraph, n: nat, init: Init)
    ensures (forall c | InitEmits(t, n, init, c) :: Holds(p, c)) <==> InitMeant(t, p, n, init)
  {
    match init
    case PtrInit(k) =>
      ConstNodes(t, k);
      var c := Constraint(AddrOf, n, ConstObject(t, k));
      assert InitEmits(t, n, init, c);
    case ZeroInit =>
      var c := Constraint(Copy, n, NULL_OBJ);
      assert InitEmits(t, n, init, c);
    case Aggregate(es) =>
      hide Holds;
      forall e | e in es ensures (forall c | InitEmits(t, n, e, c) :: Holds(p, c)) <==> InitMeant(t, p, n, e) {
        InitMeans(t, p, n, e);
      }
      if InitMeant(t, p, n, init) {
        forall c | InitEmits(t, n, init, c) ensures Holds(p, c) {
          var e :| e in es && InitEmits(t, n, e, c);
          assert InitMeant(t, p, n, e);
        }
      }
      if forall c | InitEmits(t, n, init, c) :: Holds(p, c) {
        forall e | e in es ensures InitMeant(t, p, n, e) {
          forall c | InitEmits(t, n, e, c) ensures Holds(p, c) {
            assert InitEmits(t, n, init, c);
          }
        }
      }
    case _ =>
  }

  lemma GlobalMeans(t: Tables, p: PtsGraph, g: nat, global: Global)
    ensures (forall c | c == GlobalCon(t, g) || GlobalEmits(t, g, global, c) :: Holds(p, c)) <==> GlobalMeant(t, p, g, global)
  {
    var n := ObjectNode(t, GlobalSite(g));
    assert Holds(p, GlobalCon(t, g)) <==> n in At(p, ValueNode(t, GlobalV(g)));
    if global.Defined? {
      InitMeans(t, p, n, global.init);
      assert forall c :: GlobalEmits(t, g, global, c) <==> InitEmits(t, n, global.init, c);
    } else {
      var c := Constraint(Copy, n, UNIVERSAL_OBJ);
      assert Holds(p, c) <==> At(p, 1) <= At(p, n);
      assert GlobalEmits(t, g, global, c);
    }
    hide GlobalCon, InitEmits, InitMeant, At, Holds, ObjectNode, ValueNode;
  }

  lemma SpecialMeans(p: PtsGraph)
    ensures SpecialMeant(p) <==>
              && Holds(p, Constraint(AddrOf, UNIVERSAL_PTR, UNIVERSAL_OBJ))
              && Holds(p, Constraint(ConstraintType.Store, UNIVERSAL_OBJ, UNIVERSAL_OBJ))
              && Holds(p, Constraint(AddrOf, NULL_PTR, NULL_OBJ))
  {
  }

  /** A points-to graph solves the constraints of a program exactly if it has all that the program asks for. */
  lemma SolvesIsMeant(m: Module, t: Tables, p: PtsGraph)
    requires ModuleOk(m)
    ensures Solves(m, t, p) <==> Meant(m, t, p)
  {
    hide Holds, InstCons, InstMeant, GlobalMeant, GlobalCon, GlobalEmits, SpecialMeant, ModuleOk;
    SpecialMeans(p);
    forall g | 0 <= g < |m.globals|
      ensures (forall c | c == GlobalCon(t, g) || GlobalEmits(t, g, m.globals[g], c) :: Holds(p, c)) <==> GlobalMeant(t, p, g, m.globals[g])
    {
      GlobalMeans(t, p, g, m.globals[g]);
    }
    forall f, i | IsInst(m, f, i)
      ensures AllHold(p, InstCons(m, t, f, i, InstAt(m, f, i))) <==> InstMeant(m, t, p, f, i, InstAt(m, f, i))
    {
      InstMeans(m, t, p, f, i, InstAt(m, f, i));
    }
    if Solves(m, t, p) {
      assert forall c | Emits(m, t, c) :: Holds(p, c);
      forall f, i | IsInst(m, f, i) ensures AllHold(p, InstCons(m, t, f, i, InstAt(m, f, i))) {
        forall c | c in InstCons(m, t, f, i, InstAt(m, f, i)) ensures Holds(p, c) {
          assert Emits(m, t, c);
        }
      }
    }
  }
}
