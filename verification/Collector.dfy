/** The scan that numbers the nodes of a program and collects its constraints. */
module Collectors {
  import opened Constraints
  import opened NodeFactory
  import opened Programs
  import opened ConstraintCollect
  import opened Inclusions

  /** What can have a node. */
  datatype Key = ValueKey(v: Value) | ObjectKey(s: Site) | ReturnKey(f: nat) | VarargKey(f: nat)

  predicate Has(t: Tables, k: Key) {
    match k
    case ValueKey(v) => v in t.value
    case ObjectKey(s) => s in t.object_
    case ReturnKey(f) => f in t.ret
    case VarargKey(f) => f in t.vararg
  }

  function NodeOf(t: Tables, k: Key): nat {
    match k
    case ValueKey(v) => ValueNode(t, v)
    case ObjectKey(s) => ObjectNode(t, s)
    case ReturnKey(f) => ReturnNode(t, f)
    case VarargKey(f) => VarargNode(t, f)
  }

  /** All nodes are distinct, and come after the four special ones. */
  ghost predicate Numbered(t: Tables, size: nat) {
    && 4 <= size
    && (forall k | Has(t, k) :: 4 <= NodeOf(t, k) < size)
    && (forall j, k | Has(t, j) && Has(t, k) && NodeOf(t, j) == NodeOf(t, k) :: j == k)
  }

  /** t has all that s has, with the same nodes. */
  ghost predicate Extends(s: Tables, t: Tables) {
    forall k | Has(s, k) :: Has(t, k) && NodeOf(t, k) == NodeOf(s, k)
  }

  /** t with a node for one more key. */
  function Add(t: Tables, k: Key, n: nat): Tables {
    match k
    case ValueKey(v) => t.(value := t.value[v := n])
    case ObjectKey(s) => t.(object_ := t.object_[s := n])
    case ReturnKey(f) => t.(ret := t.ret[f := n])
    case VarargKey(f) => t.(vararg := t.vararg[f := n])
  }

  lemma AddFacts(t: Tables, k: Key, n: nat, j: Key)
    ensures Has(Add(t, k, n), j) <==> j == k || Has(t, j)
    ensures NodeOf(Add(t, k, n), j) == if j == k then n else NodeOf(t, j)
  {
  }

  lemma AddNumbered(t: Tables, k: Key, size: nat)
    requires Numbered(t, size) && !Has(t, k)
    ensures Numbered(Add(t, k, size), size + 1) && Extends(t, Add(t, k, size))
    ensures forall j :: Has(Add(t, k, size), j) <==> j == k || Has(t, j)
  {
    hide Has, NodeOf, Add;
    forall j ensures (Has(Add(t, k, size), j) <==> j == k || Has(t, j))
                  && NodeOf(Add(t, k, size), j) == if j == k then size else NodeOf(t, j) {
      AddFacts(t, k, size, j);
    }
  }

  // ----- Which nodes are there when -----

  predicate GlobalKey(m: Module, k: Key) {
    || (k.ValueKey? && k.v.GlobalV? && k.v.g < |m.globals|)
    || (k.ObjectKey? && k.s.GlobalSite? && k.s.g < |m.globals|)
  }

  /** The nodes of a function's interface. */
  predicate FunctionKey(m: Module, k: Key) {
    || (k.ReturnKey? && k.f < |m.functions| && m.functions[k.f].returnsPtr)
    || (k.VarargKey? && k.f < |m.functions| && m.functions[k.f].isVarArg)
    || (k.ValueKey? && k.v.ArgV? && k.v.f < |m.functions| && k.v.i < |m.functions[k.v.f].formals| && m.functions[k.v.f].formals[k.v.i])
  }

  predicate InstKey(m: Module, k: Key) {
    k.ValueKey? && k.v.InstV? && IsInst(m, k.v.f, k.v.i) && SetsPtr(m.functions[k.v.f].body[k.v.i])
  }

  predicate AllocaKey(m: Module, k: Key) {
    k.ObjectKey? && k.s.AllocaSite? && IsInst(m, k.s.f, k.s.i) && m.functions[k.s.f].body[k.s.i].Alloca?
  }

  /** The node of an operand of an instruction in function f. */
  function OperandKey(f: nat, op: Operand): (k: Key)
    requires !op.Imm?
  {
    if op.Reg? then ValueKey(InstV(f, op.i)) else ValueKey(ArgV(f, op.i))
  }

  /** The interfaces of all functions and the registers of function f have nodes. */
  ghost predicate Ready(m: Module, t: Tables, f: nat) {
    && (forall k | GlobalKey(m, k) || FunctionKey(m, k) :: Has(t, k))
    && (forall k | InstKey(m, k) && k.v.f == f :: Has(t, k))
  }

  lemma {:induction false} ConstStable(m: Module, s: Tables, t: Tables, c: Const)
    requires ConstOk(m, c) && Extends(s, t) && forall k | GlobalKey(m, k) :: Has(s, k)
    ensures ConstNode(t, c) == ConstNode(s, c) && ConstObject(t, c) == ConstObject(s, c)
  {
    match c
    case GlobalAddr(g) =>
      assert Has(s, ValueKey(GlobalV(g))) && Has(s, ObjectKey(GlobalSite(g)));
      assert NodeOf(t, ValueKey(GlobalV(g))) == NodeOf(s, ValueKey(GlobalV(g)));
      assert NodeOf(t, ObjectKey(GlobalSite(g))) == NodeOf(s, ObjectKey(GlobalSite(g)));
    case NullConst =>
    case GepOf(d) => ConstStable(m, s, t, d);
    case CastOf(d) => ConstStable(m, s, t, d);
  }

  lemma OperandStable(m: Module, s: Tables, t: Tables, f: nat, op: Operand)
    requires f < |m.functions| && OperandOk(m, m.functions[f], op) && Extends(s, t) && Ready(m, s, f)
    ensures NodeFor(t, f, op) == NodeFor(s, f, op)
  {
    if op.Imm? {
      ConstStable(m, s, t, op.c);
    } else {
      var k := OperandKey(f, op);
      assert InstKey(m, k) || FunctionKey(m, k);
      assert Has(s, k) && NodeOf(t, k) == NodeOf(s, k);
    }
  }

  lemma NodeStays(s: Tables, t: Tables, k: Key)
    requires Extends(s, t) && Has(s, k)
    ensures NodeOf(t, k) == NodeOf(s, k)
  {
  }

  lemma {:induction false} PhiStable(m: Module, s: Tables, t: Tables, f: nat, dst: nat, ps: seq<Operand>)
    requires f < |m.functions| && Extends(s, t) && Ready(m, s, f) && forall p | p in ps :: OperandOk(m, m.functions[f], p)
    ensures PhiCons(t, f, dst, ps) == PhiCons(s, f, dst, ps)
  {
    if ps != [] {
      var last := ps[|ps| - 1];
      assert last in ps;
      PhiStable(m, s, t, f, dst, ps[..|ps| - 1]);
      OperandStable(m, s, t, f, last);
    }
  }

  lemma ArgStable(m: Module, s: Tables, t: Tables, f: nat, callee: nat, actuals: seq<Actual>, k: nat)
    requires f < |m.functions| && callee < |m.functions| && k < |actuals| && Extends(s, t) && Ready(m, s, f)
    requires actuals[k].PtrActual? ==> OperandOk(m, m.functions[f], actuals[k].op)
    ensures ArgCons(m, t, f, callee, actuals, k) == ArgCons(m, s, f, callee, actuals, k)
  {
    if actuals[k].PtrActual? {
      OperandStable(m, s, t, f, actuals[k].op);
    }
    var fun := m.functions[callee];
    if k < |fun.formals| {
      if fun.formals[k] {
        assert FunctionKey(m, ValueKey(ArgV(callee, k)));
        NodeStays(s, t, ValueKey(ArgV(callee, k)));
      }
    } else if fun.isVarArg {
      assert FunctionKey(m, VarargKey(callee));
      NodeStays(s, t, VarargKey(callee));
    }
  }

  lemma {:induction false} ArgsStable(m: Module, s: Tables, t: Tables, f: nat, callee: nat, actuals: seq<Actual>, n: nat)
    requires f < |m.functions| && callee < |m.functions| && n <= |actuals| && Extends(s, t) && Ready(m, s, f)
    requires forall a | a in actuals && a.PtrActual? :: OperandOk(m, m.functions[f], a.op)
    ensures ArgsCons(m, t, f, callee, actuals, n) == ArgsCons(m, s, f, callee, actuals, n)
  {
    if n > 0 {
      assert actuals[n - 1] in actuals;
      ArgsStable(m, s, t, f, callee, actuals, n - 1);
      ArgStable(m, s, t, f, callee, actuals, n - 1);
    }
  }

  /** The constraints of an instruction do not change once its nodes are there. */
  lemma InstStable(m: Module, s: Tables, t: Tables, f: nat, i: nat)
    requires ModuleOk(m) && IsInst(m, f, i) && Extends(s, t) && Ready(m, s, f)
    requires InstAt(m, f, i).Alloca? ==> Has(s, ObjectKey(AllocaSite(f, i)))
    ensures InstCons(m, t, f, i, InstAt(m, f, i)) == InstCons(m, s, f, i, InstAt(m, f, i))
  {
    var inst := InstAt(m, f, i);
    if SetsPtr(inst) {
      assert InstKey(m, ValueKey(InstV(f, i)));
      NodeStays(s, t, ValueKey(InstV(f, i)));
    }
    match inst
    case Alloca => NodeStays(s, t, ObjectKey(AllocaSite(f, i)));
    case Load(p) => OperandStable(m, s, t, f, p);
    case Store(v, p) =>
      OperandStable(m, s, t, f, v);
      OperandStable(m, s, t, f, p);
    case Gep(p) => OperandStable(m, s, t, f, p);
    case BitCast(p) => OperandStable(m, s, t, f, p);
    case Phi(ps) => PhiStable(m, s, t, f, ValueNode(t, InstV(f, i)), ps);
    case Select(a, b) =>
      OperandStable(m, s, t, f, a);
      OperandStable(m, s, t, f, b);
    case VaArg =>
      assert FunctionKey(m, VarargKey(f));
      NodeStays(s, t, VarargKey(f));
    case Call(callee, actuals, setsPtr) =>
      if setsPtr {
        assert FunctionKey(m, ReturnKey(callee));
        NodeStays(s, t, ReturnKey(callee));
      }
      ArgsStable(m, s, t, f, callee, actuals, |actuals|);
    case Ret(r) =>
      if r.Some? {
        OperandStable(m, s, t, f, r.value);
        assert FunctionKey(m, ReturnKey(f));
        NodeStays(s, t, ReturnKey(f));
      }
    case _ =>
  }

  // ----- How far the scan is -----

  datatype Phase = Globals(g: nat) | Interfaces(f: nat) | Registers(f: nat, i: nat) | Instructions(f: nat, i: nat)

  function GlobalIndex(k: Key): nat {
    if k.ValueKey? && k.v.GlobalV? then k.v.g else if k.ObjectKey? && k.s.GlobalSite? then k.s.g else 0
  }

  function FunctionIndex(k: Key): nat {
    if k.ReturnKey? || k.VarargKey? then k.f else if k.ValueKey? && k.v.ArgV? then k.v.f else 0
  }

  predicate Before(f: nat, i: nat, g: nat, j: nat) {
    f < g || (f == g && i < j)
  }

  /** The nodes there are when the scan has come to ph. */
  predicate Dom(m: Module, ph: Phase, k: Key) {
    match ph
    case Globals(g) => GlobalKey(m, k) && GlobalIndex(k) < g
    case Interfaces(f) => GlobalKey(m, k) || (FunctionKey(m, k) && FunctionIndex(k) < f)
    case Registers(f, i) =>
      || GlobalKey(m, k) || FunctionKey(m, k)
      || (InstKey(m, k) && Before(k.v.f, k.v.i, f, i)) || (AllocaKey(m, k) && k.s.f < f)
    case Instructions(f, i) =>
      || GlobalKey(m, k) || FunctionKey(m, k)
      || (InstKey(m, k) && k.v.f <= f) || (AllocaKey(m, k) && Before(k.s.f, k.s.i, f, i))
  }

  /** The constraints of the globals: the first a have theirs, the first b their initializers'. */
  ghost predicate GlobalPart(m: Module, t: Tables, c: Constraint, a: nat, b: nat) {
    || c == Constraint(AddrOf, UNIVERSAL_PTR, UNIVERSAL_OBJ)
    || c == Constraint(ConstraintType.Store, UNIVERSAL_OBJ, UNIVERSAL_OBJ)
    || c == Constraint(AddrOf, NULL_PTR, NULL_OBJ)
    || (exists g | 0 <= g < a :: c == GlobalCon(t, g))
    || (exists g | 0 <= g < b && g < |m.globals| :: GlobalEmits(t, g, m.globals[g], c))
  }

  /** The constraints of the instructions before instruction i of function f. */
  ghost predicate InstPart(m: Module, t: Tables, c: Constraint, f: nat, i: nat)
    requires ModuleOk(m)
  {
    exists h, j :: IsInst(m, h, j) && Before(h, j, f, i) && c in InstCons(m, t, h, j, InstAt(m, h, j))
  }

  ghost predicate Collected(m: Module, t: Tables, cs: seq<Constraint>, a: nat, b: nat, f: nat, i: nat)
    requires ModuleOk(m)
  {
    forall c :: c in cs <==> GlobalPart(m, t, c, a, b) || InstPart(m, t, c, f, i)
  }

  lemma {:induction false} InitStable(m: Module, s: Tables, t: Tables, n: nat, init: Init, c: Constraint)
    requires InitOk(m, init) && Extends(s, t) && forall k | GlobalKey(m, k) :: Has(s, k)
    ensures InitEmits(t, n, init, c) == InitEmits(s, n, init, c)
  {
    match init
    case PtrInit(k) => ConstStable(m, s, t, k);
    case Aggregate(es) =>
      forall e | e in es ensures InitEmits(t, n, e, c) == InitEmits(s, n, e, c) {
        InitStable(m, s, t, n, e, c);
      }
    case _ =>
  }

  lemma GlobalPartStable(m: Module, s: Tables, t: Tables, c: Constraint, a: nat, b: nat)
    requires ModuleOk(m) && Extends(s, t) && a <= |m.globals|
    requires forall k | GlobalKey(m, k) && GlobalIndex(k) < a :: Has(s, k)
    requires b > 0 ==> a == |m.globals|
    ensures GlobalPart(m, t, c, a, b) <==> GlobalPart(m, s, c, a, b)
  {
    forall g: nat | g < a ensures GlobalCon(t, g) == GlobalCon(s, g) {
      NodeStays(s, t, ValueKey(GlobalV(g)));
      NodeStays(s, t, ObjectKey(GlobalSite(g)));
    }
    forall g: nat | g < b && g < |m.globals| ensures GlobalEmits(t, g, m.globals[g], c) == GlobalEmits(s, g, m.globals[g], c) {
      NodeStays(s, t, ObjectKey(GlobalSite(g)));
      assert m.globals[g] in m.globals;
      if m.globals[g].Defined? {
        InitStable(m, s, t, ObjectNode(t, GlobalSite(g)), m.globals[g].init, c);
      }
    }
    hide Extends, GlobalEmits, GlobalCon;
  }

  lemma InstPartStable(m: Module, s: Tables, t: Tables, c: Constraint, f: nat, i: nat)
    requires ModuleOk(m) && Extends(s, t)
    requires forall h, j | IsInst(m, h, j) && Before(h, j, f, i) ::
               Ready(m, s, h) && (InstAt(m, h, j).Alloca? ==> Has(s, ObjectKey(AllocaSite(h, j))))
    ensures InstPart(m, t, c, f, i) <==> InstPart(m, s, c, f, i)
  {
    forall h, j | IsInst(m, h, j) && Before(h, j, f, i)
      ensures InstCons(m, t, h, j, InstAt(m, h, j)) == InstCons(m, s, h, j, InstAt(m, h, j))
    {
      InstStable(m, s, t, h, j);
    }
    hide Extends, Ready, InstCons;
  }

  lemma CollectedStays(m: Module, s: Tables, t: Tables, cs: seq<Constraint>, a: nat, b: nat, f: nat, i: nat)
    requires ModuleOk(m) && Collected(m, s, cs, a, b, f, i) && Extends(s, t) && a <= |m.globals|
    requires forall k | GlobalKey(m, k) && GlobalIndex(k) < a :: Has(s, k)
    requires b > 0 ==> a == |m.globals|
    requires forall h, j | IsInst(m, h, j) && Before(h, j, f, i) ::
               Ready(m, s, h) && (InstAt(m, h, j).Alloca? ==> Has(s, ObjectKey(AllocaSite(h, j))))
    ensures Collected(m, t, cs, a, b, f, i)
  {
    hide Extends, GlobalPart, InstPart, Ready, ModuleOk, Has;
    forall c ensures c in cs <==> GlobalPart(m, t, c, a, b) || InstPart(m, t, c, f, i) {
      GlobalPartStable(m, s, t, c, a, b);
      InstPartStable(m, s, t, c, f, i);
    }
  }

  // ----- The keys of one phase and of the next -----

  ghost function Keys(m: Module, ph: Phase): iset<Key> {
    iset k | Dom(m, ph, k)
  }

  lemma GlobalKeys(m: Module, g: nat)
    requires g < |m.globals|
    ensures Keys(m, Globals(g)) + iset{ValueKey(GlobalV(g))} + iset{ObjectKey(GlobalSite(g))} == Keys(m, Globals(g + 1))
    ensures ValueKey(GlobalV(g)) !in Keys(m, Globals(g)) && ObjectKey(GlobalSite(g)) !in Keys(m, Globals(g))
  {
  }

  lemma PhasesMeet(m: Module)
    ensures Keys(m, Globals(0)) == iset{}
    ensures Keys(m, Globals(|m.globals|)) == Keys(m, Interfaces(0))
    ensures Keys(m, Interfaces(|m.functions|)) == Keys(m, Registers(0, 0))
  {
  }

  lemma FunctionPhasesMeet(m: Module, f: nat)
    requires f < |m.functions|
    ensures Keys(m, Registers(f, |m.functions[f].body|)) == Keys(m, Instructions(f, 0))
    ensures Keys(m, Instructions(f, |m.functions[f].body|)) == Keys(m, Registers(f + 1, 0))
  {
    forall k ensures Dom(m, Registers(f, |m.functions[f].body|), k) <==> Dom(m, Instructions(f, 0), k) {
    }
    forall k ensures Dom(m, Instructions(f, |m.functions[f].body|), k) <==> Dom(m, Registers(f + 1, 0), k) {
    }
  }

  lemma RegisterKeys(m: Module, f: nat, i: nat)
    requires IsInst(m, f, i)
    ensures Keys(m, Registers(f, i + 1)) ==
              Keys(m, Registers(f, i)) + if SetsPtr(m.functions[f].body[i]) then iset{ValueKey(InstV(f, i))} else iset{}
    ensures ValueKey(InstV(f, i)) !in Keys(m, Registers(f, i))
  {
  }

  lemma InstructionKeys(m: Module, f: nat, i: nat)
    requires IsInst(m, f, i)
    ensures Keys(m, Instructions(f, i + 1)) ==
              Keys(m, Instructions(f, i)) + if m.functions[f].body[i].Alloca? then iset{ObjectKey(AllocaSite(f, i))} else iset{}
    ensures ObjectKey(AllocaSite(f, i)) !in Keys(m, Instructions(f, i))
  {
  }

  /** The interface nodes of function f that come before formal i. */
  ghost function InterfaceKeys(m: Module, f: nat, i: nat): iset<Key>
    requires f < |m.functions|
  {
    iset k | FunctionKey(m, k) && FunctionIndex(k) == f && (k.ValueKey? ==> k.v.i < i)
  }

  lemma InterfaceStart(m: Module, f: nat)
    requires f < |m.functions|
    ensures InterfaceKeys(m, f, 0) == (if m.functions[f].returnsPtr then iset{ReturnKey(f)} else iset{})
                                    + (if m.functions[f].isVarArg then iset{VarargKey(f)} else iset{})
    ensures Keys(m, Interfaces(f)) + InterfaceKeys(m, f, |m.functions[f].formals|) == Keys(m, Interfaces(f + 1))
    ensures ReturnKey(f) !in Keys(m, Interfaces(f)) && VarargKey(f) !in Keys(m, Interfaces(f))
  {
  }

  lemma InterfaceNext(m: Module, f: nat, i: nat)
    requires f < |m.functions| && i < |m.functions[f].formals|
    ensures InterfaceKeys(m, f, i + 1) == InterfaceKeys(m, f, i) + if m.functions[f].formals[i] then iset{ValueKey(ArgV(f, i))} else iset{}
    ensures ValueKey(ArgV(f, i)) !in InterfaceKeys(m, f, i) + Keys(m, Interfaces(f))
  {
  }

  /** The universal pointer and object occur on the left of the constraints that define them only. */
  predicate SpecialOnly(cs: seq<Constraint>) {
    forall c | c in cs && c.dest < 2 :: c.src == 1 && c.dest == (if c.ty.AddrOf? then 0 else 1) && !c.ty.Copy? && !c.ty.Load?
  }

  lemma ArgsNext(cs: seq<Constraint>, m: Module, t: Tables, f: nat, callee: nat, actuals: seq<Actual>, k: nat)
    requires callee < |m.functions| && k < |actuals|
    ensures cs + ArgsCons(m, t, f, callee, actuals, k + 1) == cs + ArgsCons(m, t, f, callee, actuals, k) + ArgCons(m, t, f, callee, actuals, k)
  {
    hide ArgCons;
  }

  class Collector {
    const m: Module
    const nodeFactory: AndersNodeFactory
    var t: Tables
    var constraints: seq<Constraint>

    /** The keys in dom have nodes. */
    ghost predicate Inv(dom: iset<Key>)
      reads this`t, nodeFactory
    {
      && ModuleOk(m)
      && nodeFactory.Valid() && nodeFactory.root == Identity(|nodeFactory.root|)
      && Numbered(t, |nodeFactory.root|)
      && forall k :: Has(t, k) <==> k in dom
    }

    constructor (m: Module, nodeFactory: AndersNodeFactory)
      requires ModuleOk(m) && nodeFactory.Valid() && nodeFactory.root == Identity(4)
      ensures this.m == m && this.nodeFactory == nodeFactory
      ensures Inv(Keys(m, Globals(0))) && constraints == []
    {
      this.m, this.nodeFactory := m, nodeFactory;
      t, constraints := Tables(map[], map[], map[], map[]), [];
      new;
      PhasesMeet(m);
    }

    /** A new node for k. */
    method AddNode(k: Key, ghost dom: iset<Key>) returns (n: nat)
      requires Inv(dom) && k !in dom
      modifies this`t, nodeFactory
      ensures Inv(dom + iset{k}) && Extends(old(t), t) && Has(t, k) && n == NodeOf(t, k)
    {
      hide Numbered, Extends, Has, NodeOf, Add, ModuleOk, IsForest;
      AddNumbered(t, k, |nodeFactory.root|);
      n := nodeFactory.CreateNode();
      AddFacts(t, k, n, k);
      t := Add(t, k, n);
      assert nodeFactory.root == Identity(|nodeFactory.root|);
    }

    /** Nodes for the return value, the variable arguments and the pointer parameters of function f. */
    method CreateInterface(f: nat)
      requires f < |m.functions| && Inv(Keys(m, Interfaces(f)))
      modifies this`t, nodeFactory
      ensures Inv(Keys(m, Interfaces(f + 1))) && Extends(old(t), t)
    {
      hide Extends, Add, Keys, InterfaceKeys, Inv;
      ghost var t0, dom := t, Keys(m, Interfaces(f));
      InterfaceStart(m, f);
      ExtendsSelf(t);
      if m.functions[f].returnsPtr {
        var n := AddNode(ReturnKey(f), dom);
        dom := dom + iset{ReturnKey(f)};
      }
      ghost var t1 := t;
      if m.functions[f].isVarArg {
        var n := AddNode(VarargKey(f), dom);
        ExtendsTrans(t0, t1, t);
        dom := dom + iset{VarargKey(f)};
      }
      assert dom == Keys(m, Interfaces(f)) + InterfaceKeys(m, f, 0);
      for i := 0 to |m.functions[f].formals|
        invariant Inv(Keys(m, Interfaces(f)) + InterfaceKeys(m, f, i)) && Extends(t0, t)
      {
        InterfaceNext(m, f, i);
        if m.functions[f].formals[i] {
          ghost var t2 := t;
          var n := AddNode(ValueKey(ArgV(f, i)), Keys(m, Interfaces(f)) + InterfaceKeys(m, f, i));
          ExtendsTrans(t0, t2, t);
        }
        assert Keys(m, Interfaces(f)) + InterfaceKeys(m, f, i) + iset{ValueKey(ArgV(f, i))}
            == Keys(m, Interfaces(f)) + (InterfaceKeys(m, f, i) + iset{ValueKey(ArgV(f, i))});
        assert InterfaceKeys(m, f, i) + iset{} == InterfaceKeys(m, f, i);
      }
    }

    lemma GlobalsThere(g: nat)
      requires Inv(Keys(m, Globals(g)))
      ensures forall k | GlobalKey(m, k) && GlobalIndex(k) < g :: Has(t, k)
    {
      hide Has, Numbered, ModuleOk, IsForest;
    }

    lemma InterfacesThere(f: nat)
      requires Inv(Keys(m, Interfaces(f)))
      ensures forall k | GlobalKey(m, k) :: Has(t, k)
    {
      hide Has, Numbered, ModuleOk, IsForest;
    }

    lemma RegistersThere(f: nat, i: nat)
      requires Inv(Keys(m, Registers(f, i))) && f < |m.functions|
      ensures forall k | GlobalKey(m, k) :: Has(t, k)
      ensures forall h, j | IsInst(m, h, j) && Before(h, j, f, 0) ::
                Ready(m, t, h) && (InstAt(m, h, j).Alloca? ==> Has(t, ObjectKey(AllocaSite(h, j))))
    {
      hide Has, Numbered, ModuleOk, IsForest;
      forall h, j | IsInst(m, h, j) && Before(h, j, f, 0)
        ensures Ready(m, t, h) && (InstAt(m, h, j).Alloca? ==> Has(t, ObjectKey(AllocaSite(h, j))))
      {
        assert InstAt(m, h, j).Alloca? ==> AllocaKey(m, ObjectKey(AllocaSite(h, j)));
      }
    }

    lemma InstructionsThere(f: nat, i: nat)
      requires Inv(Keys(m, Instructions(f, i))) && IsInst(m, f, i)
      ensures forall k | GlobalKey(m, k) :: Has(t, k)
      ensures Ready(m, t, f) && (SetsPtr(m.functions[f].body[i]) ==> Has(t, ValueKey(InstV(f, i))))
      ensures forall h, j | IsInst(m, h, j) && Before(h, j, f, i) ::
                Ready(m, t, h) && (InstAt(m, h, j).Alloca? ==> Has(t, ObjectKey(AllocaSite(h, j))))
    {
      hide Has, Numbered, ModuleOk, IsForest;
      assert SetsPtr(m.functions[f].body[i]) ==> InstKey(m, ValueKey(InstV(f, i)));
      forall h, j | IsInst(m, h, j) && Before(h, j, f, i)
        ensures Ready(m, t, h) && (InstAt(m, h, j).Alloca? ==> Has(t, ObjectKey(AllocaSite(h, j))))
      {
        assert InstAt(m, h, j).Alloca? ==> AllocaKey(m, ObjectKey(AllocaSite(h, j)));
      }
    }

    lemma AllCollected()
      requires ModuleOk(m) && Collected(m, t, constraints, |m.globals|, |m.globals|, |m.functions|, 0)
      ensures forall c :: c in constraints <==> Emits(m, t, c)
    {
      hide ModuleOk, InstCons, GlobalEmits, GlobalCon;
      forall c ensures c in constraints <==> Emits(m, t, c) {
        EmitsParts(m, t, c);
      }
    }

    lemma AllInRange()
      requires Inv(Keys(m, Registers(|m.functions|, 0))) && forall c :: c in constraints <==> Emits(m, t, c)
      ensures InRange(constraints, |nodeFactory.root|) && SpecialOnly(constraints)
    {
      RegistersReady();
      assert Numbered(t, |nodeFactory.root|);
      hide ModuleOk, Emits, Inv, Has, NodeOf;
      forall c | c in constraints
        ensures c.dest < |nodeFactory.root| && c.src < |nodeFactory.root|
        ensures c.dest < 2 ==> c.src == 1 && c.dest == (if c.ty.AddrOf? then 0 else 1) && !c.ty.Copy? && !c.ty.Load?
      {
        EmitsInRange(m, t, |nodeFactory.root|, c);
      }
    }

    lemma RegistersReady()
      requires Inv(Keys(m, Registers(|m.functions|, 0)))
      ensures forall f: nat | f < |m.functions| :: Ready(m, t, f)
      ensures forall k | AllocaKey(m, k) || GlobalKey(m, k) :: Has(t, k)
    {
      hide Has, Numbered, ModuleOk, IsForest;
    }

    /** The scan of the globals and of the functions' interfaces. */
    method CollectConstraintsForGlobals()
      requires Inv(Keys(m, Globals(0))) && Collected(m, t, constraints, 0, 0, 0, 0)
      modifies this`t, this`constraints, nodeFactory
      ensures Inv(Keys(m, Registers(0, 0))) && Collected(m, t, constraints, |m.globals|, |m.globals|, 0, 0)
      ensures forall p :: AllHold(p, constraints) <==> SpecialMeant(p) && forall g | 0 <= g < |m.globals| :: GlobalMeant(t, p, g, m.globals[g])
    {
      assert ModuleOk(m);
      hide Extends, Keys, Inv, Collected, ModuleOk, AllHold, SpecialMeant, GlobalMeant;
      PhasesMeet(m);
      for g := 0 to |m.globals|
        invariant Inv(Keys(m, Globals(g))) && ModuleOk(m) && Collected(m, t, constraints, g, 0, 0, 0)
      {
        ghost var t0 := t;
        GlobalsThere(g);
        GlobalKeys(m, g);
        var gVal := AddNode(ValueKey(GlobalV(g)), Keys(m, Globals(g)));
        ghost var t1 := t;
        var gObj := AddNode(ObjectKey(GlobalSite(g)), Keys(m, Globals(g)) + iset{ValueKey(GlobalV(g))});
        ExtendsTrans(t0, t1, t);
        CollectedStays(m, t0, t, constraints, g, 0, 0, 0);
        NodeStays(t1, t, ValueKey(GlobalV(g)));
        CollectedGlobal(m, t, constraints, g);
        constraints := constraints + [Constraint(AddrOf, gVal, gObj)];
      }
      for f := 0 to |m.functions|
        invariant Inv(Keys(m, Interfaces(f))) && ModuleOk(m) && Collected(m, t, constraints, |m.globals|, 0, 0, 0)
      {
        ghost var t0 := t;
        InterfacesThere(f);
        CreateInterface(f);
        CollectedStays(m, t0, t, constraints, |m.globals|, 0, 0, 0);
      }
      for g := 0 to |m.globals|
        invariant Inv(Keys(m, Registers(0, 0))) && ModuleOk(m) && Collected(m, t, constraints, |m.globals|, g, 0, 0)
      {
        ghost var cs := constraints;
        var gObj := ObjectNode(t, GlobalSite(g));
        match m.globals[g] {
          case External => constraints := constraints + [Constraint(Copy, gObj, UNIVERSAL_OBJ)];
          case Defined(init) => AddGlobalInitializerConstraints(gObj, init);
        }
        CollectedInit(m, t, cs, constraints, g);
      }
      forall p ensures AllHold(p, constraints) <==> SpecialMeant(p) && forall g | 0 <= g < |m.globals| :: GlobalMeant(t, p, g, m.globals[g]) {
        GlobalsMean(m, t, p, constraints);
      }
    }

    /** The constraints of an initializer, its elements' included. */
    method AddGlobalInitializerConstraints(objNode: nat, init: Init)
      modifies this`constraints
      ensures forall c :: c in constraints <==> c in old(constraints) || InitEmits(t, objNode, init, c)
      ensures forall p :: AllHold(p, constraints) <==> AllHold(p, old(constraints)) && InitMeant(t, p, objNode, init)
      decreases init
    {
      hide AllHold, InitMeant;
      match init {
        case PtrInit(k) => constraints := constraints + [Constraint(AddrOf, objNode, ConstObject(t, k))];
        case IntInit =>
        case ZeroInit => constraints := constraints + [Constraint(Copy, objNode, NULL_OBJ)];
        case UndefInit =>
        case Aggregate(elems) =>
          for i := 0 to |elems|
            invariant forall c :: c in constraints <==> c in old(constraints) || exists e | e in elems[..i] :: InitEmits(t, objNode, e, c)
          {
            AddGlobalInitializerConstraints(objNode, elems[i]);
            ElemsSnoc(t, objNode, elems, i);
          }
          assert elems[..|elems|] == elems;
      }
      forall p ensures AllHold(p, constraints) <==> AllHold(p, old(constraints)) && InitMeant(t, p, objNode, init) {
        AddedInit(t, p, objNode, init, old(constraints), constraints);
      }
    }

    /** A node for each pointer register of function f. */
    method CreateRegisters(f: nat)
      requires f < |m.functions| && Inv(Keys(m, Registers(f, 0))) && Collected(m, t, constraints, |m.globals|, |m.globals|, f, 0)
      modifies this`t, nodeFactory
      ensures Inv(Keys(m, Instructions(f, 0))) && Collected(m, t, constraints, |m.globals|, |m.globals|, f, 0)
    {
      assert ModuleOk(m);
      hide Extends, Keys, Inv, Collected;
      FunctionPhasesMeet(m, f);
      for i := 0 to |m.functions[f].body|
        invariant Inv(Keys(m, Registers(f, i))) && ModuleOk(m) && Collected(m, t, constraints, |m.globals|, |m.globals|, f, 0)
      {
        RegisterKeys(m, f, i);
        if SetsPtr(m.functions[f].body[i]) {
          ghost var t0 := t;
          RegistersThere(f, i);
          var node := AddNode(ValueKey(InstV(f, i)), Keys(m, Registers(f, i)));
          CollectedStays(m, t0, t, constraints, |m.globals|, |m.globals|, f, 0);
        }
        assert Keys(m, Registers(f, i)) + iset{} == Keys(m, Registers(f, i));
      }
    }

    /** The scan of one function: first the registers, then the instructions. */
    method CollectFunction(f: nat)
      requires f < |m.functions| && Inv(Keys(m, Registers(f, 0))) && Collected(m, t, constraints, |m.globals|, |m.globals|, f, 0)
      modifies this`t, this`constraints, nodeFactory
      ensures Inv(Keys(m, Registers(f + 1, 0))) && Collected(m, t, constraints, |m.globals|, |m.globals|, f + 1, 0)
      ensures forall p :: AllHold(p, constraints) <==>
                AllHold(p, old(constraints)) && forall i | IsInst(m, f, i) :: InstMeant(m, t, p, f, i, InstAt(m, f, i))
    {
      assert ModuleOk(m);
      hide Extends, Keys, Inv, Collected, AllHold, InstMeant;
      var n := |m.functions[f].body|;
      ghost var start := constraints;
      FunctionPhasesMeet(m, f);
      CreateRegisters(f);
      for i := 0 to n
        invariant Inv(Keys(m, Instructions(f, i))) && ModuleOk(m) && Collected(m, t, constraints, |m.globals|, |m.globals|, f, i)
        invariant Collected(m, t, start, |m.globals|, |m.globals|, f, 0)
      {
        ghost var t0 := t;
        InstructionsThere(f, i);
        CollectConstraintsForInstruction(f, i);
        assert forall h, j :: Before(h, j, f, 0) ==> Before(h, j, f, i);
        CollectedStays(m, t0, t, start, |m.globals|, |m.globals|, f, 0);
      }
      CollectedFunction(m, t, constraints, f);
      forall p ensures AllHold(p, constraints) <==>
                AllHold(p, start) && forall i | IsInst(m, f, i) :: InstMeant(m, t, p, f, i, InstAt(m, f, i)) {
        FunctionMeans(m, t, p, f, start, constraints);
      }
    }

    /** A node for the object of an alloca. */
    method CreateAlloca(f: nat, i: nat) returns (objNode: nat)
      requires IsInst(m, f, i) && Inv(Keys(m, Instructions(f, i))) && Collected(m, t, constraints, |m.globals|, |m.globals|, f, i)
      requires m.functions[f].body[i].Alloca?
      modifies this`t, nodeFactory
      ensures Inv(Keys(m, Instructions(f, i + 1))) && Collected(m, t, constraints, |m.globals|, |m.globals|, f, i)
      ensures Extends(old(t), t) && objNode == ObjectNode(t, AllocaSite(f, i)) && ValueNode(t, InstV(f, i)) == ValueNode(old(t), InstV(f, i))
    {
      assert ModuleOk(m);
      hide Extends, Keys, Inv, Collected, ModuleOk;
      InstructionKeys(m, f, i);
      InstructionsThere(f, i);
      ghost var t0 := t;
      objNode := AddNode(ObjectKey(AllocaSite(f, i)), Keys(m, Instructions(f, i)));
      CollectedStays(m, t0, t, constraints, |m.globals|, |m.globals|, f, i);
      NodeStays(t0, t, ValueKey(InstV(f, i)));
    }

    /** The constraints of one instruction: they hold just where what is written out for it does. */
    method CollectConstraintsForInstruction(f: nat, i: nat)
      requires IsInst(m, f, i) && Inv(Keys(m, Instructions(f, i))) && Collected(m, t, constraints, |m.globals|, |m.globals|, f, i)
      modifies this`t, this`constraints, nodeFactory
      ensures Inv(Keys(m, Instructions(f, i + 1))) && Collected(m, t, constraints, |m.globals|, |m.globals|, f, i + 1) && Extends(old(t), t)
      ensures forall p :: AllHold(p, constraints) <==> AllHold(p, old(constraints)) && InstMeant(m, t, p, f, i, InstAt(m, f, i))
    {
      assert ModuleOk(m);
      ExtendsSelf(t);
      hide Extends, Keys, Inv, Collected, ModuleOk, PhiCons, ArgsCons, AllHold, InstMeant, PtsOf, ArgMeant, NodeFor, ValueNode, ObjectNode, ReturnNode, VarargNode, At;
      InstructionKeys(m, f, i);
      assert Keys(m, Instructions(f, i)) + iset{} == Keys(m, Instructions(f, i));
      var inst := m.functions[f].body[i];
      assert inst == InstAt(m, f, i);
      var dst := ValueNode(t, InstV(f, i));
      ghost var cs := constraints;
      match inst {
        case Alloca =>
          var objNode := CreateAlloca(f, i);
          constraints := constraints + [Constraint(AddrOf, dst, objNode)];
        case Load(p) => constraints := constraints + [Constraint(ConstraintType.Load, dst, NodeFor(t, f, p))];
        case Store(v, p) => constraints := constraints + [Constraint(ConstraintType.Store, NodeFor(t, f, p), NodeFor(t, f, v))];
        case Gep(p) => constraints := constraints + [Constraint(Copy, dst, NodeFor(t, f, p))];
        case BitCast(p) => constraints := constraints + [Constraint(Copy, dst, NodeFor(t, f, p))];
        case Phi(ps) => CollectPhi(f, dst, ps);
        case Select(a, b) =>
          constraints := constraints + [Constraint(Copy, dst, NodeFor(t, f, a))];
          constraints := constraints + [Constraint(Copy, dst, NodeFor(t, f, b))];
        case VaArg => constraints := constraints + [Constraint(Copy, dst, VarargNode(t, f))];
        case Call(callee, actuals, setsPtr) => AddConstraintForCall(f, i, callee, actuals, setsPtr);
        case Ret(r) =>
          if r.Some? {
            constraints := constraints + [Constraint(Copy, ReturnNode(t, f), NodeFor(t, f, r.value))];
          }
        case Branch(_) =>
        case Other =>
      }
      assert forall c :: c in constraints <==> c in cs || c in InstCons(m, t, f, i, inst);
      CollectedInst(m, t, cs, constraints, f, i);
      forall p ensures AllHold(p, constraints) <==> AllHold(p, cs) && InstMeant(m, t, p, f, i, inst) {
        AddedInst(m, t, p, f, i, inst, cs, constraints);
      }
    }

    /** The result of a call, and its arguments. */
    method AddConstraintForCall(f: nat, i: nat, callee: nat, actuals: seq<Actual>, setsPtr: bool)
      requires callee < |m.functions|
      modifies this`constraints
      ensures constraints == old(constraints) + InstCons(m, t, f, i, Call(callee, actuals, setsPtr))
      ensures forall p :: AllHold(p, constraints) <==> AllHold(p, old(constraints)) && InstMeant(m, t, p, f, i, Call(callee, actuals, setsPtr))
    {
      hide AllHold, InstMeant, ArgsCons, ArgMeant;
      if setsPtr {
        constraints := constraints + [Constraint(Copy, ValueNode(t, InstV(f, i)), ReturnNode(t, callee))];
      }
      AddArgumentConstraintForCall(f, callee, actuals);
      ghost var call := Call(callee, actuals, setsPtr);
      assert constraints == old(constraints) + InstCons(m, t, f, i, call);
      forall p ensures AllHold(p, constraints) <==> AllHold(p, old(constraints)) && InstMeant(m, t, p, f, i, call) {
        AddedInst(m, t, p, f, i, call, old(constraints), constraints);
      }
    }

    /** One copy for each incoming pointer. */
    method CollectPhi(f: nat, dst: nat, ps: seq<Operand>)
      modifies this`constraints
      ensures constraints == old(constraints) + PhiCons(t, f, dst, ps)
      ensures forall p :: AllHold(p, constraints) <==> AllHold(p, old(constraints)) && forall q | q in ps :: PtsOf(t, p, f, q) <= At(p, dst)
    {
      hide AllHold, PtsOf, At;
      assert ps[..0] == [];
      for k := 0 to |ps|
        invariant constraints == old(constraints) + PhiCons(t, f, dst, ps[..k])
      {
        assert ps[..k + 1][..k] == ps[..k];
        constraints := constraints + [Constraint(Copy, dst, NodeFor(t, f, ps[k]))];
      }
      assert ps[..|ps|] == ps;
      forall p ensures AllHold(p, constraints) <==> AllHold(p, old(constraints)) && forall q | q in ps :: PtsOf(t, p, f, q) <= At(p, dst) {
        PhiMeans(t, p, f, dst, ps);
        AllHoldJoin(p, old(constraints), PhiCons(t, f, dst, ps));
      }
    }

    /** The arguments of a call, to the parameters and then to the variable arguments. */
    method AddArgumentConstraintForCall(f: nat, callee: nat, actuals: seq<Actual>)
      requires callee < |m.functions|
      modifies this`constraints
      ensures constraints == old(constraints) + ArgsCons(m, t, f, callee, actuals, |actuals|)
      ensures forall p :: AllHold(p, constraints) <==>
                AllHold(p, old(constraints)) && forall k | 0 <= k < |actuals| :: ArgMeant(m, t, p, f, callee, actuals, k)
    {
      hide AllHold, ArgMeant;
      var fun := m.functions[callee];
      var k := 0;
      assert constraints == old(constraints) + ArgsCons(m, t, f, callee, actuals, k);
      hide NodeFor, ValueNode, VarargNode, ArgsCons;
      while k < |fun.formals| && k < |actuals|
        invariant k <= |fun.formals| && k <= |actuals|
        invariant constraints == old(constraints) + ArgsCons(m, t, f, callee, actuals, k)
      {
        var actual := actuals[k];
        ArgsNext(old(constraints), m, t, f, callee, actuals, k);
        if fun.formals[k] {
          var fIndex := ValueNode(t, ArgV(callee, k));
          if actual.PtrActual? {
            constraints := constraints + [Constraint(Copy, fIndex, NodeFor(t, f, actual.op))];
          } else {
            constraints := constraints + [Constraint(Copy, fIndex, UNIVERSAL_PTR)];
          }
        }
        k := k + 1;
      }
      if fun.isVarArg {
        while k < |actuals|
          invariant k <= |actuals| && (k < |actuals| ==> |fun.formals| <= k)
          invariant constraints == old(constraints) + ArgsCons(m, t, f, callee, actuals, k)
        {
          var actual := actuals[k];
          ArgsNext(old(constraints), m, t, f, callee, actuals, k);
          if actual.PtrActual? {
            constraints := constraints + [Constraint(Copy, VarargNode(t, callee), NodeFor(t, f, actual.op))];
          }
          k := k + 1;
        }
      } else {
        NoMoreArgs(m, t, f, callee, actuals, k, |actuals|);
      }
      forall p ensures AllHold(p, constraints) <==>
                AllHold(p, old(constraints)) && forall k | 0 <= k < |actuals| :: ArgMeant(m, t, p, f, callee, actuals, k) {
        ArgsMean(m, t, p, f, callee, actuals, |actuals|);
        AllHoldJoin(p, old(constraints), ArgsCons(m, t, f, callee, actuals, |actuals|));
      }
    }

    /** The constraints of the whole program, and nothing else. */
    method CollectConstraints()
      requires Inv(Keys(m, Globals(0))) && constraints == []
      modifies this`t, this`constraints, nodeFactory
      ensures Inv(Keys(m, Registers(|m.functions|, 0))) && InRange(constraints, |nodeFactory.root|) && SpecialOnly(constraints)
      ensures forall c :: c in constraints <==> Emits(m, t, c)
      ensures forall p :: AllHold(p, constraints) <==> Meant(m, t, p)
    {
      assert ModuleOk(m);
      hide Keys, Inv, ModuleOk, AllHold, Meant, InstMeant, GlobalMeant, SpecialMeant;
      constraints := constraints + [Constraint(AddrOf, UNIVERSAL_PTR, UNIVERSAL_OBJ)];
      constraints := constraints + [Constraint(ConstraintType.Store, UNIVERSAL_OBJ, UNIVERSAL_OBJ)];
      constraints := constraints + [Constraint(AddrOf, NULL_PTR, NULL_OBJ)];
      CollectedStart(m, t, constraints);
      hide Collected;
      CollectConstraintsForGlobals();
      for f := 0 to |m.functions|
        invariant Inv(Keys(m, Registers(f, 0))) && ModuleOk(m) && Collected(m, t, constraints, |m.globals|, |m.globals|, f, 0)
      {
        CollectFunction(f);
      }
      AllCollected();
      AllInRange();
      forall p ensures AllHold(p, constraints) <==> Meant(m, t, p) {
        AllMeant(m, t, p, constraints);
      }
    }
  }

  // ----- What the collected constraints mean -----

  lemma AllMeant(m: Module, t: Tables, p: PtsGraph, cs: seq<Constraint>)
    requires ModuleOk(m) && forall c :: c in cs <==> Emits(m, t, c)
    ensures AllHold(p, cs) <==> Meant(m, t, p)
  {
    SolvesIsMeant(m, t, p);
    hide Holds, Emits, Meant, ModuleOk;
  }

  lemma AllHoldUnion(p: PtsGraph, a: seq<Constraint>, b: seq<Constraint>, cs: seq<Constraint>)
    requires forall c :: c in cs <==> c in a || c in b
    ensures AllHold(p, cs) <==> AllHold(p, a) && AllHold(p, b)
  {
    hide Holds;
  }

  lemma AddedInst(m: Module, t: Tables, p: PtsGraph, f: nat, i: nat, inst: Inst, cs: seq<Constraint>, cs2: seq<Constraint>)
    requires inst.Call? ==> inst.callee < |m.functions|
    requires forall c :: c in cs2 <==> c in cs || c in InstCons(m, t, f, i, inst)
    ensures AllHold(p, cs2) <==> AllHold(p, cs) && InstMeant(m, t, p, f, i, inst)
  {
    hide AllHold, InstMeant, InstCons;
    AllHoldUnion(p, cs, InstCons(m, t, f, i, inst), cs2);
    InstMeans(m, t, p, f, i, inst);
  }

  lemma AddedInit(t: Tables, p: PtsGraph, n: nat, init: Init, cs: seq<Constraint>, cs2: seq<Constraint>)
    requires forall c :: c in cs2 <==> c in cs || InitEmits(t, n, init, c)
    ensures AllHold(p, cs2) <==> AllHold(p, cs) && InitMeant(t, p, n, init)
  {
    hide Holds, InitEmits, InitMeant;
    InitMeans(t, p, n, init);
  }

  lemma GlobalsMean(m: Module, t: Tables, p: PtsGraph, cs: seq<Constraint>)
    requires ModuleOk(m) && Collected(m, t, cs, |m.globals|, |m.globals|, 0, 0)
    ensures AllHold(p, cs) <==> SpecialMeant(p) && forall g | 0 <= g < |m.globals| :: GlobalMeant(t, p, g, m.globals[g])
  {
    forall c ensures !InstPart(m, t, c, 0, 0) {
    }
    hide Holds, GlobalCon, GlobalEmits, GlobalMeant, SpecialMeant, InstPart, ModuleOk;
    SpecialMeans(p);
    forall g | 0 <= g < |m.globals|
      ensures (forall c | c == GlobalCon(t, g) || GlobalEmits(t, g, m.globals[g], c) :: Holds(p, c)) <==> GlobalMeant(t, p, g, m.globals[g])
    {
      GlobalMeans(t, p, g, m.globals[g]);
    }
    if AllHold(p, cs) {
      assert forall c | GlobalPart(m, t, c, |m.globals|, |m.globals|) :: Holds(p, c);
    }
  }

  lemma FunctionMeans(m: Module, t: Tables, p: PtsGraph, f: nat, cs: seq<Constraint>, cs2: seq<Constraint>)
    requires ModuleOk(m) && f < |m.functions|
    requires Collected(m, t, cs, |m.globals|, |m.globals|, f, 0) && Collected(m, t, cs2, |m.globals|, |m.globals|, f + 1, 0)
    ensures AllHold(p, cs2) <==> AllHold(p, cs) && forall i | IsInst(m, f, i) :: InstMeant(m, t, p, f, i, InstAt(m, f, i))
  {
    hide Holds, InstCons, InstMeant, ModuleOk, GlobalPart;
    forall i | IsInst(m, f, i)
      ensures AllHold(p, InstCons(m, t, f, i, InstAt(m, f, i))) <==> InstMeant(m, t, p, f, i, InstAt(m, f, i))
    {
      InstMeans(m, t, p, f, i, InstAt(m, f, i));
    }
    forall c ensures c in cs2 <==> c in cs || exists i :: IsInst(m, f, i) && c in InstCons(m, t, f, i, InstAt(m, f, i)) {
      OneFunctionMore(m, t, c, f);
    }
    hide Collected;
    if AllHold(p, cs2) {
      forall i | IsInst(m, f, i) ensures AllHold(p, InstCons(m, t, f, i, InstAt(m, f, i))) {
      }
    }
  }

  lemma OneFunctionMore(m: Module, t: Tables, c: Constraint, f: nat)
    requires ModuleOk(m)
    ensures InstPart(m, t, c, f + 1, 0) <==>
              InstPart(m, t, c, f, 0) || exists i :: IsInst(m, f, i) && c in InstCons(m, t, f, i, InstAt(m, f, i))
  {
    hide InstCons, ModuleOk;
    if InstPart(m, t, c, f, 0) {
      var h, j :| IsInst(m, h, j) && Before(h, j, f, 0) && c in InstCons(m, t, h, j, InstAt(m, h, j));
      assert Before(h, j, f + 1, 0);
    }
    if i :| IsInst(m, f, i) && c in InstCons(m, t, f, i, InstAt(m, f, i)) {
      assert Before(f, i, f + 1, 0);
    }
  }

  lemma ExtendsSelf(t: Tables)
    ensures Extends(t, t)
  {
  }

  lemma ExtendsTrans(s: Tables, t: Tables, u: Tables)
    requires Extends(s, t) && Extends(t, u)
    ensures Extends(s, u)
  {
    hide Has, NodeOf;
  }

  lemma {:induction false} NoMoreArgs(m: Module, t: Tables, f: nat, callee: nat, actuals: seq<Actual>, k: nat, n: nat)
    requires callee < |m.functions| && k <= n <= |actuals| && !m.functions[callee].isVarArg
    requires k < n ==> |m.functions[callee].formals| <= k
    ensures ArgsCons(m, t, f, callee, actuals, n) == ArgsCons(m, t, f, callee, actuals, k)
  {
    if k < n {
      NoMoreArgs(m, t, f, callee, actuals, k, n - 1);
    }
  }

  lemma ElemsSnoc(t: Tables, n: nat, elems: seq<Init>, i: nat)
    requires i < |elems|
    ensures forall c :: (exists e | e in elems[..i + 1] :: InitEmits(t, n, e, c)) <==>
                          (exists e | e in elems[..i] :: InitEmits(t, n, e, c)) || InitEmits(t, n, elems[i], c)
  {
    assert elems[..i + 1] == elems[..i] + [elems[i]];
    hide InitEmits;
  }

  lemma CollectedStart(m: Module, t: Tables, cs: seq<Constraint>)
    requires ModuleOk(m) && cs == [Constraint(AddrOf, UNIVERSAL_PTR, UNIVERSAL_OBJ),
                                   Constraint(ConstraintType.Store, UNIVERSAL_OBJ, UNIVERSAL_OBJ), Constraint(AddrOf, NULL_PTR, NULL_OBJ)]
    ensures Collected(m, t, cs, 0, 0, 0, 0)
  {
    assert cs[0] in cs && cs[1] in cs && cs[2] in cs;
  }

  lemma CollectedGlobal(m: Module, t: Tables, cs: seq<Constraint>, g: nat)
    requires ModuleOk(m) && Collected(m, t, cs, g, 0, 0, 0)
    ensures Collected(m, t, cs + [GlobalCon(t, g)], g + 1, 0, 0, 0)
  {
    hide GlobalCon, InstPart, ModuleOk;
    forall c ensures GlobalPart(m, t, c, g + 1, 0) <==> GlobalPart(m, t, c, g, 0) || c == GlobalCon(t, g) {
    }
  }

  lemma CollectedInit(m: Module, t: Tables, cs: seq<Constraint>, cs2: seq<Constraint>, g: nat)
    requires ModuleOk(m) && Collected(m, t, cs, |m.globals|, g, 0, 0) && g < |m.globals|
    requires forall c :: c in cs2 <==> c in cs || GlobalEmits(t, g, m.globals[g], c)
    ensures Collected(m, t, cs2, |m.globals|, g + 1, 0, 0)
  {
    hide GlobalEmits, GlobalCon, InstPart, ModuleOk;
    forall c ensures GlobalPart(m, t, c, |m.globals|, g + 1) <==> GlobalPart(m, t, c, |m.globals|, g) || GlobalEmits(t, g, m.globals[g], c) {
    }
  }

  lemma CollectedInst(m: Module, t: Tables, cs: seq<Constraint>, cs2: seq<Constraint>, f: nat, i: nat)
    requires ModuleOk(m) && IsInst(m, f, i) && Collected(m, t, cs, |m.globals|, |m.globals|, f, i)
    requires forall c :: c in cs2 <==> c in cs || c in InstCons(m, t, f, i, InstAt(m, f, i))
    ensures Collected(m, t, cs2, |m.globals|, |m.globals|, f, i + 1)
  {
    hide InstCons, GlobalPart, ModuleOk;
    forall c ensures InstPart(m, t, c, f, i + 1) <==> InstPart(m, t, c, f, i) || c in InstCons(m, t, f, i, InstAt(m, f, i)) {
      if InstPart(m, t, c, f, i) {
        var h, j :| IsInst(m, h, j) && Before(h, j, f, i) && c in InstCons(m, t, h, j, InstAt(m, h, j));
        assert Before(h, j, f, i + 1);
      }
      assert Before(f, i, f, i + 1);
    }
  }

  lemma CollectedFunction(m: Module, t: Tables, cs: seq<Constraint>, f: nat)
    requires ModuleOk(m) && f < |m.functions| && Collected(m, t, cs, |m.globals|, |m.globals|, f, |m.functions[f].body|)
    ensures Collected(m, t, cs, |m.globals|, |m.globals|, f + 1, 0)
  {
    hide InstCons, GlobalPart, ModuleOk;
    forall c ensures InstPart(m, t, c, f + 1, 0) <==> InstPart(m, t, c, f, |m.functions[f].body|) {
      if InstPart(m, t, c, f + 1, 0) {
        var h, j :| IsInst(m, h, j) && Before(h, j, f + 1, 0) && c in InstCons(m, t, h, j, InstAt(m, h, j));
        assert Before(h, j, f, |m.functions[f].body|);
      }
      if InstPart(m, t, c, f, |m.functions[f].body|) {
        var h, j :| IsInst(m, h, j) && Before(h, j, f, |m.functions[f].body|) && c in InstCons(m, t, h, j, InstAt(m, h, j));
        assert Before(h, j, f + 1, 0);
      }
    }
  }

  lemma EmitsParts(m: Module, t: Tables, c: Constraint)
    requires ModuleOk(m)
    ensures Emits(m, t, c) <==> GlobalPart(m, t, c, |m.globals|, |m.globals|) || InstPart(m, t, c, |m.functions|, 0)
  {
    hide InstCons, GlobalEmits, GlobalCon, ModuleOk;
    if f, i :| IsInst(m, f, i) && c in InstCons(m, t, f, i, InstAt(m, f, i)) {
      assert Before(f, i, |m.functions|, 0);
    }
  }

  // ----- All constraints are about nodes -----

  lemma HasInRange(t: Tables, size: nat, k: Key)
    requires Numbered(t, size) && Has(t, k)
    ensures 4 <= NodeOf(t, k) < size
  {
  }

  lemma {:induction false} ConstInRange(m: Module, t: Tables, size: nat, c: Const)
    requires Numbered(t, size) && ConstOk(m, c) && forall k | GlobalKey(m, k) :: Has(t, k)
    ensures 2 <= ConstNode(t, c) < size && 2 <= ConstObject(t, c) < size
  {
    match c
    case GlobalAddr(g) =>
      HasInRange(t, size, ValueKey(GlobalV(g)));
      HasInRange(t, size, ObjectKey(GlobalSite(g)));
    case NullConst =>
    case GepOf(d) => ConstInRange(m, t, size, d);
    case CastOf(d) => ConstInRange(m, t, size, d);
  }

  lemma OperandInRange(m: Module, t: Tables, size: nat, f: nat, op: Operand)
    requires f < |m.functions| && OperandOk(m, m.functions[f], op) && Numbered(t, size) && Ready(m, t, f)
    ensures 2 <= NodeFor(t, f, op) < size
  {
    if op.Imm? {
      ConstInRange(m, t, size, op.c);
    } else {
      assert InstKey(m, OperandKey(f, op)) || FunctionKey(m, OperandKey(f, op));
      HasInRange(t, size, OperandKey(f, op));
    }
  }

  lemma {:induction false} InitInRange(m: Module, t: Tables, size: nat, n: nat, init: Init, c: Constraint)
    requires Numbered(t, size) && InitOk(m, init) && 4 <= n < size && InitEmits(t, n, init, c) && forall k | GlobalKey(m, k) :: Has(t, k)
    ensures 2 <= c.dest < size && 2 <= c.src < size
  {
    match init
    case PtrInit(k) => ConstInRange(m, t, size, k);
    case Aggregate(es) =>
      var e :| e in es && InitEmits(t, n, e, c);
      InitInRange(m, t, size, n, e, c);
    case _ =>
  }

  lemma {:induction false} PhiInRange(m: Module, t: Tables, size: nat, f: nat, dst: nat, ps: seq<Operand>, c: Constraint)
    requires f < |m.functions| && Numbered(t, size) && Ready(m, t, f) && 4 <= dst < size
    requires (forall p | p in ps :: OperandOk(m, m.functions[f], p)) && c in PhiCons(t, f, dst, ps)
    ensures 2 <= c.dest < size && 2 <= c.src < size
  {
    var last := ps[|ps| - 1];
    assert last in ps;
    if c in PhiCons(t, f, dst, ps[..|ps| - 1]) {
      PhiInRange(m, t, size, f, dst, ps[..|ps| - 1], c);
    } else {
      OperandInRange(m, t, size, f, last);
    }
  }

  /** Argument k is no pointer, but its parameter is. */
  predicate IntForPtr(m: Module, callee: nat, actuals: seq<Actual>, k: nat) {
    callee < |m.functions| && k < |actuals| && k < |m.functions[callee].formals| && m.functions[callee].formals[k] && actuals[k].IntActual?
  }

  /** Some call passes something else for a pointer. */
  ghost predicate CallsWithInt(inst: Inst, m: Module) {
    inst.Call? && exists k :: IntForPtr(m, inst.callee, inst.actuals, k)
  }

  ghost predicate PassesInt(m: Module) {
    exists f: nat, i: nat :: IsInst(m, f, i) && CallsWithInt(m.functions[f].body[i], m)
  }

  lemma {:induction false} ArgsInRange(m: Module, t: Tables, size: nat, f: nat, callee: nat, actuals: seq<Actual>, n: nat, c: Constraint)
    requires f < |m.functions| && callee < |m.functions| && n <= |actuals| && Numbered(t, size) && Ready(m, t, f)
    requires (forall a | a in actuals && a.PtrActual? :: OperandOk(m, m.functions[f], a.op)) && c in ArgsCons(m, t, f, callee, actuals, n)
    ensures 2 <= c.dest < size && c.src < size
    ensures c.src < 2 ==> c.ty.Copy? && c.src == 0 && exists k :: IntForPtr(m, callee, actuals, k)
  {
    if c in ArgsCons(m, t, f, callee, actuals, n - 1) {
      ArgsInRange(m, t, size, f, callee, actuals, n - 1, c);
    } else {
      var fun, a := m.functions[callee], actuals[n - 1];
      assert a in actuals;
      if a.PtrActual? {
        OperandInRange(m, t, size, f, a.op);
      }
      if n - 1 < |fun.formals| {
        assert a.IntActual? ==> IntForPtr(m, callee, actuals, n - 1);
        assert FunctionKey(m, ValueKey(ArgV(callee, n - 1)));
        HasInRange(t, size, ValueKey(ArgV(callee, n - 1)));
      } else {
        assert FunctionKey(m, VarargKey(callee));
        HasInRange(t, size, VarargKey(callee));
      }
    }
  }

  lemma InstInRange(m: Module, t: Tables, size: nat, f: nat, i: nat, c: Constraint)
    requires ModuleOk(m) && IsInst(m, f, i) && Numbered(t, size) && Ready(m, t, f)
    requires InstAt(m, f, i).Alloca? ==> Has(t, ObjectKey(AllocaSite(f, i)))
    requires c in InstCons(m, t, f, i, InstAt(m, f, i))
    ensures 2 <= c.dest < size && c.src < size
    ensures c.src < 2 ==> c.ty.Copy? && c.src == 0 && CallsWithInt(InstAt(m, f, i), m)
  {
    var inst := InstAt(m, f, i);
    if SetsPtr(inst) {
      assert InstKey(m, ValueKey(InstV(f, i)));
      HasInRange(t, size, ValueKey(InstV(f, i)));
    }
    match inst
    case Alloca => HasInRange(t, size, ObjectKey(AllocaSite(f, i)));
    case Load(p) => OperandInRange(m, t, size, f, p);
    case Store(v, p) =>
      OperandInRange(m, t, size, f, v);
      OperandInRange(m, t, size, f, p);
    case Gep(p) => OperandInRange(m, t, size, f, p);
    case BitCast(p) => OperandInRange(m, t, size, f, p);
    case Phi(ps) => PhiInRange(m, t, size, f, ValueNode(t, InstV(f, i)), ps, c);
    case Select(a, b) =>
      OperandInRange(m, t, size, f, a);
      OperandInRange(m, t, size, f, b);
    case VaArg =>
      assert FunctionKey(m, VarargKey(f));
      HasInRange(t, size, VarargKey(f));
    case Call(callee, actuals, setsPtr) =>
      if setsPtr {
        assert FunctionKey(m, ReturnKey(callee));
        HasInRange(t, size, ReturnKey(callee));
      }
      if c in ArgsCons(m, t, f, callee, actuals, |actuals|) {
        ArgsInRange(m, t, size, f, callee, actuals, |actuals|, c);
      }
    case Ret(r) =>
      OperandInRange(m, t, size, f, r.value);
      assert FunctionKey(m, ReturnKey(f));
      HasInRange(t, size, ReturnKey(f));
  }

  /** All nodes of the program are there. */
  ghost predicate Complete(m: Module, t: Tables, size: nat) {
    && Numbered(t, size)
    && (forall f: nat | f < |m.functions| :: Ready(m, t, f))
    && (forall k | AllocaKey(m, k) || GlobalKey(m, k) :: Has(t, k))
  }

  lemma EmitsInRange(m: Module, t: Tables, size: nat, c: Constraint)
    requires ModuleOk(m) && Emits(m, t, c) && Complete(m, t, size)
    ensures c.dest < size && c.src < size
    ensures c.dest < 2 ==> c.src == 1 && c.dest == (if c.ty.AddrOf? then 0 else 1) && !c.ty.Copy? && !c.ty.Load?
    ensures c.src == 0 ==> c.ty.Copy? && PassesInt(m)
    ensures c.src == 1 && c.ty.AddrOf? ==> c.dest == 0
  {
    if g :| 0 <= g < |m.globals| && (c == GlobalCon(t, g) || GlobalEmits(t, g, m.globals[g], c)) {
      HasInRange(t, size, ValueKey(GlobalV(g)));
      HasInRange(t, size, ObjectKey(GlobalSite(g)));
      assert m.globals[g] in m.globals;
      if m.globals[g].Defined? && GlobalEmits(t, g, m.globals[g], c) {
        InitInRange(m, t, size, ObjectNode(t, GlobalSite(g)), m.globals[g].init, c);
      }
    } else if f, i :| IsInst(m, f, i) && c in InstCons(m, t, f, i, InstAt(m, f, i)) {
      assert InstAt(m, f, i).Alloca? ==> AllocaKey(m, ObjectKey(AllocaSite(f, i)));
      InstInRange(m, t, size, f, i, c);
    }
  }
}
