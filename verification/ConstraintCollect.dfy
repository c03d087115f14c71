/** Turning a program into constraints, and why their solutions cover every run. */
module ConstraintCollect {
  import opened Constraints
  import opened Programs

  const UNIVERSAL_PTR: nat := 0
  const UNIVERSAL_OBJ: nat := 1
  const NULL_PTR: nat := 2
  const NULL_OBJ: nat := 3

  datatype Value = GlobalV(g: nat) | ArgV(f: nat, i: nat) | InstV(f: nat, i: nat)

  /** The node numbers of values, objects, return values and variable arguments. */
  datatype Tables = Tables(value: map<Value, nat>, object_: map<Site, nat>, ret: map<nat, nat>, vararg: map<nat, nat>)

  const INVALID_INDEX: nat := 0xffff_ffff

  function ValueNode(t: Tables, v: Value): nat {
    if v in t.value then t.value[v] else INVALID_INDEX
  }

  function ObjectNode(t: Tables, s: Site): nat {
    if s in t.object_ then t.object_[s] else INVALID_INDEX
  }

  function ReturnNode(t: Tables, f: nat): nat {
    if f in t.ret then t.ret[f] else INVALID_INDEX
  }

  function VarargNode(t: Tables, f: nat): nat {
    if f in t.vararg then t.vararg[f] else INVALID_INDEX
  }

  /** A pointer into a global has the node of the global. */
  function ConstNode(t: Tables, c: Const): nat {
    match c
    case GlobalAddr(g) => ValueNode(t, GlobalV(g))
    case NullConst => NULL_PTR
    case GepOf(d) => ConstNode(t, d)
    case CastOf(d) => ConstNode(t, d)
  }

  function ConstObject(t: Tables, c: Const): nat {
    match c
    case GlobalAddr(g) => ObjectNode(t, GlobalSite(g))
    case NullConst => NULL_OBJ
    case GepOf(d) => ConstObject(t, d)
    case CastOf(d) => ConstObject(t, d)
  }

  function NodeFor(t: Tables, f: nat, op: Operand): nat {
    match op
    case Reg(i) => ValueNode(t, InstV(f, i))
    case Arg(i) => ValueNode(t, ArgV(f, i))
    case Imm(c) => ConstNode(t, c)
  }

  // ----- The constraints of a program -----

  predicate InitEmits(t: Tables, n: nat, init: Init, c: Constraint) {
    match init
    case PtrInit(k) => c == Constraint(AddrOf, n, ConstObject(t, k))
    case ZeroInit => c == Constraint(Copy, n, NULL_OBJ)
    case Aggregate(es) => exists e | e in es :: InitEmits(t, n, e, c)
    case _ => false
  }

  predicate GlobalEmits(t: Tables, g: nat, global: Global, c: Constraint) {
    match global
    case External => c == Constraint(Copy, ObjectNode(t, GlobalSite(g)), UNIVERSAL_OBJ)
    case Defined(init) => InitEmits(t, ObjectNode(t, GlobalSite(g)), init, c)
  }

  /** The constraint for argument k of a call in function f. */
  function ArgCons(m: Module, t: Tables, f: nat, callee: nat, actuals: seq<Actual>, k: nat): seq<Constraint>
    requires callee < |m.functions| && k < |actuals|
  {
    var fun, a := m.functions[callee], actuals[k];
    if k < |fun.formals| then
      if !fun.formals[k] then []
      else [Constraint(Copy, ValueNode(t, ArgV(callee, k)), if a.PtrActual? then NodeFor(t, f, a.op) else UNIVERSAL_PTR)]
    else if fun.isVarArg && a.PtrActual? then [Constraint(Copy, VarargNode(t, callee), NodeFor(t, f, a.op))]
    else []
  }

  /** Those for the first n arguments. */
  function ArgsCons(m: Module, t: Tables, f: nat, callee: nat, actuals: seq<Actual>, n: nat): seq<Constraint>
    requires callee < |m.functions| && n <= |actuals|
  {
    if n == 0 then [] else ArgsCons(m, t, f, callee, actuals, n - 1) + ArgCons(m, t, f, callee, actuals, n - 1)
  }

  function PhiCons(t: Tables, f: nat, dst: nat, ps: seq<Operand>): seq<Constraint> {
    if ps == [] then [] else PhiCons(t, f, dst, ps[..|ps| - 1]) + [Constraint(Copy, dst, NodeFor(t, f, ps[|ps| - 1]))]
  }

  function InstCons(m: Module, t: Tables, f: nat, i: nat, inst: Inst): seq<Constraint>
    requires inst.Call? ==> inst.callee < |m.functions|
  {
    var dst := ValueNode(t, InstV(f, i));
    match inst
    case Alloca => [Constraint(AddrOf, dst, ObjectNode(t, AllocaSite(f, i)))]
    case Load(p) => [Constraint(ConstraintType.Load, dst, NodeFor(t, f, p))]
    case Store(v, p) => [Constraint(ConstraintType.Store, NodeFor(t, f, p), NodeFor(t, f, v))]
    case Gep(p) => [Constraint(Copy, dst, NodeFor(t, f, p))]
    case BitCast(p) => [Constraint(Copy, dst, NodeFor(t, f, p))]
    case Phi(ps) => PhiCons(t, f, dst, ps)
    case Select(a, b) => [Constraint(Copy, dst, NodeFor(t, f, a)), Constraint(Copy, dst, NodeFor(t, f, b))]
    case VaArg => [Constraint(Copy, dst, VarargNode(t, f))]
    case Call(callee, actuals, setsPtr) =>
      (if setsPtr then [Constraint(Copy, dst, ReturnNode(t, callee))] else [])
      + ArgsCons(m, t, f, callee, actuals, |actuals|)
    case Ret(r) => if r.Some? then [Constraint(Copy, ReturnNode(t, f), NodeFor(t, f, r.value))] else []
    case _ => []
  }

  predicate IsInst(m: Module, f: nat, i: nat) {
    f < |m.functions| && i < |m.functions[f].body|
  }

  /** c is one of the constraints of the program. */
  ghost predicate Emits(m: Module, t: Tables, c: Constraint)
    requires ModuleOk(m)
  {
    || c == Constraint(AddrOf, UNIVERSAL_PTR, UNIVERSAL_OBJ)
    || c == Constraint(ConstraintType.Store, UNIVERSAL_OBJ, UNIVERSAL_OBJ)
    || c == Constraint(AddrOf, NULL_PTR, NULL_OBJ)
    || (exists g | 0 <= g < |m.globals| :: c == GlobalCon(t, g) || GlobalEmits(t, g, m.globals[g], c))
    || (exists f, i :: IsInst(m, f, i) && c in InstCons(m, t, f, i, InstAt(m, f, i)))
  }

  function GlobalCon(t: Tables, g: nat): Constraint {
    Constraint(AddrOf, ValueNode(t, GlobalV(g)), ObjectNode(t, GlobalSite(g)))
  }

  function InstAt(m: Module, f: nat, i: nat): (inst: Inst)
    requires ModuleOk(m) && IsInst(m, f, i)
    ensures InstOk(m, m.functions[f], inst)
  {
    assert m.functions[f] in m.functions && m.functions[f].body[i] in m.functions[f].body;
    m.functions[f].body[i]
  }

  // ----- Every solution covers every run -----

  /** p solves the constraints of the program. */
  ghost predicate Solves(m: Module, t: Tables, p: PtsGraph)
    requires ModuleOk(m)
  {
    forall c | Emits(m, t, c) :: Holds(p, c)
  }

  /** What v points to is in the points-to set of node n. */
  ghost predicate PtrIn(t: Tables, p: PtsGraph, sites: seq<Site>, n: nat, v: Ptr) {
    v.Addr? ==> v.obj < |sites| && ObjectNode(t, sites[v.obj]) in At(p, n)
  }

  ghost predicate FrameSound(m: Module, t: Tables, p: PtsGraph, sites: seq<Site>, fr: Frame) {
    && fr.f < |m.functions|
    && (forall i | i in fr.regs :: PtrIn(t, p, sites, ValueNode(t, InstV(fr.f, i)), fr.regs[i]))
    && (forall i | i in fr.args :: PtrIn(t, p, sites, ValueNode(t, ArgV(fr.f, i)), fr.args[i]))
    && (forall v | v in fr.varargs :: PtrIn(t, p, sites, VarargNode(t, fr.f), v))
  }

  ghost predicate MemSound(t: Tables, p: PtsGraph, sites: seq<Site>, mem: map<(nat, int), Ptr>) {
    forall o, k | (o, k) in mem :: o < |sites| && PtrIn(t, p, sites, ObjectNode(t, sites[o]), mem[(o, k)])
  }

  /** Each frame but the last is at the call that made the next one. */
  ghost predicate StackOk(m: Module, frames: seq<Frame>) {
    forall k | 0 <= k < |frames| - 1 ::
      IsInst(m, frames[k].f, frames[k].pc) && CallsNext(m.functions[frames[k].f].body[frames[k].pc], frames[k + 1])
  }

  predicate CallsNext(inst: Inst, next: Frame) {
    inst.Call? && inst.callee == next.f
  }

  /** Every register, argument and memory cell that holds the address of an object from a site has
      that site's node in its points-to set. */
  ghost predicate Sound(m: Module, t: Tables, p: PtsGraph, s: State) {
    && s.frames != []
    && (forall k | 0 <= k < |s.frames| :: FrameSound(m, t, p, s.sites, s.frames[k]))
    && MemSound(t, p, s.sites, s.mem)
    && StackOk(m, s.frames)
    && |m.globals| <= |s.sites| && (forall g | 0 <= g < |m.globals| :: s.sites[g] == GlobalSite(g))
  }

  lemma GlobalsAreIn(m: Module, t: Tables, p: PtsGraph, g: nat)
    requires ModuleOk(m) && Solves(m, t, p) && g < |m.globals|
    ensures ObjectNode(t, GlobalSite(g)) in At(p, ValueNode(t, GlobalV(g)))
  {
    var c := GlobalCon(t, g);
    assert Emits(m, t, c);
    assert Holds(p, c);
  }

  lemma {:induction false} ConstSound(m: Module, t: Tables, p: PtsGraph, sites: seq<Site>, c: Const, v: Ptr)
    requires ModuleOk(m) && Solves(m, t, p) && ConstOk(m, c) && EvalConst(c, v)
    requires |m.globals| <= |sites| && forall g | 0 <= g < |m.globals| :: sites[g] == GlobalSite(g)
    ensures PtrIn(t, p, sites, ConstNode(t, c), v)
    ensures v.Addr? ==> v.obj < |m.globals| && ObjectNode(t, sites[v.obj]) == ConstObject(t, c)
  {
    match c
    case GlobalAddr(g) => GlobalsAreIn(m, t, p, g);
    case NullConst =>
    case GepOf(d) =>
      var w :| EvalConst(d, w) && Moved(w, v);
      ConstSound(m, t, p, sites, d, w);
    case CastOf(d) => ConstSound(m, t, p, sites, d, v);
  }

  lemma EvalSound(m: Module, t: Tables, p: PtsGraph, s: State, fr: Frame, op: Operand, v: Ptr)
    requires ModuleOk(m) && Solves(m, t, p) && Sound(m, t, p, s) && FrameSound(m, t, p, s.sites, fr)
    requires OperandOk(m, m.functions[fr.f], op) && Eval(fr, op, v)
    ensures PtrIn(t, p, s.sites, NodeFor(t, fr.f, op), v)
  {
    if op.Imm? {
      ConstSound(m, t, p, s.sites, op.c, v);
    }
  }

  lemma EmitsInst(m: Module, t: Tables, p: PtsGraph, f: nat, i: nat, c: Constraint)
    requires ModuleOk(m) && Solves(m, t, p) && IsInst(m, f, i) && c in InstCons(m, t, f, i, InstAt(m, f, i))
    ensures Holds(p, c)
  {
    assert Emits(m, t, c);
  }

  lemma CopyIn(t: Tables, p: PtsGraph, sites: seq<Site>, dst: nat, src: nat, v: Ptr)
    requires PtrIn(t, p, sites, src, v) && Holds(p, Constraint(Copy, dst, src))
    ensures PtrIn(t, p, sites, dst, v)
  {
  }

  /** Setting the current register of the last frame. */
  lemma SetRegSound(m: Module, t: Tables, p: PtsGraph, s: State, v: Ptr)
    requires Sound(m, t, p, s) && PtrIn(t, p, s.sites, ValueNode(t, InstV(Top(s).f, Top(s).pc)), v)
    ensures Sound(m, t, p, WithTop(s, SetReg(Top(s), v)))
  {
    hide PtrIn, MemSound;
  }

  lemma MoveSound(m: Module, t: Tables, p: PtsGraph, s: State, pc: nat)
    requires Sound(m, t, p, s)
    ensures Sound(m, t, p, WithTop(s, Top(s).(pc := pc)))
  {
    hide PtrIn, MemSound;
  }

  lemma MoreSites(t: Tables, p: PtsGraph, sites: seq<Site>, site: Site, n: nat, v: Ptr)
    requires PtrIn(t, p, sites, n, v)
    ensures PtrIn(t, p, sites + [site], n, v)
  {
  }

  lemma AllocSound(m: Module, t: Tables, p: PtsGraph, s: State, site: Site)
    requires Sound(m, t, p, s)
    ensures Sound(m, t, p, s.(sites := s.sites + [site]))
  {
    forall n, v | PtrIn(t, p, s.sites, n, v) ensures PtrIn(t, p, s.sites + [site], n, v) {
      MoreSites(t, p, s.sites, site, n, v);
    }
    hide PtrIn;
  }

  // ----- One step -----

  lemma AllocaStep(m: Module, t: Tables, p: PtsGraph, s: State, u: State)
    requires ModuleOk(m) && Solves(m, t, p) && Sound(m, t, p, s) && IsInst(m, Top(s).f, Top(s).pc)
    requires InstAt(m, Top(s).f, Top(s).pc).Alloca? && StepInst(m, s, Top(s), InstAt(m, Top(s).f, Top(s).pc), u)
    ensures Sound(m, t, p, u)
  {
    var fr := Top(s);
    var site := AllocaSite(fr.f, fr.pc);
    EmitsInst(m, t, p, fr.f, fr.pc, InstCons(m, t, fr.f, fr.pc, InstAt(m, fr.f, fr.pc))[0]);
    AllocSound(m, t, p, s, site);
    var s1 := s.(sites := s.sites + [site]);
    SetRegSound(m, t, p, s1, Addr(|s.sites|, 0));
    assert u == WithTop(s1, SetReg(Top(s1), Addr(|s.sites|, 0)));
  }

  lemma LoadStep(m: Module, t: Tables, p: PtsGraph, s: State, u: State)
    requires ModuleOk(m) && Solves(m, t, p) && Sound(m, t, p, s) && IsInst(m, Top(s).f, Top(s).pc)
    requires InstAt(m, Top(s).f, Top(s).pc).Load? && StepInst(m, s, Top(s), InstAt(m, Top(s).f, Top(s).pc), u)
    ensures Sound(m, t, p, u)
  {
    var fr := Top(s);
    var inst := InstAt(m, fr.f, fr.pc);
    EmitsInst(m, t, p, fr.f, fr.pc, InstCons(m, t, fr.f, fr.pc, inst)[0]);
    var a :| Eval(fr, inst.ptr, a) && u == WithTop(s, SetReg(fr, Read(s, a)));
    EvalSound(m, t, p, s, fr, inst.ptr, a);
    SetRegSound(m, t, p, s, Read(s, a));
  }

  lemma StoreStep(m: Module, t: Tables, p: PtsGraph, s: State, u: State)
    requires ModuleOk(m) && Solves(m, t, p) && Sound(m, t, p, s) && IsInst(m, Top(s).f, Top(s).pc)
    requires InstAt(m, Top(s).f, Top(s).pc).Store? && StepInst(m, s, Top(s), InstAt(m, Top(s).f, Top(s).pc), u)
    ensures Sound(m, t, p, u)
  {
    var fr := Top(s);
    var inst := InstAt(m, fr.f, fr.pc);
    EmitsInst(m, t, p, fr.f, fr.pc, InstCons(m, t, fr.f, fr.pc, inst)[0]);
    var x, a: Ptr :| Eval(fr, inst.val, x) && Eval(fr, inst.ptr, a) && a.Addr?
      && u == WithTop(s, fr.(pc := fr.pc + 1)).(mem := s.mem[(a.obj, a.offset) := x]);
    EvalSound(m, t, p, s, fr, inst.val, x);
    EvalSound(m, t, p, s, fr, inst.ptr, a);
    MoveSound(m, t, p, s, fr.pc + 1);
    assert PtrIn(t, p, s.sites, ObjectNode(t, s.sites[a.obj]), x);
    hide PtrIn, StackOk, FrameSound;
  }

  /** Instructions that copy a pointer they compute to their register. */
  lemma CopyStep(m: Module, t: Tables, p: PtsGraph, s: State, op: Operand, w: Ptr, v: Ptr)
    requires ModuleOk(m) && Solves(m, t, p) && Sound(m, t, p, s) && IsInst(m, Top(s).f, Top(s).pc)
    requires OperandOk(m, m.functions[Top(s).f], op) && Eval(Top(s), op, w) && Moved(w, v)
    requires Constraint(Copy, ValueNode(t, InstV(Top(s).f, Top(s).pc)), NodeFor(t, Top(s).f, op))
          in InstCons(m, t, Top(s).f, Top(s).pc, InstAt(m, Top(s).f, Top(s).pc))
    ensures Sound(m, t, p, WithTop(s, SetReg(Top(s), v)))
  {
    var fr := Top(s);
    EvalSound(m, t, p, s, fr, op, w);
    EmitsInst(m, t, p, fr.f, fr.pc, Constraint(Copy, ValueNode(t, InstV(fr.f, fr.pc)), NodeFor(t, fr.f, op)));
    assert PtrIn(t, p, s.sites, NodeFor(t, fr.f, op), v);
    CopyIn(t, p, s.sites, ValueNode(t, InstV(fr.f, fr.pc)), NodeFor(t, fr.f, op), v);
    SetRegSound(m, t, p, s, v);
  }

  lemma {:induction false} PhiConsHas(t: Tables, f: nat, dst: nat, ps: seq<Operand>, op: Operand)
    requires op in ps
    ensures Constraint(Copy, dst, NodeFor(t, f, op)) in PhiCons(t, f, dst, ps)
  {
    if op != ps[|ps| - 1] {
      PhiConsHas(t, f, dst, ps[..|ps| - 1], op);
    }
  }

  lemma CopiesStep(m: Module, t: Tables, p: PtsGraph, s: State, u: State)
    requires ModuleOk(m) && Solves(m, t, p) && Sound(m, t, p, s) && IsInst(m, Top(s).f, Top(s).pc)
    requires StepInst(m, s, Top(s), InstAt(m, Top(s).f, Top(s).pc), u)
    requires var inst := InstAt(m, Top(s).f, Top(s).pc); inst.Gep? || inst.BitCast? || inst.Phi? || inst.Select?
    ensures Sound(m, t, p, u)
  {
    var fr := Top(s);
    var inst := InstAt(m, fr.f, fr.pc);
    hide Eval, OperandOk, Sound;
    match inst
    case Gep(op) =>
      var w, v :| Eval(fr, op, w) && Moved(w, v) && u == WithTop(s, SetReg(fr, v));
      CopyStep(m, t, p, s, op, w, v);
    case BitCast(op) =>
      var v :| Eval(fr, op, v) && u == WithTop(s, SetReg(fr, v));
      CopyStep(m, t, p, s, op, v, v);
    case Phi(ps) =>
      var op, v :| op in ps && Eval(fr, op, v) && u == WithTop(s, SetReg(fr, v));
      PhiConsHas(t, fr.f, ValueNode(t, InstV(fr.f, fr.pc)), ps, op);
      CopyStep(m, t, p, s, op, v, v);
    case Select(a, b) =>
      var op, v :| (op == a || op == b) && Eval(fr, op, v) && u == WithTop(s, SetReg(fr, v));
      CopyStep(m, t, p, s, op, v, v);
  }

  lemma VaArgStep(m: Module, t: Tables, p: PtsGraph, s: State, u: State)
    requires ModuleOk(m) && Solves(m, t, p) && Sound(m, t, p, s) && IsInst(m, Top(s).f, Top(s).pc)
    requires InstAt(m, Top(s).f, Top(s).pc).VaArg? && StepInst(m, s, Top(s), InstAt(m, Top(s).f, Top(s).pc), u)
    ensures Sound(m, t, p, u)
  {
    var fr := Top(s);
    var v :| v in fr.varargs && u == WithTop(s, SetReg(fr, v));
    EmitsInst(m, t, p, fr.f, fr.pc, InstCons(m, t, fr.f, fr.pc, InstAt(m, fr.f, fr.pc))[0]);
    CopyIn(t, p, s.sites, ValueNode(t, InstV(fr.f, fr.pc)), VarargNode(t, fr.f), v);
    SetRegSound(m, t, p, s, v);
  }

  lemma {:induction false} ArgsConsHas(m: Module, t: Tables, f: nat, callee: nat, actuals: seq<Actual>, n: nat, k: nat, c: Constraint)
    requires callee < |m.functions| && k < n <= |actuals| && c in ArgCons(m, t, f, callee, actuals, k)
    ensures c in ArgsCons(m, t, f, callee, actuals, n)
  {
    if k != n - 1 {
      ArgsConsHas(m, t, f, callee, actuals, n - 1, k, c);
    }
  }

  /** A pointer that is passed is in the points-to set of what receives it. */
  lemma PassedSound(m: Module, t: Tables, p: PtsGraph, s: State, k: nat, c: Constraint, v: Ptr)
    requires ModuleOk(m) && Solves(m, t, p) && Sound(m, t, p, s) && IsInst(m, Top(s).f, Top(s).pc)
    requires InstAt(m, Top(s).f, Top(s).pc).Call?
    requires var inst := InstAt(m, Top(s).f, Top(s).pc);
      && k < |inst.actuals| && inst.actuals[k].PtrActual? && Eval(Top(s), inst.actuals[k].op, v)
      && c in ArgCons(m, t, Top(s).f, inst.callee, inst.actuals, k)
      && c.ty.Copy? && c.src == NodeFor(t, Top(s).f, inst.actuals[k].op)
    ensures PtrIn(t, p, s.sites, c.dest, v)
  {
    var fr := Top(s);
    var inst := InstAt(m, fr.f, fr.pc);
    assert inst.actuals[k] in inst.actuals;
    hide Eval, OperandOk, ArgCons, PtrIn;
    EvalSound(m, t, p, s, fr, inst.actuals[k].op, v);
    ArgsConsHas(m, t, fr.f, inst.callee, inst.actuals, |inst.actuals|, k, c);
    EmitsInst(m, t, p, fr.f, fr.pc, c);
    CopyIn(t, p, s.sites, c.dest, c.src, v);
  }

  lemma CallFrameSound(m: Module, t: Tables, p: PtsGraph, s: State, n: Frame)
    requires ModuleOk(m) && Solves(m, t, p) && Sound(m, t, p, s) && IsInst(m, Top(s).f, Top(s).pc)
    requires var inst := InstAt(m, Top(s).f, Top(s).pc);
      inst.Call? && n.f == inst.callee && Passes(Top(s), m.functions[inst.callee], inst.actuals, n)
    ensures FrameSound(m, t, p, s.sites, n)
  {
    var fr := Top(s);
    var inst := InstAt(m, fr.f, fr.pc);
    hide Eval, Sound, OperandOk, PtrIn;
    forall i | i in n.args ensures PtrIn(t, p, s.sites, ValueNode(t, ArgV(n.f, i)), n.args[i]) {
      PassedSound(m, t, p, s, i, ArgCons(m, t, fr.f, inst.callee, inst.actuals, i)[0], n.args[i]);
    }
    forall v | v in n.varargs ensures PtrIn(t, p, s.sites, VarargNode(t, n.f), v) {
      var i :| |m.functions[n.f].formals| <= i < |inst.actuals| && inst.actuals[i].PtrActual? && Eval(fr, inst.actuals[i].op, v);
      PassedSound(m, t, p, s, i, ArgCons(m, t, fr.f, inst.callee, inst.actuals, i)[0], v);
    }
  }

  lemma CallStep(m: Module, t: Tables, p: PtsGraph, s: State, u: State)
    requires ModuleOk(m) && Solves(m, t, p) && Sound(m, t, p, s) && IsInst(m, Top(s).f, Top(s).pc)
    requires InstAt(m, Top(s).f, Top(s).pc).Call? && StepInst(m, s, Top(s), InstAt(m, Top(s).f, Top(s).pc), u)
    ensures Sound(m, t, p, u)
  {
    var fr := Top(s);
    var inst := InstAt(m, fr.f, fr.pc);
    var n: Frame :| n.f == inst.callee && Passes(fr, m.functions[inst.callee], inst.actuals, n) && u == s.(frames := s.frames + [n]);
    CallFrameSound(m, t, p, s, n);
    hide FrameSound, MemSound, Passes;
  }

  lemma PopSound(m: Module, t: Tables, p: PtsGraph, s: State)
    requires Sound(m, t, p, s) && |s.frames| > 1
    ensures Sound(m, t, p, s.(frames := s.frames[..|s.frames| - 1]))
  {
    hide FrameSound, MemSound;
  }

  /** The frame below the top one is that of the call. */
  lemma CallerOf(m: Module, t: Tables, p: PtsGraph, s: State)
    requires ModuleOk(m) && Sound(m, t, p, s) && |s.frames| > 1
    ensures var below := s.(frames := s.frames[..|s.frames| - 1]); var caller := Top(below);
      && Sound(m, t, p, below) && IsInst(m, caller.f, caller.pc) && CallsNext(InstAt(m, caller.f, caller.pc), Top(s))
  {
    PopSound(m, t, p, s);
    var below := s.(frames := s.frames[..|s.frames| - 1]);
    assert Top(below) == s.frames[|s.frames| - 2] && Top(s) == s.frames[|s.frames| - 2 + 1];
    hide FrameSound, MemSound, ModuleOk;
  }

  lemma RetStep(m: Module, t: Tables, p: PtsGraph, s: State, u: State)
    requires ModuleOk(m) && Solves(m, t, p) && Sound(m, t, p, s) && IsInst(m, Top(s).f, Top(s).pc)
    requires InstAt(m, Top(s).f, Top(s).pc).Ret? && StepInst(m, s, Top(s), InstAt(m, Top(s).f, Top(s).pc), u)
    ensures Sound(m, t, p, u)
  {
    hide ModuleOk, Solves, Sound, Eval;
    var inst := InstAt(m, Top(s).f, Top(s).pc);
    var below := s.(frames := s.frames[..|s.frames| - 1]);
    var caller := Top(below);
    CallerOf(m, t, p, s);
    if InstAt(m, caller.f, caller.pc).setsPtr && inst.result.Some? {
      var v :| Eval(Top(s), inst.result.value, v) && u == WithTop(below, SetReg(caller, v));
      hide WithTop, SetReg, StepInst;
      ReturnedSound(m, t, p, s, v);
      ReceivedSound(m, t, p, below, Top(s), v);
    } else {
      MoveSound(m, t, p, below, caller.pc + 1);
    }
  }

  /** What a function returns is in the points-to set of the call's register. */
  lemma ReceivedSound(m: Module, t: Tables, p: PtsGraph, s: State, fr: Frame, v: Ptr)
    requires ModuleOk(m) && Solves(m, t, p) && Sound(m, t, p, s) && IsInst(m, Top(s).f, Top(s).pc)
    requires CallsNext(InstAt(m, Top(s).f, Top(s).pc), fr) && InstAt(m, Top(s).f, Top(s).pc).setsPtr
    requires PtrIn(t, p, s.sites, ReturnNode(t, fr.f), v)
    ensures Sound(m, t, p, WithTop(s, SetReg(Top(s), v)))
  {
    var caller := Top(s);
    var call := InstAt(m, caller.f, caller.pc);
    hide ModuleOk, Solves, Sound, PtrIn, Holds;
    EmitsInst(m, t, p, caller.f, caller.pc, InstCons(m, t, caller.f, caller.pc, call)[0]);
    CopyIn(t, p, s.sites, ValueNode(t, InstV(caller.f, caller.pc)), ReturnNode(t, fr.f), v);
    SetRegSound(m, t, p, s, v);
  }

  lemma ReturnedSound(m: Module, t: Tables, p: PtsGraph, s: State, v: Ptr)
    requires ModuleOk(m) && Solves(m, t, p) && Sound(m, t, p, s) && IsInst(m, Top(s).f, Top(s).pc)
    requires var inst := InstAt(m, Top(s).f, Top(s).pc); inst.Ret? && inst.result.Some? && Eval(Top(s), inst.result.value, v)
    ensures PtrIn(t, p, s.sites, ReturnNode(t, Top(s).f), v)
  {
    var fr := Top(s);
    var inst := InstAt(m, fr.f, fr.pc);
    EvalSound(m, t, p, s, fr, inst.result.value, v);
    EmitsInst(m, t, p, fr.f, fr.pc, InstCons(m, t, fr.f, fr.pc, inst)[0]);
    CopyIn(t, p, s.sites, ReturnNode(t, fr.f), NodeFor(t, fr.f, inst.result.value), v);
  }

  lemma StepSound(m: Module, t: Tables, p: PtsGraph, s: State, u: State)
    requires ModuleOk(m) && Solves(m, t, p) && Sound(m, t, p, s) && Step(m, s, u)
    ensures Sound(m, t, p, u)
  {
    var fr := Top(s);
    var inst := InstAt(m, fr.f, fr.pc);
    hide Sound, Eval, Solves, OperandOk;
    match inst
    case Alloca => AllocaStep(m, t, p, s, u);
    case Load(_) => LoadStep(m, t, p, s, u);
    case Store(_, _) => StoreStep(m, t, p, s, u);
    case VaArg => VaArgStep(m, t, p, s, u);
    case Call(_, _, _) => CallStep(m, t, p, s, u);
    case Ret(_) => RetStep(m, t, p, s, u);
    case Branch(targets) =>
      var pc :| pc in targets && u == WithTop(s, fr.(pc := pc));
      MoveSound(m, t, p, s, pc);
    case Other => MoveSound(m, t, p, s, fr.pc + 1);
    case _ => CopiesStep(m, t, p, s, u);
  }

  // ----- Runs -----

  lemma {:induction false} InitEmitsAll(t: Tables, n: nat, init: Init, k: Const)
    requires k in InitPtrs(init)
    ensures InitEmits(t, n, init, Constraint(AddrOf, n, ConstObject(t, k)))
  {
    if init.Aggregate? {
      var e :| e in init.elems && k in InitPtrs(e);
      InitEmitsAll(t, n, e, k);
    }
  }

  lemma {:induction false} InitPtrOk(m: Module, init: Init, k: Const)
    requires InitOk(m, init) && k in InitPtrs(init)
    ensures ConstOk(m, k)
  {
    if init.Aggregate? {
      var e :| e in init.elems && k in InitPtrs(e);
      InitPtrOk(m, e, k);
    }
  }

  lemma InitCellSound(m: Module, t: Tables, p: PtsGraph, sites: seq<Site>, o: nat, v: Ptr)
    requires ModuleOk(m) && Solves(m, t, p) && InitCell(m, o, v)
    requires |m.globals| <= |sites| && forall g | 0 <= g < |m.globals| :: sites[g] == GlobalSite(g)
    ensures PtrIn(t, p, sites, ObjectNode(t, sites[o]), v)
  {
    if v.Addr? {
      var init := m.globals[o].init;
      var k :| k in InitPtrs(init) && EvalConst(k, v);
      assert m.globals[o] in m.globals;
      InitPtrOk(m, init, k);
      ConstSound(m, t, p, sites, k, v);
      var c := Constraint(AddrOf, ObjectNode(t, GlobalSite(o)), ConstObject(t, k));
      InitEmitsAll(t, ObjectNode(t, GlobalSite(o)), init, k);
      assert GlobalEmits(t, o, m.globals[o], c);
      assert Emits(m, t, c);
      assert Holds(p, c);
    }
  }

  lemma StartSound(m: Module, t: Tables, p: PtsGraph, s: State)
    requires ModuleOk(m) && Solves(m, t, p) && Starts(m, s)
    ensures Sound(m, t, p, s)
  {
    hide Solves, PtrIn;
    forall o, k | (o, k) in s.mem ensures o < |s.sites| && PtrIn(t, p, s.sites, ObjectNode(t, s.sites[o]), s.mem[(o, k)]) {
      InitCellSound(m, t, p, s.sites, o, s.mem[(o, k)]);
    }
  }

  /** In every state of every run, what a register, argument or cell points to is in the points-to
      set that any solution of the program's constraints has for it. */
  lemma {:induction false} RunIsSound(m: Module, t: Tables, p: PtsGraph, run: seq<State>, i: nat)
    requires ModuleOk(m) && Solves(m, t, p) && IsRun(m, run) && i < |run|
    ensures Sound(m, t, p, run[i])
  {
    hide ModuleOk, Solves, Sound, Starts, Step;
    if i == 0 {
      StartSound(m, t, p, run[0]);
    } else {
      RunIsSound(m, t, p, run, i - 1);
      assert Step(m, run[i - 1], run[i - 1 + 1]);
      StepSound(m, t, p, run[i - 1], run[i]);
    }
  }
}
