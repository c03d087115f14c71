/** A small intermediate representation with pointers, and how its programs run.

    An instruction is the register it sets.  Everything that is not a pointer is left out:
    loads, stores and calls of other types are `Other`.
 */
module Programs {

  datatype Option<T> = None | Some(value: T)

  /** Pointer constants; a pointer into a global is an expression over its address. */
  datatype Const = GlobalAddr(g: nat) | NullConst | GepOf(c: Const) | CastOf(c: Const)

  datatype Operand = Reg(i: nat) | Arg(i: nat) | Imm(c: Const)

  datatype Actual = PtrActual(op: Operand) | IntActual

  datatype Inst =
    | Alloca
    | Load(ptr: Operand)
    | Store(val: Operand, ptr: Operand)
    | Gep(base: Operand)
    | BitCast(op: Operand)
    | Phi(incoming: seq<Operand>)
    | Select(a: Operand, b: Operand)
    | VaArg
    | Call(callee: nat, actuals: seq<Actual>, setsPtr: bool)
    | Ret(result: Option<Operand>)
    | Branch(targets: set<nat>)
    | Other

  /** formals[i] says whether parameter i is a pointer. */
  datatype Function = Function(formals: seq<bool>, isVarArg: bool, returnsPtr: bool, body: seq<Inst>)

  datatype Init = PtrInit(c: Const) | IntInit | ZeroInit | UndefInit | Aggregate(elems: seq<Init>)

  /** A global of another translation unit has no initializer here. */
  datatype Global = External | Defined(init: Init)

  datatype Module = Module(globals: seq<Global>, functions: seq<Function>)

  predicate SetsPtr(inst: Inst) {
    inst.Alloca? || inst.Load? || inst.Gep? || inst.BitCast? || inst.Phi? || inst.Select? || inst.VaArg? || (inst.Call? && inst.setsPtr)
  }

  // ----- What the verifier of the compiler guarantees -----

  predicate ConstOk(m: Module, c: Const) {
    match c
    case GlobalAddr(g) => g < |m.globals|
    case NullConst => true
    case GepOf(d) => ConstOk(m, d)
    case CastOf(d) => ConstOk(m, d)
  }

  predicate OperandOk(m: Module, f: Function, op: Operand) {
    match op
    case Reg(i) => i < |f.body| && SetsPtr(f.body[i])
    case Arg(i) => i < |f.formals| && f.formals[i]
    case Imm(c) => ConstOk(m, c)
  }

  predicate CallOk(m: Module, f: Function, inst: Inst)
    requires inst.Call?
  {
    && inst.callee < |m.functions|
    && (inst.setsPtr ==> m.functions[inst.callee].returnsPtr)
    && (forall a | a in inst.actuals && a.PtrActual? :: OperandOk(m, f, a.op))
  }

  predicate InstOk(m: Module, f: Function, inst: Inst) {
    match inst
    case Load(p) => OperandOk(m, f, p)
    case Store(v, p) => OperandOk(m, f, v) && OperandOk(m, f, p)
    case Gep(p) => OperandOk(m, f, p)
    case BitCast(p) => OperandOk(m, f, p)
    case Phi(ps) => forall p | p in ps :: OperandOk(m, f, p)
    case Select(a, b) => OperandOk(m, f, a) && OperandOk(m, f, b)
    case VaArg => f.isVarArg
    case Call(_, _, _) => CallOk(m, f, inst)
    case Ret(r) => r.Some? ==> OperandOk(m, f, r.value) && f.returnsPtr
    case _ => true
  }

  predicate InitOk(m: Module, init: Init) {
    match init
    case PtrInit(c) => ConstOk(m, c)
    case Aggregate(es) => forall e | e in es :: InitOk(m, e)
    case _ => true
  }

  predicate ModuleOk(m: Module) {
    && (forall f, inst | f in m.functions && inst in f.body :: InstOk(m, f, inst))
    && (forall g | g in m.globals && g.Defined? :: InitOk(m, g.init))
  }

  // ----- Running a program -----

  /** A pointer may point past its object or between fields; what matters is the object. */
  datatype Ptr = Null | Addr(obj: nat, offset: int)

  /** Where an object was allocated. */
  datatype Site = GlobalSite(g: nat) | AllocaSite(f: nat, i: nat)

  datatype Frame = Frame(f: nat, pc: nat, regs: map<nat, Ptr>, args: map<nat, Ptr>, varargs: set<Ptr>)

  /** frames[0] is the oldest frame; sites[o] is where object o came from; global g is object g. */
  datatype State = State(frames: seq<Frame>, mem: map<(nat, int), Ptr>, sites: seq<Site>)

  ghost predicate EvalConst(c: Const, v: Ptr) {
    match c
    case GlobalAddr(g) => v == Addr(g, 0)
    case NullConst => v == Null
    case GepOf(d) => exists w :: EvalConst(d, w) && Moved(w, v)
    case CastOf(d) => EvalConst(d, v)
  }

  /** v points to the same object as w, at any offset. */
  predicate Moved(w: Ptr, v: Ptr) {
    w == v || (w.Addr? && v.Addr? && v.obj == w.obj)
  }

  /** v is what op stands for in a frame; a register that was not set is undefined and points nowhere. */
  ghost predicate Eval(fr: Frame, op: Operand, v: Ptr) {
    match op
    case Reg(i) => v == if i in fr.regs then fr.regs[i] else Null
    case Arg(i) => v == if i in fr.args then fr.args[i] else Null
    case Imm(c) => EvalConst(c, v)
  }

  function Read(s: State, p: Ptr): Ptr {
    if p.Addr? && (p.obj, p.offset) in s.mem then s.mem[(p.obj, p.offset)] else Null
  }

  function Top(s: State): Frame
    requires s.frames != []
  {
    s.frames[|s.frames| - 1]
  }

  function WithTop(s: State, fr: Frame): State
    requires s.frames != []
  {
    s.(frames := s.frames[|s.frames| - 1 := fr])
  }

  /** The register of the current instruction is set, and the next instruction is next. */
  function SetReg(fr: Frame, v: Ptr): Frame {
    fr.(regs := fr.regs[fr.pc := v], pc := fr.pc + 1)
  }

  /** The callee's frame: pointers passed for pointer parameters, the others beyond the parameters. */
  ghost predicate Passes(fr: Frame, callee: Function, actuals: seq<Actual>, new_: Frame) {
    && (forall i | i in new_.args :: i < |callee.formals| && i < |actuals| && callee.formals[i] &&
          actuals[i].PtrActual? && Eval(fr, actuals[i].op, new_.args[i]))
    && (forall v | v in new_.varargs :: callee.isVarArg &&
          exists i :: |callee.formals| <= i < |actuals| && actuals[i].PtrActual? && Eval(fr, actuals[i].op, v))
    && new_.regs == map[] && new_.pc == 0
  }

  /** One step of a run, of the instruction inst in the frame fr. */
  ghost predicate StepInst(m: Module, s: State, fr: Frame, inst: Inst, t: State)
    requires s.frames != [] && fr == Top(s)
  {
    match inst
    case Alloca =>
      t == WithTop(s, SetReg(fr, Addr(|s.sites|, 0))).(sites := s.sites + [AllocaSite(fr.f, fr.pc)])
    case Load(p) => exists a :: Eval(fr, p, a) && t == WithTop(s, SetReg(fr, Read(s, a)))
    case Store(v, p) =>
      exists x, a: Ptr :: Eval(fr, v, x) && Eval(fr, p, a) && a.Addr?
        && t == WithTop(s, fr.(pc := fr.pc + 1)).(mem := s.mem[(a.obj, a.offset) := x])
    case Gep(p) => exists w, v :: Eval(fr, p, w) && Moved(w, v) && t == WithTop(s, SetReg(fr, v))
    case BitCast(p) => exists v :: Eval(fr, p, v) && t == WithTop(s, SetReg(fr, v))
    case Phi(ps) => exists p, v :: p in ps && Eval(fr, p, v) && t == WithTop(s, SetReg(fr, v))
    case Select(a, b) => exists p, v :: (p == a || p == b) && Eval(fr, p, v) && t == WithTop(s, SetReg(fr, v))
    case VaArg => exists v :: v in fr.varargs && t == WithTop(s, SetReg(fr, v))
    case Call(callee, actuals, _) =>
      callee < |m.functions| && exists n: Frame :: n.f == callee && Passes(fr, m.functions[callee], actuals, n) && t == s.(frames := s.frames + [n])
    case Ret(r) => |s.frames| > 1 && StepRet(m, s, fr, r, t)
    case Branch(targets) => exists pc :: pc in targets && t == WithTop(s, fr.(pc := pc))
    case Other => t == WithTop(s, fr.(pc := fr.pc + 1))
  }

  /** The frame is dropped, and the call that made it gets the result, if it sets a pointer. */
  ghost predicate StepRet(m: Module, s: State, fr: Frame, r: Option<Operand>, t: State)
    requires |s.frames| > 1
  {
    var below := s.(frames := s.frames[..|s.frames| - 1]);
    var caller := Top(below);
    && caller.f < |m.functions| && caller.pc < |m.functions[caller.f].body|
    && var call := m.functions[caller.f].body[caller.pc];
    if call.Call? && call.setsPtr && r.Some?
    then exists v :: Eval(fr, r.value, v) && t == WithTop(below, SetReg(caller, v))
    else t == WithTop(below, caller.(pc := caller.pc + 1))
  }

  ghost predicate Step(m: Module, s: State, t: State) {
    && s.frames != []
    && var fr := Top(s);
    && fr.f < |m.functions| && fr.pc < |m.functions[fr.f].body|
    && StepInst(m, s, fr, m.functions[fr.f].body[fr.pc], t)
  }

  /** The pointer constants in an initializer. */
  function InitPtrs(init: Init): set<Const> {
    match init
    case PtrInit(c) => {c}
    case Aggregate(es) => set e, c | e in es && c in InitPtrs(e) :: c
    case _ => {}
  }

  /** A run starts in one frame without pointers, with the globals initialized. */
  ghost predicate Starts(m: Module, s: State) {
    && |s.frames| == 1 && s.frames[0].f < |m.functions|
    && s.frames[0].regs == map[] && s.frames[0].args == map[] && s.frames[0].varargs == {}
    && |s.sites| == |m.globals| && (forall g | 0 <= g < |m.globals| :: s.sites[g] == GlobalSite(g))
    && (forall o, k | (o, k) in s.mem :: InitCell(m, o, s.mem[(o, k)]))
  }

  ghost predicate InitCell(m: Module, o: nat, v: Ptr) {
    && o < |m.globals|
    && (v == Null || (m.globals[o].Defined? && exists c :: c in InitPtrs(m.globals[o].init) && EvalConst(c, v)))
  }

  ghost predicate IsRun(m: Module, run: seq<State>) {
    |run| > 0 && Starts(m, run[0]) && forall i | 0 <= i < |run| - 1 :: Step(m, run[i], run[i + 1])
  }
}
