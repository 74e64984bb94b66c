/** Running compiled code and evaluating the source reach the same results: expression by
    expression and statement by statement, a machine that starts out holding a store ends holding
    the store the evaluator ends with, or faults where the evaluator faults. */
module Simulation {
  import opened Prelude
  import opened Bytecode
  import opened Ast
  import opened Vm
  import opened Compiler
  import opened Evaluator
  import opened Typing
  import opened Interruption

  /** The host the region installs: it never answers with a value. */
  ghost predicate Silent(host: Option<Host>) {
    host.Some? && forall name, args, trace :: host.value(name, args, trace) == None
  }

  /** The code between `c` and `d`, and the pools of `d`, stand unchanged in the program. */
  ghost predicate Within(p: Program, c: Unit, d: Unit) {
    && |d.code| <= |p.code| && (forall i :: |c.code| <= i < |d.code| ==> p.code[i] == d.code[i])
    && d.constants <= p.constants && d.hostNames <= p.hostNames
  }

  /** Where the finished handler keeps its variables: distinct slots within both banks. */
  datatype Layout = Layout(locals: Symbols, globals: Symbols, localCount: nat, globalCount: nat)

  ghost predicate SlotsOk(symbols: Symbols, scope: Scope, count: nat) {
    && (forall n :: n in symbols ==> symbols[n].scope == scope && symbols[n].slot < count)
    && forall n, m :: n in symbols && m in symbols && symbols[n].slot == symbols[m].slot ==> n == m
  }

  ghost predicate LayoutOk(lay: Layout) {
    SlotsOk(lay.locals, Local, lay.localCount) && SlotsOk(lay.globals, Global, lay.globalCount)
  }

  /** Every name bound so far keeps its slot in the final layout. */
  ghost predicate Placed(c: Unit, lay: Layout) {
    c.globals == lay.globals && c.localCount <= lay.localCount
    && forall n :: n in c.locals ==> n in lay.locals && lay.locals[n] == c.locals[n]
  }

  /** The machine's banks hold the store's variables, and both made the same host calls. */
  ghost predicate Matches(v: VmState, st: Store, lay: Layout) {
    && LayoutOk(lay) && |v.locals| == lay.localCount && |v.globals| == lay.globalCount
    && (forall n :: n in lay.locals ==> v.locals[lay.locals[n].slot] == LocalValue(st, n))
    && (forall n :: n in lay.globals ==> n in st.globals && v.globals[lay.globals[n].slot] == st.globals[n])
    && v.trace == st.trace && !v.finished && v.error == None
  }

  /** The machine stopped on a fault without touching its variables or the host. */
  ghost predicate FaultedFrom(r: RunResult, v: VmState) {
    r.status == Error && r.state.finished && r.state.error.Some?
    && r.state.locals == v.locals && r.state.globals == v.globals && r.state.trace == v.trace
  }

  // ----- single instructions -----

  function Complete(r: StepResult): RunResult {
    match r
    case Next(s) => RunResult(s.(total := s.total + 1), if s.finished then Finished else Yielded)
    case Trap(f, s) => RunResult(s.(error := Some(f), finished := true), Error)
  }

  lemma RunOne(p: Program, host: Option<Host>, v: VmState, instr: Instruction)
    requires v.ip < |p.code| && p.code[v.ip] == instr && !v.finished
    ensures Run(p, host, v, 1) == Complete(Execute(p, host, instr, v.(ip := v.ip + 1)))
  {
    hide Execute;
    assert Step(p, host, v) == Execute(p, host, instr, v.(ip := v.ip + 1));
    match Step(p, host, v)
    case Next(s1) => assert Run(p, host, v, 1) == Run(p, host, s1.(total := s1.total + 1), 0);
    case Trap(_, _) =>
  }

  /** A yielded slice continues with the next one. */
  lemma Chain(p: Program, host: Option<Host>, v: VmState, a: nat, b: nat)
    requires Run(p, host, v, a).status == Yielded
    ensures Run(p, host, v, a + b) == Run(p, host, Run(p, host, v, a).state, b)
  {
    RunSplit(p, host, v, a, b);
  }

  function Pushed(v: VmState, ip: nat, x: Value, steps: nat): VmState {
    v.(ip := ip, stack := v.stack + [x], total := v.total + steps)
  }

  lemma RunLoad(p: Program, host: Option<Host>, v: VmState, instr: Instruction, x: Value)
    requires v.ip < |p.code| && p.code[v.ip] == instr && !v.finished
    requires match instr.op
      case PushConst => 0 <= instr.a < |p.constants| && p.constants[instr.a] == x
      case LoadLocal => 0 <= instr.a < |v.locals| && v.locals[instr.a] == x
      case LoadGlobal => 0 <= instr.a < |v.globals| && v.globals[instr.a] == x
      case _ => false
    ensures Run(p, host, v, 1) == RunResult(Pushed(v, v.ip + 1, x, 1), Yielded)
  {
    RunOne(p, host, v, instr);
  }

  /** The two operands on top of the stack are replaced by the operator's result. */
  lemma RunBinary(p: Program, host: Option<Host>, v: VmState, base: seq<Value>, op: BinaryOp, texts: bool, a: Value, b: Value)
    requires v.ip < |p.code| && !v.finished && v.stack == base + [a] + [b]
    requires p.code[v.ip] == Instruction(if texts then ConcatStr else OpcodeOf(op), 0, 0)
    ensures match if texts then ApplyTexts(a, b) else ApplyIntegers(op, a, b)
      case Some(x) => Run(p, host, v, 1) == RunResult(Pushed(v.(stack := base), v.ip + 1, x, 1), Yielded)
      case None => FaultedFrom(Run(p, host, v, 1), v)
  {
    hide StepLoad, StepStore, StepCast, StepBranch, StepCall, Run;
    RunOne(p, host, v, p.code[v.ip]);
    assert v.stack[..|v.stack| - 1] == base + [a];
    assert (base + [a])[..|base|] == base;
  }

  lemma RunCast(p: Program, host: Option<Host>, v: VmState, base: seq<Value>, a: Value)
    requires v.ip < |p.code| && !v.finished && v.stack == base + [a]
    requires p.code[v.ip].op == CastIntToStr
    ensures if a.Int?
      then Run(p, host, v, 1) == RunResult(Pushed(v.(stack := base), v.ip + 1, Str(IntToString(a.integer)), 1), Yielded)
      else FaultedFrom(Run(p, host, v, 1), v)
  {
    RunOne(p, host, v, p.code[v.ip]);
    assert v.stack[..|v.stack| - 1] == base;
  }

  // ----- expressions -----

  /** `k` steps turned the expression into a value on the stack, or into a fault. */
  ghost predicate Evaluated(p: Program, host: Option<Host>, v: VmState, ip: nat, x: Option<Value>, k: nat) {
    match x
    case Some(y) => Run(p, host, v, k) == RunResult(Pushed(v, ip, y, k), Yielded)
    case None => FaultedFrom(Run(p, host, v, k), v)
  }

  lemma {:induction false} ExprRuns(p: Program, host: Option<Host>, lay: Layout, c: Unit, e: Expr, st: Store, v: VmState)
      returns (k: nat)
    requires CompileExpr(c, e).Ok? && CompileExpr(c, e).value.1 != Void
    requires Within(p, c, CompileExpr(c, e).value.0) && Placed(c, lay)
    requires Matches(v, st, lay) && v.ip == |c.code|
    ensures k > 0
    ensures Evaluated(p, host, v, |CompileExpr(c, e).value.0.code|, EvalExpr(EnvOf(c), e, st), k)
    decreases e
  {
    var d := CompileExpr(c, e).value.0;
    match e {
      case IntLiteral(n) =>
        k := ConstantRuns(p, host, c, Int(n), v);
      case StringLiteral(s) =>
        k := ConstantRuns(p, host, c, Str(s), v);
      case VarRef(name) =>
        var sym := Resolve(c, name).value;
        assert p.code[v.ip] == d.code[v.ip];
        RunLoad(p, host, v, p.code[v.ip], ReadName(EnvOf(c), name, st).value);
        k := 1;
      case Cast(target, operand) =>
        k := CastRuns(p, host, lay, c, e, st, v);
      case Binary(op, lhs, rhs) =>
        k := BinaryRuns(p, host, lay, c, e, st, v);
      case Call(_, _) =>
        assert false;
    }
  }

  lemma ConstantRuns(p: Program, host: Option<Host>, c: Unit, x: Value, v: VmState) returns (k: nat)
    requires Within(p, c, EmitConstant(c, x)) && v.ip == |c.code| && !v.finished
    ensures k == 1 && Run(p, host, v, 1) == RunResult(Pushed(v, |EmitConstant(c, x).code|, x, 1), Yielded)
  {
    var d := EmitConstant(c, x);
    assert p.code[v.ip] == d.code[v.ip] == Instruction(PushConst, IndexOf(c.constants, x), 0);
    assert d.constants[IndexOf(c.constants, x)] == x;
    RunLoad(p, host, v, p.code[v.ip], x);
    k := 1;
  }

  lemma {:induction false} CastRuns(p: Program, host: Option<Host>, lay: Layout, c: Unit, e: Expr, st: Store, v: VmState)
      returns (k: nat)
    requires e.Cast? && CompileExpr(c, e).Ok?
    requires Within(p, c, CompileExpr(c, e).value.0) && Placed(c, lay)
    requires Matches(v, st, lay) && v.ip == |c.code|
    ensures k > 0
    ensures Evaluated(p, host, v, |CompileExpr(c, e).value.0.code|, EvalExpr(EnvOf(c), e, st), k)
    decreases e, 0
  {
    hide Run;
    var (c1, t) := CompileExpr(c, e.operand).value;
    ExprExtends(c, e.operand);
    ExprTypes(c, e.operand);
    var d := CompileExpr(c, e).value.0;
    assert Within(p, c, c1);
    k := ExprRuns(p, host, lay, c, e.operand, st, v);
    var x := EvalExpr(EnvOf(c), e.operand, st);
    if x.Some? && e.target == Text && t == Integer {
      var v1 := Pushed(v, |c1.code|, x.value, k);
      assert p.code[|c1.code|] == d.code[|c1.code|];
      RunCast(p, host, v1, v.stack, x.value);
      Chain(p, host, v, k, 1);
      k := k + 1;
    }
  }

  /** Where a binary expression's operands and its operator stand. */
  lemma BinaryLayout(p: Program, c: Unit, e: Expr)
    requires e.Binary? && CompileExpr(c, e).Ok? && Within(p, c, CompileExpr(c, e).value.0)
    ensures CompileExpr(c, e.lhs).Ok? && CompileExpr(CompileExpr(c, e.lhs).value.0, e.rhs).Ok?
    ensures var (c1, lt) := CompileExpr(c, e.lhs).value;
      var (c2, rt) := CompileExpr(c1, e.rhs).value;
      && lt != Void && rt != Void && Within(p, c, c1) && Within(p, c1, c2)
      && Extends(c, c1) && SameScope(c, c1) && EnvOf(c) == EnvOf(c1) && |c1.code| <= |c2.code|
      && TypeExpr(EnvOf(c), e.lhs) == Ok(lt) && CompileExpr(c, e).value.1 != Void
      && |CompileExpr(c, e).value.0.code| == |c2.code| + 1 <= |p.code|
      && p.code[|c2.code|] == Instruction(if lt == Text then ConcatStr else OpcodeOf(e.op), 0, 0)
  {
    hide EmitConstant, TypeExpr, Resolve, LookupHost, CompileArgs;
    var (c1, lt) := CompileExpr(c, e.lhs).value;
    var (c2, rt) := CompileExpr(c1, e.rhs).value;
    var d := CompileExpr(c, e).value.0;
    ExprExtends(c, e.lhs);
    ExprExtends(c1, e.rhs);
    assert lt != Void && rt != Void;
    assert d.code == c2.code + [Instruction(if lt == Text then ConcatStr else OpcodeOf(e.op), 0, 0)];
    hide CompileExpr, OpcodeOf;
    assert p.code[|c2.code|] == d.code[|c2.code|];
    ExprTypes(c, e.lhs);
    SameScopeSameEnv(c, c1);
  }

  lemma {:induction false} BinaryRuns(p: Program, host: Option<Host>, lay: Layout, c: Unit, e: Expr, st: Store, v: VmState)
      returns (k: nat)
    requires e.Binary? && CompileExpr(c, e).Ok?
    requires Within(p, c, CompileExpr(c, e).value.0) && Placed(c, lay)
    requires Matches(v, st, lay) && v.ip == |c.code|
    ensures k > 0
    ensures Evaluated(p, host, v, |CompileExpr(c, e).value.0.code|, EvalExpr(EnvOf(c), e, st), k)
    decreases e, 0
  {
    hide Run, TypeExpr, ApplyTexts, ApplyIntegers, LayoutOk, CompileExpr, Within, EnvOf;
    BinaryLayout(p, c, e);
    var (c1, lt) := CompileExpr(c, e.lhs).value;
    var (c2, rt) := CompileExpr(c1, e.rhs).value;
    var k1 := ExprRuns(p, host, lay, c, e.lhs, st, v);
    var a := EvalExpr(EnvOf(c), e.lhs, st);
    if a.None? {
      return k1;
    }
    var v1 := Pushed(v, |c1.code|, a.value, k1);
    assert Matches(v1, st, lay);
    var k2 := ExprRuns(p, host, lay, c1, e.rhs, st, v1);
    Chain(p, host, v, k1, k2);
    var b := EvalExpr(EnvOf(c), e.rhs, st);
    if b.None? {
      return k1 + k2;
    }
    var v2 := Pushed(v1, |c2.code|, b.value, k2);
    RunBinary(p, host, v2, v.stack, e.op, lt == Text, a.value, b.value);
    Chain(p, host, v, k1 + k2, 1);
    return k1 + k2 + 1;
  }

  /** The same for an argument list, whose values are left in order. */
  ghost predicate ArgsEvaluated(p: Program, host: Option<Host>, v: VmState, ip: nat, xs: Option<seq<Value>>, k: nat) {
    match xs
    case Some(ys) => Run(p, host, v, k) == RunResult(v.(ip := ip, stack := v.stack + ys, total := v.total + k), Yielded)
    case None => FaultedFrom(Run(p, host, v, k), v)
  }

  lemma ArgsEvaluatedCons(p: Program, host: Option<Host>, v: VmState, mid: nat, x: Value, k1: nat,
                          end: nat, xs: Option<seq<Value>>, k2: nat)
    requires Evaluated(p, host, v, mid, Some(x), k1)
    requires ArgsEvaluated(p, host, Pushed(v, mid, x, k1), end, xs, k2)
    ensures ArgsEvaluated(p, host, v, end, if xs.Some? then Some([x] + xs.value) else None, k1 + k2)
  {
    Chain(p, host, v, k1, k2);
    hide Run;
    if xs.Some? {
      assert v.stack + ([x] + xs.value) == (v.stack + [x]) + xs.value;
    }
  }

  /** The first argument's code stands in the program, and the rest is compiled after it. */
  lemma ArgsHead(p: Program, lay: Layout, c: Unit, callee: Bytes, args: seq<Expr>, types: seq<ValueType>, position: nat)
    requires |args| == |types| && args != [] && CompileArgs(c, callee, args, types, position).Ok?
    requires Within(p, c, CompileArgs(c, callee, args, types, position).value) && Placed(c, lay)
    ensures CompileExpr(c, args[0]).Ok?
    ensures var (c1, t) := CompileExpr(c, args[0]).value;
      && t != Void && Within(p, c, c1) && Placed(c1, lay) && EnvOf(c1) == EnvOf(c)
      && CompileArgs(c, callee, args, types, position) == CompileArgs(c1, callee, args[1..], types[1..], position + 1)
      && Within(p, c1, CompileArgs(c, callee, args, types, position).value)
  {
    var c1 := CompileExpr(c, args[0]).value.0;
    ExprExtends(c, args[0]);
    ArgsExtend(c1, callee, args[1..], types[1..], position + 1);
    SameScopeSameEnv(c, c1);
    hide CompileExpr;
  }

  lemma {:induction false} ArgsRun(p: Program, host: Option<Host>, lay: Layout, c: Unit, callee: Bytes, args: seq<Expr>,
                                   types: seq<ValueType>, position: nat, st: Store, v: VmState) returns (k: nat)
    requires |args| == |types| && CompileArgs(c, callee, args, types, position).Ok?
    requires Within(p, c, CompileArgs(c, callee, args, types, position).value) && Placed(c, lay)
    requires Matches(v, st, lay) && v.ip == |c.code|
    ensures ArgsEvaluated(p, host, v, |CompileArgs(c, callee, args, types, position).value.code|,
                          EvalArgs(EnvOf(c), args, st), k)
    decreases args
  {
    hide Run, FaultedFrom, LayoutOk, EvalExpr, CompileExpr, TypeExpr, Within, Placed, CompileArgs, EnvOf, ArgsEvaluated;
    if args == [] {
      ArgsNone(p, host, c, callee, types, position, st, v);
      k := 0;
    } else {
      ArgsHead(p, lay, c, callee, args, types, position);
      var c1 := CompileExpr(c, args[0]).value.0;
      var d := CompileArgs(c, callee, args, types, position).value;
      k := ExprRuns(p, host, lay, c, args[0], st, v);
      var x := EvalExpr(EnvOf(c), args[0], st);
      if x.Some? {
        var v1 := Pushed(v, |c1.code|, x.value, k);
        assert Matches(v1, st, lay);
        hide Matches;
        var k2 := ArgsRun(p, host, lay, c1, callee, args[1..], types[1..], position + 1, st, v1);
        ArgsEvaluatedCons(p, host, v, |c1.code|, x.value, k, |d.code|, EvalArgs(EnvOf(c), args[1..], st), k2);
        k := k + k2;
      } else {
        ArgsFaulted(p, host, v, |d.code|, k);
      }
    }
  }

  lemma ArgsNone(p: Program, host: Option<Host>, c: Unit, callee: Bytes, types: seq<ValueType>, position: nat, st: Store, v: VmState)
    requires types == [] && v.ip == |c.code| && !v.finished
    ensures CompileArgs(c, callee, [], types, position) == Ok(c)
    ensures ArgsEvaluated(p, host, v, |c.code|, EvalArgs(EnvOf(c), [], st), 0)
  {
    assert v.stack + [] == v.stack;
  }

  lemma ArgsFaulted(p: Program, host: Option<Host>, v: VmState, ip: nat, k: nat)
    requires FaultedFrom(Run(p, host, v, k), v)
    ensures ArgsEvaluated(p, host, v, ip, None, k)
  {
  }

  // ----- statements -----

  /** What an outcome of the evaluator looks like on the machine after `k` steps: it stands
      at `end`, or it has faulted there, or it is still running after `fuel` steps at least. */
  ghost predicate Executed(p: Program, host: Option<Host>, v: VmState, lay: Layout, end: nat, o: Outcome, fuel: nat, k: nat) {
    var r := Run(p, host, v, k);
    match o
    case Normal(st) => r.status == Yielded && r.state.ip == end && r.state.stack == [] && Matches(r.state, st, lay)
    case Faulted(st) => r.status == Error && r.state.error.Some? && SameOutside(r.state, st, lay)
    case OutOfFuel(st) => r.status == Yielded && Matches(r.state, st, lay) && k >= fuel
  }

  /** What survives a handler: the globals and the host calls. */
  ghost predicate SameOutside(v: VmState, st: Store, lay: Layout) {
    && v.trace == st.trace && |v.globals| == lay.globalCount
    && forall n :: n in lay.globals ==>
         lay.globals[n].slot < |v.globals| && n in st.globals && v.globals[lay.globals[n].slot] == st.globals[n]
  }

  /** Steps before a statement's own count towards its total. */
  lemma Resume(p: Program, host: Option<Host>, v: VmState, k1: nat, v1: VmState, lay: Layout, end: nat, o: Outcome,
               inner: nat, k2: nat, fuel: nat)
    requires Run(p, host, v, k1) == RunResult(v1, Yielded)
    requires Executed(p, host, v1, lay, end, o, inner, k2) && fuel <= inner + k1
    ensures Executed(p, host, v, lay, end, o, fuel, k1 + k2)
  {
    Chain(p, host, v, k1, k2);
    hide Run, Matches;
  }

  lemma FaultIsOutside(r: RunResult, v: VmState, st: Store, lay: Layout)
    requires FaultedFrom(r, v) && Matches(v, st, lay)
    ensures SameOutside(r.state, st, lay)
  {
  }

  lemma RunBranch(p: Program, host: Option<Host>, v: VmState, x: Value, target: nat)
    requires v.ip < |p.code| && !v.finished && v.stack == [x]
    requires p.code[v.ip] == Instruction(JumpIfZero, target, 0)
    ensures match x
      case Int(n) => Run(p, host, v, 1) ==
        RunResult(v.(ip := if n == 0 then target else v.ip + 1, stack := [], total := v.total + 1), Yielded)
      case Str(_) => FaultedFrom(Run(p, host, v, 1), v)
  {
    hide StepLoad, StepStore, StepIntegerOp, StepConcat, StepCast, StepCall, Run;
    RunOne(p, host, v, p.code[v.ip]);
  }

  lemma RunJump(p: Program, host: Option<Host>, v: VmState, target: nat)
    requires v.ip < |p.code| && !v.finished && p.code[v.ip] == Instruction(Jump, target, 0)
    ensures Run(p, host, v, 1) == RunResult(v.(ip := target, total := v.total + 1), Yielded)
  {
    hide StepLoad, StepStore, StepIntegerOp, StepConcat, StepCast, StepBranch, StepCall, Run;
    RunOne(p, host, v, p.code[v.ip]);
  }

  /** The local or global named by a symbol now holds the value that was on the stack. */
  lemma RunStore(p: Program, host: Option<Host>, v: VmState, x: Value, sym: Symbol)
    requires v.ip < |p.code| && !v.finished && v.stack == [x]
    requires p.code[v.ip] == Instruction(if sym.scope == Global then StoreGlobal else StoreLocal, sym.slot, 0)
    requires sym.slot < if sym.scope == Global then |v.globals| else |v.locals|
    ensures Run(p, host, v, 1) == RunResult(
      (if sym.scope == Global then v.(globals := v.globals[sym.slot := x]) else v.(locals := v.locals[sym.slot := x]))
        .(ip := v.ip + 1, stack := [], total := v.total + 1), Yielded)
  {
    hide StepLoad, StepIntegerOp, StepConcat, StepCast, StepBranch, StepCall, Run;
    RunOne(p, host, v, p.code[v.ip]);
  }

  lemma RunPop(p: Program, host: Option<Host>, v: VmState, x: Value)
    requires v.ip < |p.code| && !v.finished && v.stack == [x] && p.code[v.ip] == Instruction(Op.Pop, 0, 0)
    ensures Run(p, host, v, 1) == RunResult(v.(ip := v.ip + 1, stack := [], total := v.total + 1), Yielded)
  {
    hide StepLoad, StepIntegerOp, StepConcat, StepCast, StepBranch, StepCall, Run;
    RunOne(p, host, v, p.code[v.ip]);
  }

  lemma RunCall(p: Program, host: Option<Host>, v: VmState, name: Bytes, i: nat)
    requires v.ip < |p.code| && !v.finished && Silent(host)
    requires i < |p.hostNames| && p.hostNames[i] == name && p.code[v.ip] == Instruction(CallHost, i, |v.stack|)
    ensures Run(p, host, v, 1) == RunResult(
      v.(ip := v.ip + 1, stack := [], trace := v.trace + [HostCall(name, v.stack)], total := v.total + 1), Yielded)
  {
    hide StepLoad, StepStore, StepIntegerOp, StepConcat, StepCast, StepBranch, Run;
    RunOne(p, host, v, p.code[v.ip]);
    assert v.stack[..0] == [] && v.stack[0..] == v.stack;
  }

  /** Writing one variable's slot is writing that variable. */
  lemma StoreMatches(v: VmState, st: Store, lay: Layout, env: Env, name: Bytes, x: Value, sym: Symbol)
    requires Matches(v, st, lay)
    requires if name in env.locals then name in lay.locals && lay.locals[name] == sym
             else name in lay.globals && lay.globals[name] == sym
    ensures var w := if sym.scope == Global then v.(globals := v.globals[sym.slot := x])
                     else v.(locals := v.locals[sym.slot := x]);
      Matches(w, WriteName(env, name, x, st), lay)
  {
  }

  /** A store into a resolved name, its value being on the stack. */
  lemma StoreRuns(p: Program, host: Option<Host>, lay: Layout, c: Unit, name: Bytes, x: Value, st: Store, v: VmState, fuel: nat)
    requires Resolve(c, name).Ok? && Placed(c, lay)
    requires v.stack == [x] && v.ip < |p.code| && Matches(v, st, lay)
    requires var sym := Resolve(c, name).value;
      p.code[v.ip] == Instruction(if sym.scope == Global then StoreGlobal else StoreLocal, sym.slot, 0)
    ensures Executed(p, host, v, lay, v.ip + 1, Normal(WriteName(EnvOf(c), name, x, st)), fuel, 1)
  {
    hide Run, Matches, WriteName;
    var sym := Resolve(c, name).value;
    StoreInRange(lay, c, name, st, v);
    RunStore(p, host, v, x, sym);
    StoreMatches(v, st, lay, EnvOf(c), name, x, sym);
    var w := if sym.scope == Global then v.(globals := v.globals[sym.slot := x]) else v.(locals := v.locals[sym.slot := x]);
    MatchesMoved(w, WriteName(EnvOf(c), name, x, st), lay, v.ip + 1, v.total + 1);
  }

  lemma StoreInRange(lay: Layout, c: Unit, name: Bytes, st: Store, v: VmState)
    requires Resolve(c, name).Ok? && Placed(c, lay) && Matches(v, st, lay)
    ensures var sym := Resolve(c, name).value;
      && sym.slot < (if sym.scope == Global then |v.globals| else |v.locals|)
      && (if name in EnvOf(c).locals then name in lay.locals && lay.locals[name] == sym
          else name in lay.globals && lay.globals[name] == sym)
    ensures !v.finished
  {
  }

  /** Where the machine stands, its empty stack and its instruction count are no part of the match. */
  lemma MatchesMoved(v: VmState, st: Store, lay: Layout, ip: nat, total: nat)
    requires Matches(v, st, lay)
    ensures Matches(v.(ip := ip, stack := [], total := total), st, lay)
  {
  }

  lemma {:induction false} StmtRuns(p: Program, host: Option<Host>, lay: Layout, c: Unit, s: Stmt, st: Store, v: VmState, fuel: nat)
      returns (k: nat)
    requires CompileStmt(c, s).Ok? && Silent(host)
    requires Within(p, c, CompileStmt(c, s).value) && Placed(CompileStmt(c, s).value, lay)
    requires Matches(v, st, lay) && v.ip == |c.code| && v.stack == []
    ensures Executed(p, host, v, lay, |CompileStmt(c, s).value.code|, ExecStmt(EnvOf(c), s, st, fuel), fuel, k)
    decreases fuel, s, 1
  {
    hide Executed, Matches;
    match s {
      case Block(statements) => k := BlockRuns(p, host, lay, c, statements, st, v, fuel);
      case VarDecl(ty, name, init) => k := VarDeclRuns(p, host, lay, c, s, st, v, fuel);
      case Assign(name, value) => k := AssignRuns(p, host, lay, c, s, st, v, fuel);
      case ExprStmt(Call(_, _)) => k := CallRuns(p, host, lay, c, s, st, v, fuel);
      case ExprStmt(expr) => k := DiscardRuns(p, host, lay, c, s, st, v, fuel);
      case While(_, _) => k := WhileRuns(p, host, lay, c, s, st, v, fuel);
      case If(_, _, _) => k := IfRuns(p, host, lay, c, s, st, v, fuel);
    }
  }

  /** Where a block's first statement and the rest of it stand. */
  lemma BlockLayout(p: Program, lay: Layout, c: Unit, ss: seq<Stmt>)
    requires ss != [] && CompileBlock(c, ss).Ok?
    requires Within(p, c, CompileBlock(c, ss).value) && Placed(CompileBlock(c, ss).value, lay)
    ensures CompileStmt(c, ss[0]).Ok? && CompileBlock(CompileStmt(c, ss[0]).value, ss[1..]).Ok?
    ensures var c1 := CompileStmt(c, ss[0]).value;
      && CompileBlock(c, ss) == CompileBlock(c1, ss[1..])
      && Within(p, c, c1) && Within(p, c1, CompileBlock(c, ss).value) && Placed(c1, lay)
      && EnvOf(c1) == After(EnvOf(c), ss[0])
  {
    hide CompileStmt, After;
    StmtTypes(c, ss[0]);
    TypedAfter(EnvOf(c), ss[0]);
  }

  lemma RunNone(p: Program, host: Option<Host>, v: VmState)
    requires !v.finished
    ensures Run(p, host, v, 0) == RunResult(v, Yielded)
  {
  }

  lemma {:induction false} BlockRuns(p: Program, host: Option<Host>, lay: Layout, c: Unit, ss: seq<Stmt>, st: Store, v: VmState, fuel: nat)
      returns (k: nat)
    requires CompileBlock(c, ss).Ok? && Silent(host)
    requires Within(p, c, CompileBlock(c, ss).value) && Placed(CompileBlock(c, ss).value, lay)
    requires Matches(v, st, lay) && v.ip == |c.code| && v.stack == []
    ensures Executed(p, host, v, lay, |CompileBlock(c, ss).value.code|, ExecBlock(EnvOf(c), ss, st, fuel), fuel, k)
    decreases fuel, ss, 0
  {
    hide Run, Within, Placed, CompileStmt, LayoutOk, After, EnvOf;
    if ss == [] {
      k := 0;
      RunNone(p, host, v);
    } else {
      var d := CompileBlock(c, ss).value;
      var c1 := CompileStmt(c, ss[0]).value;
      BlockLayout(p, lay, c, ss);
      k := StmtRuns(p, host, lay, c, ss[0], st, v, fuel);
      var o := ExecStmt(EnvOf(c), ss[0], st, fuel);
      if o.Normal? {
        var v1 := Run(p, host, v, k).state;
        var k2 := BlockRuns(p, host, lay, c1, ss[1..], o.store, v1, fuel);
        Resume(p, host, v, k, v1, lay, |d.code|, ExecBlock(EnvOf(c1), ss[1..], o.store, fuel), fuel, k2, fuel);
        k := k + k2;
      }
    }
  }

  /** Where an assignment's value and its store stand. */
  lemma AssignLayout(p: Program, lay: Layout, c: Unit, s: Stmt)
    requires s.Assign? && CompileStmt(c, s).Ok?
    requires Within(p, c, CompileStmt(c, s).value) && Placed(CompileStmt(c, s).value, lay)
    ensures Resolve(c, s.name).Ok? && CompileExpr(c, s.value).Ok? && Placed(c, lay)
    ensures var (c1, t) := CompileExpr(c, s.value).value;
      var sym := Resolve(c, s.name).value;
      && t != Void && Within(p, c, c1) && |CompileStmt(c, s).value.code| == |c1.code| + 1 <= |p.code|
      && p.code[|c1.code|] == Instruction(if sym.scope == Global then StoreGlobal else StoreLocal, sym.slot, 0)
  {
    hide CompileExpr;
    ExprExtends(c, s.value);
    var d := CompileStmt(c, s).value;
    assert p.code[|d.code| - 1] == d.code[|d.code| - 1];
  }

  lemma AssignRuns(p: Program, host: Option<Host>, lay: Layout, c: Unit, s: Stmt, st: Store, v: VmState, fuel: nat)
      returns (k: nat)
    requires s.Assign? && CompileStmt(c, s).Ok?
    requires Within(p, c, CompileStmt(c, s).value) && Placed(CompileStmt(c, s).value, lay)
    requires Matches(v, st, lay) && v.ip == |c.code| && v.stack == []
    ensures Executed(p, host, v, lay, |CompileStmt(c, s).value.code|, ExecStmt(EnvOf(c), s, st, fuel), fuel, k)
  {
    hide Run, Within, Placed, CompileStmt, CompileExpr, LayoutOk, EvalExpr, EnvOf, Resolve;
    AssignLayout(p, lay, c, s);
    var (c1, t) := CompileExpr(c, s.value).value;
    k := ExprRuns(p, host, lay, c, s.value, st, v);
    var x := EvalExpr(EnvOf(c), s.value, st);
    if x.None? {
      FaultIsOutside(Run(p, host, v, k), v, st, lay);
    } else {
      var v1 := Pushed(v, |c1.code|, x.value, k);
      assert Matches(v1, st, lay);
      hide Executed, Matches;
      StoreRuns(p, host, lay, c, s.name, x.value, st, v1, fuel);
      Resume(p, host, v, k, v1, lay, |c1.code| + 1, Normal(WriteName(EnvOf(c), s.name, x.value, st)), fuel, 1, fuel);
      k := k + 1;
    }
  }

  lemma DiscardLayout(p: Program, lay: Layout, c: Unit, s: Stmt)
    requires s.ExprStmt? && !s.expr.Call? && CompileStmt(c, s).Ok?
    requires Within(p, c, CompileStmt(c, s).value) && Placed(CompileStmt(c, s).value, lay)
    ensures CompileExpr(c, s.expr).Ok? && Placed(c, lay)
    ensures var (c1, t) := CompileExpr(c, s.expr).value;
      && t != Void && Within(p, c, c1) && |CompileStmt(c, s).value.code| == |c1.code| + 1 <= |p.code|
      && p.code[|c1.code|] == Instruction(Op.Pop, 0, 0)
  {
    assert CompileExpr(c, s.expr).value.1 != Void;
    hide CompileExpr;
    ExprExtends(c, s.expr);
    var d := CompileStmt(c, s).value;
    assert p.code[|d.code| - 1] == d.code[|d.code| - 1];
  }

  lemma DiscardRuns(p: Program, host: Option<Host>, lay: Layout, c: Unit, s: Stmt, st: Store, v: VmState, fuel: nat)
      returns (k: nat)
    requires s.ExprStmt? && !s.expr.Call? && CompileStmt(c, s).Ok?
    requires Within(p, c, CompileStmt(c, s).value) && Placed(CompileStmt(c, s).value, lay)
    requires Matches(v, st, lay) && v.ip == |c.code| && v.stack == []
    ensures Executed(p, host, v, lay, |CompileStmt(c, s).value.code|, ExecStmt(EnvOf(c), s, st, fuel), fuel, k)
  {
    hide Run, Within, Placed, CompileStmt, CompileExpr, LayoutOk, EvalExpr, EnvOf;
    DiscardLayout(p, lay, c, s);
    var (c1, t) := CompileExpr(c, s.expr).value;
    k := ExprRuns(p, host, lay, c, s.expr, st, v);
    var x := EvalExpr(EnvOf(c), s.expr, st);
    if x.None? {
      FaultIsOutside(Run(p, host, v, k), v, st, lay);
    } else {
      var v1 := Pushed(v, |c1.code|, x.value, k);
      RunPop(p, host, v1, x.value);
      Chain(p, host, v, k, 1);
      k := k + 1;
    }
  }

  /** Where a call's arguments and the call itself stand. */
  lemma CallLayout(p: Program, lay: Layout, c: Unit, s: Stmt)
    requires s.ExprStmt? && s.expr.Call? && CompileStmt(c, s).Ok?
    requires Within(p, c, CompileStmt(c, s).value) && Placed(CompileStmt(c, s).value, lay)
    ensures LookupHost(s.expr.callee).Some? && Placed(c, lay)
    ensures var types := LookupHost(s.expr.callee).value.params;
      && |s.expr.args| == |types| && CompileArgs(c, s.expr.callee, s.expr.args, types, 0).Ok?
      && var c1 := CompileArgs(c, s.expr.callee, s.expr.args, types, 0).value;
      && var i := IndexOf(c1.hostNames, s.expr.callee);
      && Within(p, c, c1) && |CompileStmt(c, s).value.code| == |c1.code| + 1 <= |p.code|
      && p.code[|c1.code|] == Instruction(CallHost, i, |types|)
      && i < |p.hostNames| && p.hostNames[i] == s.expr.callee
  {
    hide CompileArgs;
    var types := LookupHost(s.expr.callee).value.params;
    var c1 := CompileArgs(c, s.expr.callee, s.expr.args, types, 0).value;
    ArgsExtend(c, s.expr.callee, s.expr.args, types, 0);
    var d := CompileStmt(c, s).value;
    assert d == Emit(InternHost(c1, s.expr.callee), CallHost, IndexOf(c1.hostNames, s.expr.callee), |types|);
    assert p.code[|c1.code|] == d.code[|c1.code|];
  }

  lemma CallRuns(p: Program, host: Option<Host>, lay: Layout, c: Unit, s: Stmt, st: Store, v: VmState, fuel: nat)
      returns (k: nat)
    requires s.ExprStmt? && s.expr.Call? && CompileStmt(c, s).Ok? && Silent(host)
    requires Within(p, c, CompileStmt(c, s).value) && Placed(CompileStmt(c, s).value, lay)
    requires Matches(v, st, lay) && v.ip == |c.code| && v.stack == []
    ensures Executed(p, host, v, lay, |CompileStmt(c, s).value.code|, ExecStmt(EnvOf(c), s, st, fuel), fuel, k)
  {
    hide Run, Within, Placed, CompileStmt, CompileArgs, LayoutOk, EvalArgs, EnvOf, Silent, LookupHost;
    CallLayout(p, lay, c, s);
    var callee, args := s.expr.callee, s.expr.args;
    var types := LookupHost(callee).value.params;
    var c1 := CompileArgs(c, callee, args, types, 0).value;
    k := ArgsRun(p, host, lay, c, callee, args, types, 0, st, v);
    var xs := EvalArgs(EnvOf(c), args, st);
    if xs.None? {
      FaultIsOutside(Run(p, host, v, k), v, st, lay);
    } else {
      EvalArgsLength(EnvOf(c), args, st);
      assert [] + xs.value == xs.value;
      var v1 := v.(ip := |c1.code|, stack := xs.value, total := v.total + k);
      RunCall(p, host, v1, callee, IndexOf(c1.hostNames, callee));
      Chain(p, host, v, k, 1);
      k := k + 1;
    }
  }

  lemma {:induction false} EvalArgsLength(env: Env, args: seq<Expr>, st: Store)
    ensures EvalArgs(env, args, st).Some? ==> |EvalArgs(env, args, st).value| == |args|
    decreases |args|
  {
    if args != [] {
      EvalArgsLength(env, args[1..], st);
    }
  }

  /** Where a declaration's initializer and its store stand, and what slot it takes. */
  lemma VarDeclLayout(p: Program, lay: Layout, c: Unit, s: Stmt)
    requires s.VarDecl? && CompileStmt(c, s).Ok?
    requires Within(p, c, CompileStmt(c, s).value) && Placed(CompileStmt(c, s).value, lay)
    ensures var c0 := c.(localCount := c.localCount + 1);
      && CompileInit(c0, s.ty, s.name, s.init).Ok? && Placed(c0, lay) && EnvOf(c0) == EnvOf(c)
      && var c1 := CompileInit(c0, s.ty, s.name, s.init).value;
      && Within(p, c0, c1) && |CompileStmt(c, s).value.code| == |c1.code| + 1 <= |p.code|
      && p.code[|c1.code|] == Instruction(StoreLocal, c.localCount, 0)
      && s.name in lay.locals && lay.locals[s.name] == Symbol(Local, c.localCount, s.ty)
  {
    hide CompileInit;
    var c0 := c.(localCount := c.localCount + 1);
    var c1 := CompileInit(c0, s.ty, s.name, s.init).value;
    var d := CompileStmt(c, s).value;
    assert Extends(c0, c1) && s.name !in c.locals;
    assert p.code[|c1.code|] == d.code[|c1.code|];
    assert d.locals == c1.locals[s.name := Symbol(Local, c.localCount, s.ty)];
    forall n | n in c.locals
      ensures n in lay.locals && lay.locals[n] == c.locals[n]
    {
      assert n in c1.locals && n in d.locals;
    }
  }

  lemma VarDeclRuns(p: Program, host: Option<Host>, lay: Layout, c: Unit, s: Stmt, st: Store, v: VmState, fuel: nat)
      returns (k: nat)
    requires s.VarDecl? && CompileStmt(c, s).Ok?
    requires Within(p, c, CompileStmt(c, s).value) && Placed(CompileStmt(c, s).value, lay)
    requires Matches(v, st, lay) && v.ip == |c.code| && v.stack == []
    ensures Executed(p, host, v, lay, |CompileStmt(c, s).value.code|, ExecStmt(EnvOf(c), s, st, fuel), fuel, k)
  {
    hide Run, Within, Placed, CompileStmt, CompileInit, LayoutOk, EvalExpr, EnvOf;
    VarDeclLayout(p, lay, c, s);
    var c0 := c.(localCount := c.localCount + 1);
    var c1 := CompileInit(c0, s.ty, s.name, s.init).value;
    var sym := Symbol(Local, c.localCount, s.ty);
    k := InitRuns(p, host, lay, c0, s, st, v);
    var x := InitialValue(EnvOf(c), s.ty, s.init, st);
    if x.None? {
      FaultIsOutside(Run(p, host, v, k), v, st, lay);
    } else {
      var v1 := Pushed(v, |c1.code|, x.value, k);
      DeclaredMatches(v1, st, lay, s.name, x.value, sym);
      RunStore(p, host, v1, x.value, sym);
      Chain(p, host, v, k, 1);
      k := k + 1;
    }
  }

  lemma DeclaredMatches(v: VmState, st: Store, lay: Layout, name: Bytes, x: Value, sym: Symbol)
    requires Matches(v, st, lay) && name in lay.locals && lay.locals[name] == sym
    ensures sym.scope == Local && sym.slot < |v.locals|
    ensures Matches(v.(locals := v.locals[sym.slot := x]), st.(locals := st.locals[name := x]), lay)
  {
  }

  function InitialValue(env: Env, ty: ValueType, init: Option<Expr>, st: Store): Option<Value> {
    match init
    case None => Some(DefaultValue(ty))
    case Some(e) => EvalExpr(env, e, st)
  }

  lemma InitRuns(p: Program, host: Option<Host>, lay: Layout, c: Unit, s: Stmt, st: Store, v: VmState) returns (k: nat)
    requires s.VarDecl? && CompileInit(c, s.ty, s.name, s.init).Ok?
    requires Within(p, c, CompileInit(c, s.ty, s.name, s.init).value) && Placed(c, lay)
    requires Matches(v, st, lay) && v.ip == |c.code|
    ensures Evaluated(p, host, v, |CompileInit(c, s.ty, s.name, s.init).value.code|,
                      InitialValue(EnvOf(c), s.ty, s.init, st), k)
  {
    match s.init
    case None => k := ConstantRuns(p, host, c, DefaultValue(s.ty), v);
    case Some(e) => k := ExprRuns(p, host, lay, c, e, st, v);
  }

  lemma ConditionIsInteger(c: Unit, e: Expr)
    requires CompileCondition(c, e).Ok?
    ensures CompileExpr(c, e) == Ok((CompileCondition(c, e).value, Integer))
  {
  }

  /** A condition leaves its integer on the stack, and the branch takes it. */
  lemma ConditionRuns(p: Program, host: Option<Host>, lay: Layout, c: Unit, e: Expr, target: nat, st: Store, v: VmState)
      returns (k: nat)
    requires CompileCondition(c, e).Ok?
    requires Within(p, c, CompileCondition(c, e).value) && Placed(c, lay)
    requires |CompileCondition(c, e).value.code| < |p.code|
    requires p.code[|CompileCondition(c, e).value.code|] == Instruction(JumpIfZero, target, 0)
    requires Matches(v, st, lay) && v.ip == |c.code| && v.stack == []
    ensures k > 0
    ensures match EvalExpr(EnvOf(c), e, st)
      case Some(Int(n)) =>
        Run(p, host, v, k) == RunResult(
          v.(ip := if n == 0 then target else |CompileCondition(c, e).value.code| + 1, total := v.total + k), Yielded)
      case _ => FaultedFrom(Run(p, host, v, k), v)
  {
    hide Run, CompileExpr, CompileCondition, EvalExpr, LayoutOk, Within, Placed, EnvOf;
    ConditionIsInteger(c, e);
    var c1 := CompileCondition(c, e).value;
    k := ExprRuns(p, host, lay, c, e, st, v);
    var x := EvalExpr(EnvOf(c), e, st);
    if x.Some? {
      var v1 := Pushed(v, |c1.code|, x.value, k);
      RunBranch(p, host, v1, x.value, target);
      Chain(p, host, v, k, 1);
      k := k + 1;
    }
  }

  lemma {:induction false} WhileRuns(p: Program, host: Option<Host>, lay: Layout, c: Unit, s: Stmt, st: Store, v: VmState, fuel: nat)
      returns (k: nat)
    requires s.While? && CompileStmt(c, s).Ok? && Silent(host)
    requires Within(p, c, CompileStmt(c, s).value) && Placed(CompileStmt(c, s).value, lay)
    requires Matches(v, st, lay) && v.ip == |c.code| && v.stack == []
    ensures Executed(p, host, v, lay, |CompileStmt(c, s).value.code|, ExecStmt(EnvOf(c), s, st, fuel), fuel, k)
    decreases fuel, s, 0
  {
    hide Within, Placed, CompileStmt, CompileBlock, CompileCondition, LayoutOk, EvalExpr, EnvOf;
    WhileLayout(p, lay, c, s);
    if fuel == 0 {
      k := 0;
    } else {
      hide Run;
      var c1 := CompileCondition(c, s.condition).value;
      var c2 := Emit(c1, JumpIfZero, 0, 0);
      var c3 := CompileBlock(c2, s.body).value;
      var d := CompileStmt(c, s).value;
      k := ConditionRuns(p, host, lay, c, s.condition, |d.code|, st, v);
      var x := EvalExpr(EnvOf(c), s.condition, st);
      if x.None? || x.value.Str? {
        FaultIsOutside(Run(p, host, v, k), v, st, lay);
      } else if x.value.integer != 0 {
        var v1 := v.(ip := |c2.code|, total := v.total + k);
        assert Matches(v1, st, lay);
        var k2 := IterationRuns(p, host, lay, c, s, st, v1, fuel - 1);
        Resume(p, host, v, k, v1, lay, |d.code|, Iterate(EnvOf(c), s, st, fuel - 1), fuel - 1, k2, fuel);
        k := k + k2;
      }
    }
  }

  /** The body once, and then the whole loop again. */
  function Iterate(env: Env, s: Stmt, st: Store, fuel: nat): Outcome
    requires s.While?
  {
    match ExecBlock(env, s.body, st, fuel)
    case Normal(st1) => ExecStmt(env, s, st1, fuel)
    case other => other
  }

  lemma {:induction false} IterationRuns(p: Program, host: Option<Host>, lay: Layout, c: Unit, s: Stmt, st: Store, v: VmState, fuel: nat)
      returns (k: nat)
    requires s.While? && CompileStmt(c, s).Ok? && Silent(host)
    requires Within(p, c, CompileStmt(c, s).value) && Placed(CompileStmt(c, s).value, lay)
    requires Matches(v, st, lay) && v.ip == |CompileCondition(c, s.condition).value.code| + 1 && v.stack == []
    ensures Executed(p, host, v, lay, |CompileStmt(c, s).value.code|, Iterate(EnvOf(c), s, st, fuel), fuel, k)
    decreases fuel, s, 2
  {
    hide Run, Within, Placed, CompileStmt, CompileBlock, CompileCondition, LayoutOk, EvalExpr, EnvOf;
    WhileLayout(p, lay, c, s);
    var c1 := CompileCondition(c, s.condition).value;
    var c2 := Emit(c1, JumpIfZero, 0, 0);
    var c3 := CompileBlock(c2, s.body).value;
    var d := CompileStmt(c, s).value;
    k := BlockRuns(p, host, lay, c2, s.body, st, v, fuel);
    var o := ExecBlock(EnvOf(c), s.body, st, fuel);
    if o.Normal? {
      var v1 := Run(p, host, v, k).state;
      RunJump(p, host, v1, |c.code|);
      Chain(p, host, v, k, 1);
      var v2 := v1.(ip := |c.code|, total := v1.total + 1);
      assert Matches(v2, o.store, lay);
      var k2 := WhileRuns(p, host, lay, c, s, o.store, v2, fuel);
      Resume(p, host, v, k + 1, v2, lay, |d.code|, ExecStmt(EnvOf(c), s, o.store, fuel), fuel, k2, fuel);
      k := k + 1 + k2;
    }
  }

  /** Where a loop's condition, exit jump, body and back jump stand. */
  lemma WhileLayout(p: Program, lay: Layout, c: Unit, s: Stmt)
    requires s.While? && CompileStmt(c, s).Ok?
    requires Within(p, c, CompileStmt(c, s).value) && Placed(CompileStmt(c, s).value, lay)
    ensures CompileCondition(c, s.condition).Ok?
    ensures CompileBlock(Emit(CompileCondition(c, s.condition).value, JumpIfZero, 0, 0), s.body).Ok?
    ensures var c1 := CompileCondition(c, s.condition).value;
      var c2 := Emit(c1, JumpIfZero, 0, 0);
      var c3 := CompileBlock(c2, s.body).value;
      var d := CompileStmt(c, s).value;
      && Within(p, c, c1) && Within(p, c2, c3) && Placed(c, lay) && Placed(c3, lay) && EnvOf(c2) == EnvOf(c)
      && |c1.code| < |c3.code| < |d.code| <= |p.code|
      && p.code[|c1.code|] == Instruction(JumpIfZero, |d.code|, 0)
      && p.code[|c3.code|] == Instruction(Jump, |c.code|, 0)
  {
    hide CompileExpr;
    ConditionTypes(c, s.condition);
    var c1 := CompileCondition(c, s.condition).value;
    var c2 := Emit(c1, JumpIfZero, 0, 0);
    var c3 := CompileBlock(c2, s.body).value;
    var d := CompileStmt(c, s).value;
    assert Extends(c2, c3);
    assert c3.code[|c1.code|] == c2.code[|c1.code|];
    hide CompileBlock;
    assert d.code[|c1.code|] == Instruction(JumpIfZero, |d.code|, 0);
    assert d.code[|c3.code|] == Instruction(Jump, |c.code|, 0);
  }

  lemma {:induction false} IfRuns(p: Program, host: Option<Host>, lay: Layout, c: Unit, s: Stmt, st: Store, v: VmState, fuel: nat)
      returns (k: nat)
    requires s.If? && CompileStmt(c, s).Ok? && Silent(host)
    requires Within(p, c, CompileStmt(c, s).value) && Placed(CompileStmt(c, s).value, lay)
    requires Matches(v, st, lay) && v.ip == |c.code| && v.stack == []
    ensures Executed(p, host, v, lay, |CompileStmt(c, s).value.code|, ExecStmt(EnvOf(c), s, st, fuel), fuel, k)
    decreases fuel, s, 0
  {
    hide Run, Within, Placed, CompileStmt, CompileBlock, CompileCondition, LayoutOk, EvalExpr, EnvOf;
    IfLayout(p, lay, c, s);
    var c1 := CompileCondition(c, s.condition).value;
    var c2 := Emit(c1, JumpIfZero, 0, 0);
    var c3 := CompileBlock(c2, s.thenBranch).value;
    var d := CompileStmt(c, s).value;
    var target := if s.elseBranch.NoElse? then |c3.code| else |c3.code| + 1;
    k := ConditionRuns(p, host, lay, c, s.condition, target, st, v);
    var x := EvalExpr(EnvOf(c), s.condition, st);
    if x.None? || x.value.Str? {
      FaultIsOutside(Run(p, host, v, k), v, st, lay);
    } else if x.value.integer != 0 {
      var v1 := v.(ip := |c2.code|, total := v.total + k);
      assert Matches(v1, st, lay);
      var k2 := ThenRuns(p, host, lay, c, s, st, v1, fuel);
      Resume(p, host, v, k, v1, lay, |d.code|, ExecBlock(EnvOf(c), s.thenBranch, st, fuel), fuel, k2, fuel);
      k := k + k2;
    } else if s.elseBranch.Else? {
      var c5 := Patch(Emit(c3, Jump, 0, 0), |c1.code|, |c3.code| + 1);
      var v1 := v.(ip := |c5.code|, total := v.total + k);
      assert Matches(v1, st, lay);
      var k2 := BlockRuns(p, host, lay, c5, s.elseBranch.body, st, v1, fuel);
      Resume(p, host, v, k, v1, lay, |d.code|, ExecBlock(EnvOf(c5), s.elseBranch.body, st, fuel), fuel, k2, fuel);
      k := k + k2;
    }
  }

  /** The branch taken, and the jump over the other one. */
  lemma {:induction false} ThenRuns(p: Program, host: Option<Host>, lay: Layout, c: Unit, s: Stmt, st: Store, v: VmState, fuel: nat)
      returns (k: nat)
    requires s.If? && CompileStmt(c, s).Ok? && Silent(host)
    requires Within(p, c, CompileStmt(c, s).value) && Placed(CompileStmt(c, s).value, lay)
    requires Matches(v, st, lay) && v.ip == |CompileCondition(c, s.condition).value.code| + 1 && v.stack == []
    ensures Executed(p, host, v, lay, |CompileStmt(c, s).value.code|, ExecBlock(EnvOf(c), s.thenBranch, st, fuel), fuel, k)
    decreases fuel, s.thenBranch, 1
  {
    hide Run, Within, Placed, CompileStmt, CompileBlock, CompileCondition, LayoutOk, EvalExpr, EnvOf;
    IfLayout(p, lay, c, s);
    var c1 := CompileCondition(c, s.condition).value;
    var c2 := Emit(c1, JumpIfZero, 0, 0);
    var d := CompileStmt(c, s).value;
    k := BlockRuns(p, host, lay, c2, s.thenBranch, st, v, fuel);
    var o := ExecBlock(EnvOf(c), s.thenBranch, st, fuel);
    if o.Normal? && s.elseBranch.Else? {
      var v1 := Run(p, host, v, k).state;
      RunJump(p, host, v1, |d.code|);
      Chain(p, host, v, k, 1);
      k := k + 1;
    }
  }

  /** Where the two branches and the two jumps of a conditional stand. */
  lemma IfLayout(p: Program, lay: Layout, c: Unit, s: Stmt)
    requires s.If? && CompileStmt(c, s).Ok?
    requires Within(p, c, CompileStmt(c, s).value) && Placed(CompileStmt(c, s).value, lay)
    ensures CompileCondition(c, s.condition).Ok?
    ensures CompileBlock(Emit(CompileCondition(c, s.condition).value, JumpIfZero, 0, 0), s.thenBranch).Ok?
    ensures var c1 := CompileCondition(c, s.condition).value;
      var c2 := Emit(c1, JumpIfZero, 0, 0);
      var c3 := CompileBlock(c2, s.thenBranch).value;
      var d := CompileStmt(c, s).value;
      && Within(p, c, c1) && Within(p, c2, c3) && Placed(c, lay) && Placed(c3, lay)
      && EnvOf(c2) == EnvOf(c) && EnvOf(c3) == AfterBlock(EnvOf(c), s.thenBranch)
      && |c1.code| < |c3.code| <= |d.code| <= |p.code|
      && match s.elseBranch
         case NoElse => |d.code| == |c3.code| && p.code[|c1.code|] == Instruction(JumpIfZero, |c3.code|, 0)
         case Else(body) =>
           var c5 := Patch(Emit(c3, Jump, 0, 0), |c1.code|, |c3.code| + 1);
           && |c3.code| < |d.code| && EnvOf(c5) == EnvOf(c3)
           && p.code[|c1.code|] == Instruction(JumpIfZero, |c3.code| + 1, 0)
           && p.code[|c3.code|] == Instruction(Jump, |d.code|, 0)
           && CompileBlock(c5, body).Ok? && |CompileBlock(c5, body).value.code| == |d.code|
           && Within(p, c5, CompileBlock(c5, body).value) && Placed(CompileBlock(c5, body).value, lay)
  {
    hide CompileExpr, CompileBlock;
    ConditionTypes(c, s.condition);
    var c1 := CompileCondition(c, s.condition).value;
    var c2 := Emit(c1, JumpIfZero, 0, 0);
    var c3 := CompileBlock(c2, s.thenBranch).value;
    BlockTypes(c2, s.thenBranch);
    TypedAfterBlock(EnvOf(c2), s.thenBranch);
    assert Extends(c2, c3) && c3.code[|c1.code|] == c2.code[|c1.code|];
    if s.elseBranch.Else? {
      ElseLayout(p, lay, c, s, c1, c2, c3);
    }
  }

  lemma ElseLayout(p: Program, lay: Layout, c: Unit, s: Stmt, c1: Unit, c2: Unit, c3: Unit)
    requires s.If? && s.elseBranch.Else? && CompileStmt(c, s).Ok?
    requires Within(p, c, CompileStmt(c, s).value) && Placed(CompileStmt(c, s).value, lay)
    requires CompileCondition(c, s.condition) == Ok(c1) && c2 == Emit(c1, JumpIfZero, 0, 0)
    requires CompileBlock(c2, s.thenBranch) == Ok(c3)
    requires |c.code| <= |c1.code| < |c3.code| && c3.code[|c1.code|] == Instruction(JumpIfZero, 0, 0)
    ensures var c5 := Patch(Emit(c3, Jump, 0, 0), |c1.code|, |c3.code| + 1);
      var d := CompileStmt(c, s).value;
      && |c3.code| < |d.code| && EnvOf(c5) == EnvOf(c3) && Placed(c3, lay)
      && (forall i :: |c2.code| <= i < |c3.code| ==> p.code[i] == c3.code[i])
      && (forall i :: |c.code| <= i < |c1.code| ==> p.code[i] == c3.code[i])
      && c3.constants <= p.constants && c3.hostNames <= p.hostNames
      && p.code[|c1.code|] == Instruction(JumpIfZero, |c3.code| + 1, 0)
      && p.code[|c3.code|] == Instruction(Jump, |d.code|, 0)
      && CompileBlock(c5, s.elseBranch.body).Ok? && |CompileBlock(c5, s.elseBranch.body).value.code| == |d.code|
      && Within(p, c5, CompileBlock(c5, s.elseBranch.body).value) && Placed(CompileBlock(c5, s.elseBranch.body).value, lay)
  {
    hide CompileExpr, CompileBlock, CompileCondition;
    var c5 := Patch(Emit(c3, Jump, 0, 0), |c1.code|, |c3.code| + 1);
    var c6 := CompileBlock(c5, s.elseBranch.body).value;
    var d := CompileStmt(c, s).value;
    assert d == Patch(c6, |c3.code|, |c6.code|);
    hide CompileStmt;
    assert Extends(c5, c6);
    assert forall i :: 0 <= i < |c5.code| ==> c6.code[i] == c5.code[i];
    assert d.code[|c1.code|] == Instruction(JumpIfZero, |c3.code| + 1, 0);
    assert d.code[|c3.code|] == Instruction(Jump, |d.code|, 0);
  }
}
