/** The explicit-stack virtual machine: one instruction at a time, under a budget. */
module Vm {
  import opened Prelude
  import opened Bytecode

  datatype HostCall = HostCall(name: Bytes, args: seq<Value>)

  /** What the host answers to a call, given every call made before it. */
  type Host = (Bytes, seq<Value>, seq<HostCall>) -> Option<Value>

  datatype Fault =
    | IpOutOfRange | StackUnderflow | ExpectedInteger | ExpectedStrings
    | ConstantOutOfRange | LocalOutOfRange | GlobalOutOfRange
    | HostOutOfRange | HostArgumentUnderflow | NoHost

  datatype RunStatus = Finished | Yielded | Error

  /** Everything a virtual machine owns, and the host calls it has made. */
  datatype VmState = VmState(
    ip: nat,
    stack: seq<Value>,
    locals: seq<Value>,
    globals: seq<Value>,
    finished: bool,
    error: Option<Fault>,
    total: nat,
    trace: seq<HostCall>)

  /** One instruction either completes, or traps and leaves the state it had reached. */
  datatype StepResult = Next(state: VmState) | Trap(fault: Fault, state: VmState)

  function Push(s: VmState, v: Value): VmState {
    s.(stack := s.stack + [v])
  }

  function Top(s: VmState): Value
    requires s.stack != []
  {
    s.stack[|s.stack| - 1]
  }

  function Drop(s: VmState): VmState
    requires s.stack != []
  {
    s.(stack := s.stack[..|s.stack| - 1])
  }

  /** The 32-bit meaning of the integer operators. */
  function IntegerOp(op: Op, a: int32, b: int32): int32 {
    match op
    case AddInt => Wrap32(a + b)
    case SubInt => Wrap32(a - b)
    case MulInt => Wrap32(a * b)
    case LessInt => if a < b then 1 else 0
    case GreaterInt => if a > b then 1 else 0
    case _ => if a == b then 1 else 0
  }

  /** Pops the right operand, then the left one, and pushes the result. */
  function StepIntegerOp(op: Op, s: VmState): StepResult {
    if s.stack == [] then Trap(StackUnderflow, s)
    else if !Top(s).Int? then Trap(ExpectedInteger, Drop(s))
    else
      var s1 := Drop(s);
      if s1.stack == [] then Trap(StackUnderflow, s1)
      else if !Top(s1).Int? then Trap(ExpectedInteger, Drop(s1))
      else Next(Push(Drop(s1), Int(IntegerOp(op, Top(s1).integer, Top(s).integer))))
  }

  function StepConcat(s: VmState): StepResult {
    if s.stack == [] then Trap(StackUnderflow, s)
    else
      var s1 := Drop(s);
      if s1.stack == [] then Trap(StackUnderflow, s1)
      else if !Top(s1).Str? || !Top(s).Str? then Trap(ExpectedStrings, Drop(s1))
      else Next(Push(Drop(s1), Str(Top(s1).text + Top(s).text)))
  }

  /** A jump operand is reinterpreted as an unsigned 64-bit instruction index. */
  function JumpTarget(a: int): nat {
    if a >= 0 then a else a % TWO_64
  }

  function StepCall(p: Program, host: Option<Host>, instr: Instruction, s: VmState): StepResult {
    if !(0 <= instr.a < |p.hostNames|) then Trap(HostOutOfRange, s)
    else if !(0 <= instr.b <= |s.stack|) then Trap(HostArgumentUnderflow, s)
    else
      var keep := |s.stack| - instr.b;
      var s1 := s.(stack := s.stack[..keep]);
      if host.None? then Trap(NoHost, s1)
      else
        var call := HostCall(p.hostNames[instr.a], s.stack[keep..]);
        var answer := host.value(call.name, call.args, s.trace);
        var s2 := s1.(trace := s.trace + [call]);
        Next(if answer.Some? then Push(s2, answer.value) else s2)
  }

  /** Pushes a constant or a copy of a slot. */
  function StepLoad(p: Program, instr: Instruction, s: VmState): StepResult {
    match instr.op
    case PushConst =>
      if 0 <= instr.a < |p.constants| then Next(Push(s, p.constants[instr.a]))
      else Trap(ConstantOutOfRange, s)
    case LoadLocal =>
      if 0 <= instr.a < |s.locals| then Next(Push(s, s.locals[instr.a]))
      else Trap(LocalOutOfRange, s)
    case _ =>
      if 0 <= instr.a < |s.globals| then Next(Push(s, s.globals[instr.a]))
      else Trap(GlobalOutOfRange, s)
  }

  /** Pops a value into a slot, or into nothing. */
  function StepStore(instr: Instruction, s: VmState): StepResult {
    if s.stack == [] then Trap(StackUnderflow, s)
    else
      match instr.op
      case StoreLocal =>
        if !(0 <= instr.a < |s.locals|) then Trap(LocalOutOfRange, Drop(s))
        else Next(Drop(s).(locals := s.locals[instr.a := Top(s)]))
      case StoreGlobal =>
        if !(0 <= instr.a < |s.globals|) then Trap(GlobalOutOfRange, Drop(s))
        else Next(Drop(s).(globals := s.globals[instr.a := Top(s)]))
      case _ => Next(Drop(s))
  }

  function StepCast(s: VmState): StepResult {
    if s.stack == [] then Trap(StackUnderflow, s)
    else if !Top(s).Int? then Trap(ExpectedInteger, Drop(s))
    else Next(Push(Drop(s), Str(IntToString(Top(s).integer))))
  }

  function StepBranch(instr: Instruction, s: VmState): StepResult {
    if s.stack == [] then Trap(StackUnderflow, s)
    else if !Top(s).Int? then Trap(ExpectedInteger, Drop(s))
    else if Top(s).integer == 0 then Next(Drop(s).(ip := JumpTarget(instr.a)))
    else Next(Drop(s))
  }

  /** The effect of one instruction, the instruction pointer having moved past it. */
  function Execute(p: Program, host: Option<Host>, instr: Instruction, s: VmState): StepResult {
    match instr.op
    case PushConst | LoadLocal | LoadGlobal => StepLoad(p, instr, s)
    case StoreLocal | StoreGlobal | Pop => StepStore(instr, s)
    case ConcatStr => StepConcat(s)
    case CastIntToStr => StepCast(s)
    case Jump => Next(s.(ip := JumpTarget(instr.a)))
    case JumpIfZero => StepBranch(instr, s)
    case CallHost => StepCall(p, host, instr, s)
    case Halt => Next(s.(finished := true))
    case AddInt | SubInt | MulInt | LessInt | GreaterInt | EqualInt => StepIntegerOp(instr.op, s)
  }

  function Step(p: Program, host: Option<Host>, s: VmState): StepResult {
    if s.ip >= |p.code| then Trap(IpOutOfRange, s)
    else Execute(p, host, p.code[s.ip], s.(ip := s.ip + 1))
  }

  datatype RunResult = RunResult(state: VmState, status: RunStatus)

  /** At most `budget` instructions; a trap stops the machine and is reported once. */
  function Run(p: Program, host: Option<Host>, s: VmState, budget: nat): RunResult
    decreases budget
  {
    if s.finished then RunResult(s, Finished)
    else if budget == 0 then RunResult(s, Yielded)
    else
      match Step(p, host, s)
      case Next(s1) => Run(p, host, s1.(total := s1.total + 1), budget - 1)
      case Trap(f, s1) => RunResult(s1.(error := Some(f), finished := true), Error)
  }

  /** A machine that has never been dispatched. */
  function Fresh(p: Program): VmState {
    VmState(0, [], [], p.globalDefaults, true, None, 0, [])
  }

  datatype DispatchError = NoSuchEvent | WrongArgumentCount | WrongArgumentType(position: nat)

  /** The first argument whose type differs from the handler's parameter. */
  function FirstMistyped(args: seq<Value>, types: seq<ValueType>, from: nat): (r: Option<nat>)
    requires |args| == |types| && from <= |args|
    ensures r.Some? ==> from <= r.value < |args| && TypeOf(args[r.value]) != types[r.value]
    ensures forall i :: from <= i < (if r.Some? then r.value else |args|) ==> TypeOf(args[i]) == types[i]
    decreases |args| - from
  {
    if from == |args| then None
    else if TypeOf(args[from]) != types[from] then Some(from)
    else FirstMistyped(args, types, from + 1)
  }

  /** A vector grown or cut to `n` zero integers whose front holds the arguments. */
  function InitialLocals(n: int, args: seq<Value>): (r: seq<Value>)
    requires |args| <= n
    ensures |r| == n
    ensures forall i :: 0 <= i < n ==> r[i] == if i < |args| then args[i] else Int(0)
  {
    args + seq(n - |args|, _ => Int(0))
  }

  function Dispatch(p: Program, s: VmState, event: Bytes, args: seq<Value>): Result<VmState, DispatchError>
    requires SlotsCoverParameters(p)
  {
    match FindEvent(p.events, event)
    case None => Err(NoSuchEvent)
    case Some(entry) =>
      if |args| != |entry.paramTypes| then Err(WrongArgumentCount)
      else
        match FirstMistyped(args, entry.paramTypes, 0)
        case Some(i) => Err(WrongArgumentType(i))
        case None =>
          FindEventSlots(p.events, event);
          Ok(s.(locals := InitialLocals(entry.localCount, args), stack := [],
                ip := JumpTarget(entry.entryIp), finished := false, error := None))
  }

  /** Every handler reserves a slot for each of its parameters. */
  ghost predicate SlotsCoverParameters(p: Program) {
    forall e :: e in p.events ==> |e.paramTypes| <= e.localCount
  }

  lemma FindEventSlots(events: seq<EventEntry>, name: Bytes)
    ensures FindEvent(events, name).Some? ==> FindEvent(events, name).value in events
  {
  }

  /** The machine itself: every field is updated in place, one instruction at a time. */
  class VM {
    const program: Program
    var host: Option<Host>
    var ip: nat
    var stack: seq<Value>
    var locals: seq<Value>
    var globals: seq<Value>
    var finished: bool
    var error: Option<Fault>
    var total: nat
    var trace: seq<HostCall>

    constructor (program: Program)
      ensures this.program == program && host == None
      ensures State() == Fresh(program)
    {
      this.program := program;
      host := None;
      ip, stack, locals, globals := 0, [], [], program.globalDefaults;
      finished, error, total, trace := true, None, 0, [];
    }

    ghost function State(): VmState
      reads this
    {
      VmState(ip, stack, locals, globals, finished, error, total, trace)
    }

    method SetHost(h: Host)
      modifies this`host
      ensures host == Some(h)
    {
      host := Some(h);
    }

    method PopValue() returns (r: Result<Value, Fault>)
      modifies this`stack
      ensures old(stack) == [] ==> r == Err(StackUnderflow) && stack == []
      ensures old(stack) != [] ==> r == Ok(Top(old(State()))) && State() == Drop(old(State()))
    {
      if stack == [] {
        return Err(StackUnderflow);
      }
      r := Ok(stack[|stack| - 1]);
      stack := stack[..|stack| - 1];
    }

    method PopInt() returns (r: Result<int32, Fault>)
      modifies this`stack
      ensures old(stack) == [] ==> r == Err(StackUnderflow) && stack == []
      ensures old(stack) != [] ==>
        State() == Drop(old(State())) &&
        r == match Top(old(State())) case Int(n) => Ok(n) case Str(_) => Err(ExpectedInteger)
    {
      var v := PopValue();
      match v
      case Err(f) => return Err(f);
      case Ok(Int(n)) => return Ok(n);
      case Ok(Str(_)) => return Err(ExpectedInteger);
    }

    method ExecuteLoad(instr: Instruction) returns (fault: Option<Fault>)
      requires instr.op in {PushConst, LoadLocal, LoadGlobal}
      modifies this`stack
      ensures StepLoad(program, instr, old(State())) ==
        (if fault.None? then Next(State()) else Trap(fault.value, State()))
    {
      match instr.op {
        case PushConst =>
          if !(0 <= instr.a < |program.constants|) {
            return Some(ConstantOutOfRange);
          }
          stack := stack + [program.constants[instr.a]];
        case LoadLocal =>
          if !(0 <= instr.a < |locals|) {
            return Some(LocalOutOfRange);
          }
          stack := stack + [locals[instr.a]];
        case LoadGlobal =>
          if !(0 <= instr.a < |globals|) {
            return Some(GlobalOutOfRange);
          }
          stack := stack + [globals[instr.a]];
      }
      return None;
    }

    method ExecuteStore(instr: Instruction) returns (fault: Option<Fault>)
      requires instr.op in {StoreLocal, StoreGlobal, Pop}
      modifies this`stack, this`locals, this`globals
      ensures StepStore(instr, old(State())) ==
        (if fault.None? then Next(State()) else Trap(fault.value, State()))
    {
      var v := PopValue();
      if v.Err? {
        return Some(v.error);
      }
      match instr.op {
        case StoreLocal =>
          if !(0 <= instr.a < |locals|) {
            return Some(LocalOutOfRange);
          }
          locals := locals[instr.a := v.value];
        case StoreGlobal =>
          if !(0 <= instr.a < |globals|) {
            return Some(GlobalOutOfRange);
          }
          globals := globals[instr.a := v.value];
        case Pop =>
      }
      return None;
    }

    method ExecuteIntegerOp(op: Op) returns (fault: Option<Fault>)
      modifies this`stack
      ensures StepIntegerOp(op, old(State())) ==
        (if fault.None? then Next(State()) else Trap(fault.value, State()))
    {
      var b := PopInt();
      if b.Err? {
        return Some(b.error);
      }
      var a := PopInt();
      if a.Err? {
        return Some(a.error);
      }
      stack := stack + [Int(IntegerOp(op, a.value, b.value))];
      return None;
    }

    method ExecuteConcat() returns (fault: Option<Fault>)
      modifies this`stack
      ensures StepConcat(old(State())) ==
        (if fault.None? then Next(State()) else Trap(fault.value, State()))
    {
      var b := PopValue();
      if b.Err? {
        return Some(b.error);
      }
      var a := PopValue();
      if a.Err? {
        return Some(a.error);
      }
      if !a.value.Str? || !b.value.Str? {
        return Some(ExpectedStrings);
      }
      stack := stack + [Str(a.value.text + b.value.text)];
      return None;
    }

    method ExecuteCast() returns (fault: Option<Fault>)
      modifies this`stack
      ensures StepCast(old(State())) ==
        (if fault.None? then Next(State()) else Trap(fault.value, State()))
    {
      var v := PopInt();
      if v.Err? {
        return Some(v.error);
      }
      stack := stack + [Str(IntToString(v.value))];
      return None;
    }

    method ExecuteBranch(instr: Instruction) returns (fault: Option<Fault>)
      modifies this`stack, this`ip
      ensures StepBranch(instr, old(State())) ==
        (if fault.None? then Next(State()) else Trap(fault.value, State()))
    {
      var v := PopInt();
      if v.Err? {
        return Some(v.error);
      }
      if v.value == 0 {
        ip := JumpTarget(instr.a);
      }
      return None;
    }

    /** One instruction; a fault is returned where the source throws it. */
    method StepOne() returns (fault: Option<Fault>)
      modifies this`ip, this`stack, this`locals, this`globals, this`finished, this`trace
      ensures Step(program, host, old(State())) ==
        (if fault.None? then Next(State()) else Trap(fault.value, State()))
    {
      hide StepLoad, StepStore, StepIntegerOp, StepConcat, StepCast, StepBranch, StepCall;
      if ip >= |program.code| {
        return Some(IpOutOfRange);
      }
      var instr := program.code[ip];
      ip := ip + 1;
      match instr.op {
        case PushConst | LoadLocal | LoadGlobal =>
          fault := ExecuteLoad(instr);
        case StoreLocal | StoreGlobal | Pop =>
          fault := ExecuteStore(instr);
        case ConcatStr =>
          fault := ExecuteConcat();
        case CastIntToStr =>
          fault := ExecuteCast();
        case Jump =>
          ip := JumpTarget(instr.a);
          fault := None;
        case JumpIfZero =>
          fault := ExecuteBranch(instr);
        case CallHost =>
          fault := CallHostFunction(instr);
        case Halt =>
          finished := true;
          fault := None;
        case AddInt | SubInt | MulInt | LessInt | GreaterInt | EqualInt =>
          fault := ExecuteIntegerOp(instr.op);
      }
    }

    /** Pops `argc` values, the last argument first. */
    method PopArguments(argc: nat) returns (args: seq<Value>)
      requires argc <= |stack|
      modifies this`stack
      ensures stack == old(stack)[..|old(stack)| - argc]
      ensures args == old(stack)[|old(stack)| - argc..]
    {
      ghost var keep := |stack| - argc;
      args := seq(argc, _ => Int(0));
      var i := argc - 1;
      while i >= 0
        invariant -1 <= i < argc && |args| == argc
        invariant stack == old(stack)[..keep + i + 1]
        invariant forall j :: i < j < argc ==> args[j] == old(stack)[keep + j]
      {
        var v := PopValue();
        args := args[i := v.value];
        i := i - 1;
      }
    }

    method CallHostFunction(instr: Instruction) returns (fault: Option<Fault>)
      modifies this`stack, this`trace
      ensures StepCall(program, host, instr, old(State())) ==
        (if fault.None? then Next(State()) else Trap(fault.value, State()))
    {
      if !(0 <= instr.a < |program.hostNames|) {
        return Some(HostOutOfRange);
      }
      var argc := instr.b;
      if !(0 <= argc <= |stack|) {
        return Some(HostArgumentUnderflow);
      }
      var args := PopArguments(argc);
      if host.None? {
        return Some(NoHost);
      }
      var call := HostCall(program.hostNames[instr.a], args);
      var answer := host.value(call.name, call.args, trace);
      trace := trace + [call];
      if answer.Some? {
        stack := stack + [answer.value];
      }
      return None;
    }

    /** Runs until the budget is spent, the handler halts, or an instruction faults. */
    method RunSlice(budget: nat) returns (status: RunStatus)
      modifies this`ip, this`stack, this`locals, this`globals, this`finished, this`trace, this`error, this`total
      ensures RunResult(State(), status) == Run(program, host, old(State()), budget)
    {
      hide Step;
      var used := 0;
      while !finished && used < budget
        invariant used <= budget
        invariant Run(program, host, old(State()), budget) == Run(program, host, State(), budget - used)
        invariant host == old(host)
      {
        var fault := StepOne();
        if fault.Some? {
          error := fault;
          finished := true;
          return Error;
        }
        used := used + 1;
        total := total + 1;
      }
      return if finished then Finished else Yielded;
    }

    method DispatchEvent(event: Bytes, args: seq<Value>) returns (r: Option<DispatchError>)
      requires SlotsCoverParameters(program)
      modifies this`ip, this`stack, this`locals, this`finished, this`error
      ensures Dispatch(program, old(State()), event, args) ==
        (if r.None? then Ok(State()) else Err(r.value))
      ensures r.Some? ==> State() == old(State())
    {
      var found := FindEvent(program.events, event);
      if found.None? {
        return Some(NoSuchEvent);
      }
      var entry := found.value;
      if |args| != |entry.paramTypes| {
        return Some(WrongArgumentCount);
      }
      var i := 0;
      while i < |args|
        invariant 0 <= i <= |args|
        invariant FirstMistyped(args, entry.paramTypes, 0) == FirstMistyped(args, entry.paramTypes, i)
      {
        if TypeOf(args[i]) != entry.paramTypes[i] {
          return Some(WrongArgumentType(i));
        }
        i := i + 1;
      }
      FindEventSlots(program.events, event);
      var bank := seq(entry.localCount, _ => Int(0));
      i := 0;
      while i < |args|
        invariant 0 <= i <= |args|
        invariant |bank| == entry.localCount
        invariant forall j :: 0 <= j < |bank| ==> bank[j] == if j < i then args[j] else Int(0)
      {
        bank := bank[i := args[i]];
        i := i + 1;
      }
      assert bank == InitialLocals(entry.localCount, args);
      locals := bank;
      stack := [];
      ip := JumpTarget(entry.entryIp);
      finished := false;
      error := None;
      return None;
    }
  }
}
