/** Slicing a run, and crossing regions between slices, changes nothing. */
module Interruption {
  import opened Prelude
  import opened Bytecode
  import opened Vm
  import opened Snapshot

  /** The status two consecutive slices report together. */
  function Both(first: RunStatus, second: RunStatus): RunStatus {
    if first == Yielded then second else first
  }

  /** run(a) then run(b) reaches the state, the trace and the combined status of run(a+b). */
  lemma {:induction false} RunSplit(p: Program, host: Option<Host>, s: VmState, a: nat, b: nat)
    ensures var first := Run(p, host, s, a);
      var second := Run(p, host, first.state, b);
      Run(p, host, s, a + b) == RunResult(second.state, Both(first.status, second.status))
    decreases a
  {
    hide Step;
    if !s.finished && a > 0 {
      match Step(p, host, s)
      case Next(s1) => RunSplit(p, host, s1.(total := s1.total + 1), a - 1, b);
      case Trap(_, _) =>
    }
  }

  lemma StepCounts(p: Program, host: Option<Host>, s: VmState)
    ensures Step(p, host, s).state.total == s.total
  {
    hide Execute;
    StepKeeps(p, host, s);
  }

  /** A run never executes more than its budget, and exactly it when it yields. */
  lemma {:induction false} RunCount(p: Program, host: Option<Host>, s: VmState, n: nat)
    ensures var r := Run(p, host, s, n);
      s.total <= r.state.total <= s.total + n && (r.status == Yielded ==> r.state.total == s.total + n)
    ensures (Run(p, host, s, n).status == Yielded) == !Run(p, host, s, n).state.finished
    decreases n
  {
    hide Step, Keeps;
    if !s.finished && n > 0 {
      StepCounts(p, host, s);
      match Step(p, host, s)
      case Next(s1) => RunCount(p, host, s1.(total := s1.total + 1), n - 1);
      case Trap(_, _) =>
    }
  }

  /** What no instruction changes: the instruction count, the error text, the size of
      both banks and the host calls already made. */
  ghost predicate Keeps(s: VmState, t: VmState) {
    t.total == s.total && t.error == s.error && |t.locals| == |s.locals|
    && |t.globals| == |s.globals| && s.trace <= t.trace
  }

  lemma MovesKeep(p: Program, instr: Instruction, s: VmState)
    ensures Keeps(s, StepLoad(p, instr, s).state) && Keeps(s, StepStore(instr, s).state)
  {
  }

  lemma ArithmeticKeeps(op: Op, s: VmState)
    ensures Keeps(s, StepIntegerOp(op, s).state) && Keeps(s, StepConcat(s).state) && Keeps(s, StepCast(s).state)
  {
  }

  lemma BranchKeeps(instr: Instruction, s: VmState)
    ensures Keeps(s, StepBranch(instr, s).state)
  {
  }

  lemma CallKeeps(p: Program, host: Option<Host>, instr: Instruction, s: VmState)
    ensures Keeps(s, StepCall(p, host, instr, s).state)
  {
    var t := StepCall(p, host, instr, s).state;
    assert t.trace == s.trace || (|t.trace| == |s.trace| + 1 && t.trace[..|s.trace|] == s.trace);
  }

  lemma ExecuteKeeps(p: Program, host: Option<Host>, instr: Instruction, s: VmState)
    ensures Keeps(s, Execute(p, host, instr, s).state)
  {
    hide StepLoad, StepStore, StepIntegerOp, StepConcat, StepCast, StepBranch, StepCall;
    MovesKeep(p, instr, s);
    ArithmeticKeeps(instr.op, s);
    BranchKeeps(instr, s);
    CallKeeps(p, host, instr, s);
  }

  lemma StepKeeps(p: Program, host: Option<Host>, s: VmState)
    ensures Keeps(s, Step(p, host, s).state)
  {
    hide Execute;
    if s.ip < |p.code| {
      ExecuteKeeps(p, host, p.code[s.ip], s.(ip := s.ip + 1));
    }
  }

  lemma {:induction false} RunKeeps(p: Program, host: Option<Host>, s: VmState, n: nat)
    ensures var t := Run(p, host, s, n).state;
      |t.locals| == |s.locals| && |t.globals| == |s.globals| && s.trace <= t.trace
    decreases n
  {
    hide Step;
    if !s.finished && n > 0 {
      StepKeeps(p, host, s);
      match Step(p, host, s)
      case Next(s1) => RunKeeps(p, host, s1.(total := s1.total + 1), n - 1);
      case Trap(_, _) =>
    }
  }

  function WithError(r: StepResult, e: Option<Fault>): StepResult {
    match r
    case Next(t) => Next(t.(error := e))
    case Trap(f, t) => Trap(f, t.(error := e))
  }

  lemma MovesIgnoreError(p: Program, instr: Instruction, s: VmState, e: Option<Fault>)
    ensures StepLoad(p, instr, s.(error := e)) == WithError(StepLoad(p, instr, s), e)
    ensures StepStore(instr, s.(error := e)) == WithError(StepStore(instr, s), e)
  {
  }

  lemma ArithmeticIgnoresError(op: Op, s: VmState, e: Option<Fault>)
    ensures StepIntegerOp(op, s.(error := e)) == WithError(StepIntegerOp(op, s), e)
    ensures StepConcat(s.(error := e)) == WithError(StepConcat(s), e)
    ensures StepCast(s.(error := e)) == WithError(StepCast(s), e)
  {
  }

  lemma BranchIgnoresError(instr: Instruction, s: VmState, e: Option<Fault>)
    ensures StepBranch(instr, s.(error := e)) == WithError(StepBranch(instr, s), e)
  {
  }

  lemma CallIgnoresError(p: Program, host: Option<Host>, instr: Instruction, s: VmState, e: Option<Fault>)
    ensures StepCall(p, host, instr, s.(error := e)) == WithError(StepCall(p, host, instr, s), e)
  {
  }

  lemma ExecuteIgnoresError(p: Program, host: Option<Host>, instr: Instruction, s: VmState, e: Option<Fault>)
    ensures Execute(p, host, instr, s.(error := e)) == WithError(Execute(p, host, instr, s), e)
  {
    hide StepLoad, StepStore, StepIntegerOp, StepConcat, StepCast, StepBranch, StepCall;
    MovesIgnoreError(p, instr, s, e);
    ArithmeticIgnoresError(instr.op, s, e);
    BranchIgnoresError(instr, s, e);
    CallIgnoresError(p, host, instr, s, e);
  }

  /** The error text plays no part in execution. */
  lemma StepIgnoresError(p: Program, host: Option<Host>, s: VmState, e: Option<Fault>)
    ensures Step(p, host, s.(error := e)) == WithError(Step(p, host, s), e)
  {
    hide Execute;
    if s.ip < |p.code| {
      ExecuteIgnoresError(p, host, p.code[s.ip], s.(ip := s.ip + 1), e);
    }
  }

  /** A fault replaces the error text; anything else leaves it. */
  function RunWithError(r: RunResult, e: Option<Fault>): RunResult {
    if r.status == Error then r else RunResult(r.state.(error := e), r.status)
  }

  lemma {:induction false} RunIgnoresError(p: Program, host: Option<Host>, s: VmState, e: Option<Fault>, n: nat)
    ensures Run(p, host, s.(error := e), n) == RunWithError(Run(p, host, s, n), e)
    decreases n
  {
    hide Step;
    var t := s.(error := e);
    if !s.finished && n > 0 {
      StepIgnoresError(p, host, s, e);
      var r := Step(p, host, s);
      if r.Next? {
        var s1 := r.state.(total := r.state.total + 1);
        RunIgnoresError(p, host, s1, e, n - 1);
        var t1 := r.state.(error := e);
        assert Step(p, host, t) == Next(t1);
        assert t1.(total := t1.total + 1) == s1.(error := e);
        assert Run(p, host, t, n) == Run(p, host, s1.(error := e), n - 1);
      } else {
        assert Step(p, host, t) == Trap(r.fault, r.state.(error := e));
      }
    }
  }

  function Sum(slices: seq<nat>): nat {
    if slices == [] then 0 else slices[0] + Sum(slices[1..])
  }

  /** Each slice ends in a crossing: a snapshot, restored into a fresh machine. */
  function RunCrossing(p: Program, host: Option<Host>, s: VmState, slices: seq<nat>): Option<VmState>
    decreases |slices|
  {
    if slices == [] then Some(s)
    else
      var before := Run(p, host, s, slices[0]).state;
      var after := Restore(p, Fresh(p).(trace := before.trace), SnapshotBytes(p, before));
      if after.error.Some? then None
      else RunCrossing(p, host, after.state, slices[1..])
  }

  /** Crossing after every slice, at any instruction whatever, makes the same host calls
      and ends in the same state as one uninterrupted run, for every host and program;
      only the text of a fault already reported does not travel. */
  lemma {:induction false} CrossingIsInvisible(p: Program, host: Option<Host>, s: VmState, slices: seq<nat>)
    requires s.error == None
    requires forall k :: 0 <= k <= Sum(slices) ==> Fits(p, Run(p, host, s, k).state)
    ensures RunCrossing(p, host, s, slices) == Some(Run(p, host, s, Sum(slices)).state.(error := None))
    decreases |slices|
  {
    hide Step, Restore, SnapshotBytes, Fits;
    if slices != [] {
      var n := slices[0];
      var before := Run(p, host, s, n).state;
      assert Fits(p, before);
      var receiver := Fresh(p).(trace := before.trace);
      RestoreInvertsSnapshot(p, before, receiver);
      var after := before.(error := None);
      forall k | 0 <= k <= Sum(slices[1..])
        ensures Fits(p, Run(p, host, after, k).state)
        ensures Run(p, host, after, k).state.(error := None) == Run(p, host, s, n + k).state.(error := None)
      {
        RunSplit(p, host, s, n, k);
        RunIgnoresError(p, host, before, None, k);
        FitsIgnoresError(p, Run(p, host, before, k).state, None);
      }
      CrossingIsInvisible(p, host, after, slices[1..]);
    }
  }

  lemma FitsIgnoresError(p: Program, s: VmState, e: Option<Fault>)
    ensures Fits(p, s.(error := e)) == Fits(p, s)
  {
  }

  /** The text that is lost: a machine that faulted restores as one that did not. */
  lemma ErrorTextDoesNotTravel(p: Program, s: VmState)
    requires Fits(p, s)
    ensures Restore(p, Fresh(p).(trace := s.trace), SnapshotBytes(p, s)).state == s <==> s.error == None
  {
    RestoreInvertsSnapshot(p, s, Fresh(p).(trace := s.trace));
    hide Restore, SnapshotBytes, Fits;
  }
}
