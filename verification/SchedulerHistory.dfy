/** One script's life among the others. */
module SchedulerHistory {
  import opened Prelude
  import opened Bytecode
  import opened Ast
  import opened Vm
  import opened Compiler
  import opened Evaluator
  import opened Interruption
  import opened Correctness
  import opened ParseInverse
  import opened Scheduler
  import opened SchedulerSafety

  const HOST: Option<Host> := Some(INSTALLED)

  // ----- one action, seen by one script -----

  /** The script stays the same script: it is neither rezzed again nor erased. */
  predicate Spares(a: Action, k: Key) {
    match a
    case Rez(identity, _, _) => InstanceKey(identity.objectId, identity.itemId) != k
    case Erase(objectId, itemId) => InstanceKey(objectId, itemId) != k
    case _ => true
  }

  /** The event an action puts in the script's queue. */
  function Accepted(s: Live, a: Action): seq<PendingEvent> {
    if a.TouchStart? && s.identity.objectId == a.objectId && Accepts(s, "touch_start") then [Touch(a.count)] else []
  }

  /** The event an action took from the queue to start a handler with. */
  function Dispatched(s: Live, t: Live): seq<PendingEvent> {
    if |t.pending| < |s.pending| then [s.pending[0]] else []
  }

  /** Where the script's machine stood when its turn began. */
  ghost predicate StartedFrom(s: Live, t: Live, start: VmState)
    requires SlotsCoverParameters(s.program)
  {
    if Dispatched(s, t) == [] then start == s.vm
    else
      && s.vm.finished && s.enabled && !s.trapped
      && Dispatch(s.program, s.vm, s.pending[0].name, s.pending[0].args) == Ok(start)
  }

  /** All an action can do to a script that it spares. */
  ghost predicate Evolves(s: Live, t: Live, a: Action, n: nat, start: VmState)
    requires SlotsCoverParameters(s.program)
  {
    && t.program == s.program && t.identity == s.identity
    && s.pending + Accepted(s, a) == Dispatched(s, t) + t.pending
    && StartedFrom(s, t, start) && t.vm == Run(s.program, HOST, start, n).state
    && (a.RunTick? ==> n <= a.slice) && (!a.RunTick? ==> n == 0)
    && (!s.enabled || s.trapped ==> t.vm == s.vm && Dispatched(s, t) == [])
    && (s.trapped ==> t.trapped) && (t.trapped ==> s.trapped || t.vm.error.Some?)
  }

  lemma TurnEvolves(s: Live, grant: nat, a: Action) returns (start: VmState, n: nat)
    requires Ready(s) && a.RunTick? && grant <= a.slice
    ensures Evolves(s, Turn(s, grant).script, a, n, start)
  {
    hide Run;
    if Idle(s) {
      start, n := s.vm, 0;
      RunZero(s.program, s.vm);
    } else {
      start, n := Seeded(s).vm, grant;
      if s.vm.finished {
        DispatchSucceeds(s.program, s.vm, s.pending[0]);
      }
      FaultIsKept(s.program, start, n);
    }
  }

  lemma {:induction false} FaultIsKept(p: Program, v: VmState, n: nat)
    ensures Run(p, HOST, v, n).status == Error ==> Run(p, HOST, v, n).state.error.Some?
    decreases n
  {
    hide Step;
    if !v.finished && n > 0 {
      match Step(p, HOST, v)
      case Next(s1) => FaultIsKept(p, s1.(total := s1.total + 1), n - 1);
      case Trap(_, _) =>
    }
  }

  lemma RunZero(p: Program, v: VmState)
    ensures Run(p, HOST, v, 0).state == v
  {
  }

  /** Any single action, seen by any script it spares. */
  lemma ActionEvolves(m: Scripts, a: Action, k: Key) returns (start: VmState, n: nat)
    requires AllReady(m) && Possible(m, a) && k in m && Spares(a, k)
    ensures k in Apply(m, a) && Evolves(m[k], Apply(m, a)[k], a, n, start)
  {
    hide Run, Turn, CompileSource, Rezzed, TickFrom;
    start, n := m[k].vm, 0;
    RunZero(m[k].program, m[k].vm);
    match a {
      case Rez(_, source, _) =>
        if CompileSource(WithoutTerminators(source)).Ok? {
          CompiledCovers(WithoutTerminators(source));
        }
      case SetEnabled(_, _, _) =>
      case Erase(_, _) =>
      case TouchStart(_, _) =>
      case RunTick(order, total, slice) =>
        if total > 0 && slice > 0 {
          var grant := TickIsOneTurn(m, order, total, slice, NOTHING, k);
          if Apply(m, a)[k] != m[k] {
            start, n := TurnEvolves(m[k], grant, a);
          }
        }
    }
  }

  /** A script is switched by the call that names it and by nothing else, and such a call does
      nothing else to any script. */
  lemma SwitchMeans(m: Scripts, a: Action, k: Key)
    requires AllReady(m) && Possible(m, a) && k in m && Spares(a, k)
    ensures k in Apply(m, a)
    ensures Apply(m, a)[k].enabled
      == if a.SetEnabled? && a.objectId + ['|'] + a.itemId == k then a.enabled else m[k].enabled
    ensures a.SetEnabled? ==> Apply(m, a).Keys == m.Keys && Apply(m, a)[k] == m[k].(enabled := Apply(m, a)[k].enabled)
  {
    hide Run, CompileSource, Rezzed, TickFrom, Ready;
    if a.RunTick? && a.total > 0 && a.slice > 0 {
      var grant := TickIsOneTurn(m, a.order, a.total, a.slice, NOTHING, k);
      TurnKeepsSwitch(m[k], grant);
      hide Turn;
    } else if a.Rez? && CompileSource(WithoutTerminators(a.source)).Ok? {
      CompiledCovers(WithoutTerminators(a.source));
    }
  }

  lemma TurnKeepsSwitch(s: Live, grant: nat)
    requires Ready(s)
    ensures Turn(s, grant).script.enabled == s.enabled
  {
    hide Run;
  }

  lemma BarIsLater(o1: Bytes, i1: Bytes, o2: Bytes, i2: Bytes)
    requires '|' !in o2 && InstanceKey(o1, i1) == InstanceKey(o2, i2)
    ensures |o1| >= |o2|
  {
    assert InstanceKey(o1, i1)[|o1|] == '|';
    assert forall k :: 0 <= k < |o2| ==> InstanceKey(o2, i2)[k] == o2[k];
  }

  /** Where no object's id has a bar in it, a key names one script of one object. */
  lemma KeysTellScriptsApart(o1: Bytes, i1: Bytes, o2: Bytes, i2: Bytes)
    requires '|' !in o1 && '|' !in o2 && InstanceKey(o1, i1) == InstanceKey(o2, i2)
    ensures o1 == o2 && i1 == i2
  {
    var a, b := InstanceKey(o1, i1), InstanceKey(o2, i2);
    BarIsLater(o1, i1, o2, i2);
    BarIsLater(o2, i2, o1, i1);
    assert o1 == a[..|o1|] && o2 == b[..|o2|];
    assert i1 == a[|o1| + 1..] && i2 == b[|o2| + 1..];
  }

  // ----- a stretch of a run -----

  /** From state i to state j of a run the script is in place and spared throughout. */
  ghost predicate Lives(states: seq<Scripts>, actions: seq<Action>, k: Key, i: nat, j: nat) {
    && IsRun(states, actions) && i <= j < |states| && k in states[i]
    && forall x :: i <= x < j ==> Spares(actions[x], k)
  }

  lemma EvolvesInPlace(s: Live, t: Live, a: Action, n: nat, start: VmState)
    requires SlotsCoverParameters(s.program) && Evolves(s, t, a, n, start)
    ensures t.program == s.program
  {
    hide Run;
  }

  lemma SafeCovers(states: seq<Scripts>, actions: seq<Action>, k: Key, i: nat)
    requires IsRun(states, actions) && i < |states| && k in states[i]
    ensures SlotsCoverParameters(states[i][k].program)
  {
    hide SlotsCoverParameters, MachineOk, Compiled, LeadsTo, Dispatchable;
    EveryRunIsSafe(states, actions, i);
  }

  /** One action on a script it spares. */
  lemma StepInPlace(states: seq<Scripts>, actions: seq<Action>, k: Key, i: nat)
    requires IsRun(states, actions) && i < |actions| && k in states[i] && Spares(actions[i], k)
    ensures k in states[i + 1] && states[i + 1][k].program == states[i][k].program
  {
    hide Apply, Evolves, AllReady, Possible, LeadsTo, SlotsCoverParameters, Spares;
    SafeCovers(states, actions, k, i);
    RunStep(states, actions, i);
    var start, n := ActionEvolves(states[i], actions[i], k);
    EvolvesInPlace(states[i][k], states[i + 1][k], actions[i], n, start);
  }

  lemma {:induction false} StaysInPlace(states: seq<Scripts>, actions: seq<Action>, k: Key, i: nat, j: nat)
    requires Lives(states, actions, k, i, j)
    ensures k in states[j] && states[j][k].program == states[i][k].program && SlotsCoverParameters(states[i][k].program)
    decreases j
  {
    hide LeadsTo, SlotsCoverParameters, Spares;
    if i < j {
      StaysInPlace(states, actions, k, i, j - 1);
      StepInPlace(states, actions, k, j - 1);
    } else {
      SafeCovers(states, actions, k, i);
    }
  }

  ghost function AllAccepted(states: seq<Scripts>, actions: seq<Action>, k: Key, i: nat, j: nat): seq<PendingEvent>
    requires Lives(states, actions, k, i, j)
    decreases j
  {
    if i == j then []
    else
      StaysInPlace(states, actions, k, i, j - 1);
      AllAccepted(states, actions, k, i, j - 1) + Accepted(states[j - 1][k], actions[j - 1])
  }

  ghost function AllDispatched(states: seq<Scripts>, actions: seq<Action>, k: Key, i: nat, j: nat): seq<PendingEvent>
    requires Lives(states, actions, k, i, j)
    decreases j
  {
    if i == j then []
    else
      StaysInPlace(states, actions, k, i, j - 1);
      StaysInPlace(states, actions, k, i, j);
      AllDispatched(states, actions, k, i, j - 1) + Dispatched(states[j - 1][k], states[j][k])
  }

  /** No event is lost, repeated or reordered: over any stretch of any run, the events waiting
      at the start and those accepted since are those dispatched since and those still waiting. */
  lemma {:induction false} EventsAreConserved(states: seq<Scripts>, actions: seq<Action>, k: Key, i: nat, j: nat)
    requires Lives(states, actions, k, i, j)
    ensures k in states[j]
    ensures states[i][k].pending + AllAccepted(states, actions, k, i, j)
         == AllDispatched(states, actions, k, i, j) + states[j][k].pending
    decreases j
  {
    hide Apply, AllReady, Possible, LeadsTo;
    if i < j {
      StaysInPlace(states, actions, k, i, j - 1);
      EventsAreConserved(states, actions, k, i, j - 1);
      RunStep(states, actions, j - 1);
      var start, n := ActionEvolves(states[j - 1], actions[j - 1], k);
      var before, last := states[j - 1][k], states[j][k];
      var acc, dis := AllAccepted(states, actions, k, i, j - 1), AllDispatched(states, actions, k, i, j - 1);
      calc {
        states[i][k].pending + (acc + Accepted(before, actions[j - 1]));
        (states[i][k].pending + acc) + Accepted(before, actions[j - 1]);
        (dis + before.pending) + Accepted(before, actions[j - 1]);
        dis + (before.pending + Accepted(before, actions[j - 1]));
        dis + (Dispatched(before, last) + last.pending);
        (dis + Dispatched(before, last)) + last.pending;
      }
    }
  }

  lemma SliceRuns(s: Live, t: Live, a: Action, n: nat, start: VmState)
    requires SlotsCoverParameters(s.program) && Evolves(s, t, a, n, start) && Dispatched(s, t) == []
    ensures t.vm == Run(s.program, HOST, s.vm, n).state
  {
    hide Run;
  }

  /** While no new event is dispatched, all the slices the script received add up to one
      uninterrupted run, whatever the other scripts did in between. */
  lemma {:induction false} SlicesAddUp(states: seq<Scripts>, actions: seq<Action>, k: Key, i: nat, j: nat) returns (n: nat)
    requires Lives(states, actions, k, i, j) && AllDispatched(states, actions, k, i, j) == []
    ensures k in states[j] && states[j][k].vm == Run(states[i][k].program, HOST, states[i][k].vm, n).state
    decreases j
  {
    hide Apply, Run, AllReady, Possible, LeadsTo, Evolves;
    if i == j {
      RunZero(states[i][k].program, states[i][k].vm);
      n := 0;
    } else {
      StaysInPlace(states, actions, k, i, j - 1);
      StaysInPlace(states, actions, k, i, j);
      n := SlicesAddUp(states, actions, k, i, j - 1);
      RunStep(states, actions, j - 1);
      var start, more := ActionEvolves(states[j - 1], actions[j - 1], k);
      SliceRuns(states[j - 1][k], states[j][k], actions[j - 1], more, start);
      RunSplit(states[i][k].program, HOST, states[i][k].vm, n, more);
      n := n + more;
    }
  }

  /** At step i the script starts on the event at the head of its queue, and by state j its machine
      has stopped without starting another. */
  ghost predicate Serves(states: seq<Scripts>, actions: seq<Action>, k: Key, i: nat, j: nat) {
    && i < j && Lives(states, actions, k, i, i + 1) && Lives(states, actions, k, i + 1, j)
    && states[i][k].pending != [] && AllDispatched(states, actions, k, i, i + 1) == [states[i][k].pending[0]]
    && AllDispatched(states, actions, k, i + 1, j) == [] && k in states[j] && states[j][k].vm.finished
  }

  /** The machine holds what evaluating the handler leaves, from these globals and host calls. */
  ghost predicate Meant(script: Script, h: nat, args: seq<Value>, bank: seq<Value>, trace: seq<HostCall>, vm: VmState, fuel: nat) {
    && h < |script.events| && |args| == |script.events[h].params| && |script.globals| == |bank|
    && var o := ExecHandler(script, script.events[h], args, GlobalValues(script.globals, bank), trace, fuel);
       !o.OutOfFuel? && Reached(vm, o, script.globals)
  }

  /** When the runtime takes a queued event and, some ticks later, the script's machine has stopped
      without starting another, the globals and the host calls are those of evaluating that handler
      of the script that was compiled. */
  lemma ScheduledHandlerMeansItsSource(states: seq<Scripts>, actions: seq<Action>, k: Key, i: nat, j: nat,
                                       script: Script, h: nat) returns (fuel: nat)
    requires Serves(states, actions, k, i, j)
    requires CompileScript(script) == Ok(states[i][k].program) && h < |script.events|
    requires script.events[h].name == states[i][k].pending[0].name
    ensures var s := states[i][k]; Meant(script, h, s.pending[0].args, s.vm.globals, s.vm.trace, states[j][k].vm, fuel)
  {
    hide Apply, Run, CompileScript, ExecHandler, Dispatch, Reached, GlobalValues, LiveOk, SlotsCoverParameters, AllReady, Possible, LeadsTo;
    var s := states[i][k];
    EveryRunIsSafe(states, actions, i);
    var e := s.pending[0];
    StaysInPlace(states, actions, k, i, i + 1);
    RunStep(states, actions, i);
    var start, n := ActionEvolves(states[i], actions[i], k);
    assert AllDispatched(states, actions, k, i, i + 1) == AllDispatched(states, actions, k, i, i) + Dispatched(s, states[i + 1][k]);
    var more := SlicesAddUp(states, actions, k, i + 1, j);
    RunSplit(s.program, HOST, start, n, more);
    InstalledIsSilent();
    QueueHeadFits(states, actions, k, i, script, h);
    StoppedMeansEvaluated(script, s.program, HOST, h, e.args, s.vm, n + more);
    fuel := n + more + 1;
  }

  /** The event at the head of a queue carries arguments of its handler's parameter types. */
  lemma QueueHeadFits(states: seq<Scripts>, actions: seq<Action>, k: Key, i: nat, script: Script, h: nat)
    requires IsRun(states, actions) && i < |states| && k in states[i] && states[i][k].pending != []
    requires CompileScript(script) == Ok(states[i][k].program) && h < |script.events|
    requires script.events[h].name == states[i][k].pending[0].name
    ensures WellTypedArguments(script.events[h], states[i][k].pending[0].args)
    ensures |states[i][k].vm.globals| == |states[i][k].program.globalDefaults|
  {
    hide Apply, CompileScript;
    EveryRunIsSafe(states, actions, i);
    var x, types := ScriptHandler(script, states[i][k].program, h);
    HandlerArity(x, script.events[h], types);
    assert Dispatchable(states[i][k].program, states[i][k].pending[0]);
  }

  // ----- from source text -----

  function KeyOf(a: Action): Key
    requires a.Rez?
  {
    InstanceKey(a.identity.objectId, a.identity.itemId)
  }

  /** An action rezzes a source text that parses and compiles. */
  predicate RezzesScript(a: Action, script: Script) {
    a.Rez? && ParseSource(WithoutTerminators(a.source)) == Ok(script) && CompileScript(script).Ok?
  }

  /** A rez of a source that compiles puts a new script under its key. */
  lemma RezInstalls(states: seq<Scripts>, actions: seq<Action>, r: nat, script: Script)
    requires IsRun(states, actions) && r < |actions| && RezzesScript(actions[r], script)
    ensures var k, p := KeyOf(actions[r]), CompileScript(script).value;
      && k in states[r + 1] && SlotsCoverParameters(p) && states[r + 1][k] == Rezzed(actions[r].identity, p, actions[r].enabled)
  {
    hide CompileScript, ParseSource, Rezzed, AllReady, Possible, LeadsTo, SlotsCoverParameters;
    RunStep(states, actions, r);
    CompiledCovers(WithoutTerminators(actions[r].source));
  }

  /** The entry event that rezzing starts: when a script rezzed enabled has stopped without taking
      an event from its queue, its globals and host calls are those of evaluating the state_entry
      handler of its source text on the globals' initial values. */
  lemma EntryMeansItsSource(states: seq<Scripts>, actions: seq<Action>, r: nat, j: nat, script: Script, h: nat)
      returns (fuel: nat)
    requires r < |actions| && RezzesScript(actions[r], script) && actions[r].enabled
    requires h < |script.events| && script.events[h].name == "state_entry"
    requires var k := KeyOf(actions[r]);
      && Lives(states, actions, k, r + 1, j) && AllDispatched(states, actions, k, r + 1, j) == []
      && k in states[j] && states[j][k].vm.finished
    ensures Meant(script, h, [], CompileScript(script).value.globalDefaults, [], states[j][KeyOf(actions[r])].vm, fuel)
  {
    hide Apply, Run, CompileScript, ExecHandler, Dispatch, Reached, GlobalValues, LiveOk, SlotsCoverParameters, AllReady, Possible, LeadsTo;
    hide ParseSource, AllDispatched;
    var p := CompileScript(script).value;
    RezInstalls(states, actions, r, script);
    InstalledIsSilent();
    EntryTakesNothing(script, p, h);
    var n := SlicesAddUp(states, actions, KeyOf(actions[r]), r + 1, j);
    StoppedMeansEvaluated(script, p, HOST, h, [], Fresh(p), n);
    fuel := n + 1;
  }

  lemma EntryTakesNothing(script: Script, p: Program, h: nat)
    requires CompileScript(script) == Ok(p) && h < |script.events| && script.events[h].name == "state_entry"
    ensures WellTypedArguments(script.events[h], []) && |script.events[h].params| == 0
  {
    hide CompileScript;
    var x, types := ScriptHandler(script, p, h);
    HandlerArity(x, script.events[h], types);
    HandlerSignature(x, script.events[h], types);
  }

  lemma HandlerSignature(x: Handler, h: EventHandler, types: seq<ValueType>)
    requires IsHandler(x, h, types)
    ensures LookupEvent(h.name) == Some(types)
  {
    hide CompileBlock, BindParams;
  }

  /** A queued event of a script rezzed from source text, from the text to what it leaves: the
      handler of the parsed script, whichever one the event names. */
  lemma EventMeansItsSource(states: seq<Scripts>, actions: seq<Action>, r: nat, i: nat, j: nat, script: Script, h: nat)
      returns (fuel: nat)
    requires r < |actions| && RezzesScript(actions[r], script) && h < |script.events|
    requires Lives(states, actions, KeyOf(actions[r]), r + 1, i) && Serves(states, actions, KeyOf(actions[r]), i, j)
    requires script.events[h].name == states[i][KeyOf(actions[r])].pending[0].name
    ensures var s := states[i][KeyOf(actions[r])];
      Meant(script, h, s.pending[0].args, s.vm.globals, s.vm.trace, states[j][KeyOf(actions[r])].vm, fuel)
  {
    hide CompileScript, LiveOk, SlotsCoverParameters, LeadsTo, ParseSource, AllDispatched, Meant, Rezzed;
    var k := KeyOf(actions[r]);
    RezInstalls(states, actions, r, script);
    StaysInPlace(states, actions, k, r + 1, i);
    RezzedProgram(actions[r].identity, CompileScript(script).value, actions[r].enabled);
    fuel := ScheduledHandlerMeansItsSource(states, actions, k, i, j, script, h);
  }

  lemma RezzedProgram(identity: Identity, p: Program, enabled: bool)
    requires SlotsCoverParameters(p)
    ensures Rezzed(identity, p, enabled).program == p
  {
    hide Dispatch;
  }
}
