/** Scripts that declare before they read, under the runtime. */
module SchedulerSoundness {
  import opened Prelude
  import opened Bytecode
  import opened Ast
  import opened Vm
  import opened Compiler
  import opened Interruption
  import opened Correctness
  import opened TypeSoundness
  import Printer
  import opened ParseInverse
  import opened ParseRange
  import opened Scheduler
  import opened SchedulerSafety
  import opened SchedulerHistory

  ghost predicate AllDeclared(script: Script) {
    forall i :: 0 <= i < |script.events| ==> DeclaredBeforeRead(script, script.events[i])
  }

  /** The sink acts on exactly the calls whose arguments have their function's types, and
      drops any other without a word. */
  lemma HeardExactlyWhenTyped(identity: Identity, call: HostCall)
    ensures MessageOf(identity, call).Some? <==> CallTyped(call)
  {
  }

  /** What the sink is told: a script speaks under its own identity, to its owner alone or aloud on the
      channel it names. */
  lemma HeardMeans(identity: Identity, call: HostCall)
    requires CallTyped(call)
    ensures MessageOf(identity, call).Some? && var m := MessageOf(identity, call).value;
      && m.identity == identity && (m.ownerOnly <==> call.name == "llOwnerSay")
      && (m.ownerOnly ==> m.channel == 0 && call.args == [Str(m.text)])
      && (!m.ownerOnly ==> call.name == "llSay" && call.args == [Int(m.channel), Str(m.text)])
  {
    if call.name == "llOwnerSay" {
      assert call.args == [call.args[0]];
    } else {
      assert call.args == [call.args[0], call.args[1]];
    }
  }

  // ----- one machine -----

  /** The machine is `n` instructions into a handler started on typed globals and arguments. */
  ghost predicate Handling(script: Script, p: Program, v: VmState, i: nat, args: seq<Value>, v0: VmState, n: nat) {
    && i < |script.events| && WellTypedArguments(script.events[i], args)
    && GlobalsTyped(script, v0.globals) && CallsTyped(v0.trace)
    && SlotsCoverParameters(p) && Dispatch(p, v0, script.events[i].name, args).Ok?
    && v == Run(p, HOST, Dispatch(p, v0, script.events[i].name, args).value, n).state
  }

  ghost predicate Healthy(script: Script, p: Program, v: VmState) {
    && v.error == None && CallsTyped(v.trace)
    && if v.finished then GlobalsTyped(script, v.globals)
       else exists i: nat, args, v0, n: nat :: Handling(script, p, v, i, args, v0, n)
  }

  lemma HandlingIsHealthy(script: Script, p: Program, v: VmState, i: nat, args: seq<Value>, v0: VmState, n: nat)
    requires CompileScript(script) == Ok(p) && AllDeclared(script) && Handling(script, p, v, i, args, v0, n)
    ensures Healthy(script, p, v)
  {
    hide Run, CompileScript, Dispatch, SlotsCoverParameters, WellTypedArguments, DeclaredBeforeRead, CallsTyped;
    InstalledIsSilent();
    var x, types := ScriptHandler(script, p, i);
    NeverFaults(script, p, HOST, i, args, v0, n);
  }

  /** Any slice keeps a machine healthy. */
  lemma RunHealthy(script: Script, p: Program, v: VmState, n: nat)
    requires CompileScript(script) == Ok(p) && AllDeclared(script) && Healthy(script, p, v)
    ensures Healthy(script, p, Run(p, HOST, v, n).state)
  {
    hide CompileScript, DeclaredBeforeRead, CallsTyped, GlobalsTyped, Step, Dispatch, WellTypedArguments, SlotsCoverParameters;
    if !v.finished {
      var i: nat, args, v0, m: nat :| Handling(script, p, v, i, args, v0, m);
      RunSplit(p, HOST, Dispatch(p, v0, script.events[i].name, args).value, m, n);
      HandlingIsHealthy(script, p, Run(p, HOST, v, n).state, i, args, v0, m + n);
    }
  }

  /** So does an event that fits its handler. */
  lemma DispatchHealthy(script: Script, p: Program, v: VmState, e: PendingEvent)
    requires CompileScript(script) == Ok(p) && AllDeclared(script) && Healthy(script, p, v) && v.finished
    requires SlotsCoverParameters(p) && Dispatchable(p, e)
    ensures Dispatch(p, v, e.name, e.args).Ok? && Healthy(script, p, Dispatch(p, v, e.name, e.args).value)
  {
    hide CompileScript, DeclaredBeforeRead, CallsTyped, GlobalsTyped, Run, SlotsCoverParameters;
    DispatchSucceeds(p, v, e);
    hide Dispatch;
    EntryFacts(script, p, e.name);
    var i :| 0 <= i < |script.events| && script.events[i].name == e.name;
    var x, types := ScriptHandler(script, p, i);
    HandlerArity(x, script.events[i], types);
    RunZero(p, Dispatch(p, v, e.name, e.args).value);
    HandlingIsHealthy(script, p, Dispatch(p, v, e.name, e.args).value, i, e.args, v, 0);
  }

  // ----- the runtime -----

  ghost predicate LiveHealthy(script: Script, s: Live) {
    CompileScript(script) == Ok(s.program) && !s.trapped && Healthy(script, s.program, s.vm)
  }

  lemma RezzedHealthy(script: Script, a: Action)
    requires RezzesScript(a, script) && AllDeclared(script) && SlotsCoverParameters(CompileScript(script).value)
    ensures LiveHealthy(script, Rezzed(a.identity, CompileScript(script).value, a.enabled))
  {
    hide CompileScript, DeclaredBeforeRead, GlobalsTyped, SlotsCoverParameters, ParseSource, Printer.PrintableScript;
    var p := CompileScript(script).value;
    ParsedIsPrintable(WithoutTerminators(a.source));
    PrintableIsValid(script);
    FreshGlobalsTyped(script, p);
    assert Healthy(script, p, Fresh(p));
    var e := PendingEvent("state_entry", []);
    if Dispatch(p, Fresh(p), "state_entry", []).Ok? {
      assert Dispatchable(p, e);
      DispatchHealthy(script, p, Fresh(p), e);
    }
  }

  lemma EvolvesHealthy(script: Script, s: Live, t: Live, a: Action, n: nat, start: VmState)
    requires LiveHealthy(script, s) && AllDeclared(script) && Ready(s) && Evolves(s, t, a, n, start)
    ensures LiveHealthy(script, t)
  {
    hide CompileScript, DeclaredBeforeRead, Healthy, Run, Dispatch, AllDeclared, SlotsCoverParameters, Dispatchable;
    if Dispatched(s, t) != [] {
      DispatchHealthy(script, s.program, s.vm, s.pending[0]);
    }
    RunHealthy(script, s.program, start, n);
    assert t.vm.error == None by { HealthyHasNoError(script, t.program, t.vm); }
  }

  lemma HealthyHasNoError(script: Script, p: Program, v: VmState)
    requires Healthy(script, p, v)
    ensures v.error == None && CallsTyped(v.trace)
  {
  }

  /** A script whose source declares its string locals before it reads them is never trapped, whatever
      the runtime is asked to do as long as the script is neither rezzed again nor erased, and
      the sink is told of every call it makes. */
  lemma {:induction false} DeclaredScriptsAreNeverTrapped(states: seq<Scripts>, actions: seq<Action>, r: nat, j: nat, script: Script)
    requires r < |actions| && RezzesScript(actions[r], script) && AllDeclared(script)
    requires Lives(states, actions, KeyOf(actions[r]), r + 1, j)
    ensures KeyOf(actions[r]) in states[j]
    ensures var s := states[j][KeyOf(actions[r])];
      && !s.trapped && s.vm.error == None && LiveHealthy(script, s)
      && forall call :: call in s.vm.trace ==> MessageOf(s.identity, call).Some?
    decreases j
  {
    hide CompileScript, Rezzed, Apply, AllReady, Possible, LeadsTo, AllDeclared, Healthy, SlotsCoverParameters, ParseSource;
    hide MessageOf, CallTyped, Evolves;
    var k := KeyOf(actions[r]);
    if j == r + 1 {
      RezInstalls(states, actions, r, script);
      RezzedHealthy(script, actions[r]);
      RezzedProgram(actions[r].identity, CompileScript(script).value, actions[r].enabled);
    } else {
      DeclaredScriptsAreNeverTrapped(states, actions, r, j - 1, script);
      RunStep(states, actions, j - 1);
      EveryRunIsSafe(states, actions, j - 1);
      var start, n := ActionEvolves(states[j - 1], actions[j - 1], k);
      EvolvesHealthy(script, states[j - 1][k], states[j][k], actions[j - 1], n, start);
    }
    var s := states[j][k];
    HealthyHasNoError(script, s.program, s.vm);
    forall call | call in s.vm.trace
      ensures MessageOf(s.identity, call).Some?
    {
      HeardExactlyWhenTyped(s.identity, call);
    }
  }
}
