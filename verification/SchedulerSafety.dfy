/** What holds of every script after any sequence of the runtime's operations. */
module SchedulerSafety {
  import opened Prelude
  import opened Bytecode
  import opened Ast
  import opened Vm
  import opened Compiler
  import opened Interruption
  import opened Simulation
  import opened Correctness
  import opened Safety
  import opened ParseInverse
  import opened Scheduler
  import Typing

  lemma InstalledIsSilent()
    ensures Silent(Some(INSTALLED))
  {
  }

  // ----- what the compiler guarantees of its entries -----

  lemma {:induction false} EntriesKeepSignatures(c: Unit, hs: seq<EventHandler>)
    requires CompileEvents(c, hs).Ok?
    requires forall e :: e in c.events ==> LookupEvent(e.name) == Some(e.paramTypes)
    ensures forall e :: e in CompileEvents(c, hs).value.events ==> LookupEvent(e.name) == Some(e.paramTypes)
    decreases |hs|
  {
    hide CompileEvent, CompileBlock;
    if hs != [] {
      var x, types := EventPieces(c, hs[0]);
      assert Extends(x.bound, x.end);
      BoundEvents(x, hs[0], types);
      EntriesKeepSignatures(CompileEvent(c, hs[0]).value, hs[1..]);
    }
  }

  lemma BoundEvents(x: Handler, h: EventHandler, types: seq<ValueType>)
    requires IsHandler(x, h, types)
    ensures x.bound.events == x.start.events
  {
    Typing.BindParamsKeeps(x.start.(locals := map[], localCount := 0), h.name, h.params, types, 0);
  }

  lemma {:induction false} EntriesAreHandlers(c: Unit, hs: seq<EventHandler>)
    requires CompileEvents(c, hs).Ok?
    ensures forall e :: e in CompileEvents(c, hs).value.events ==>
      e in c.events || exists i :: 0 <= i < |hs| && hs[i].name == e.name
    decreases |hs|
  {
    hide CompileEvent, CompileBlock;
    if hs != [] {
      var x, types := EventPieces(c, hs[0]);
      assert Extends(x.bound, x.end);
      BoundEvents(x, hs[0], types);
      EntriesAreHandlers(CompileEvent(c, hs[0]).value, hs[1..]);
      forall e | e in CompileEvents(c, hs).value.events && e !in c.events
        ensures exists i :: 0 <= i < |hs| && hs[i].name == e.name
      {
        if e in CompileEvent(c, hs[0]).value.events {
          assert hs[0].name == e.name;
        } else {
          var i :| 0 <= i < |hs[1..]| && hs[1..][i].name == e.name;
          assert hs[i + 1].name == e.name;
        }
      }
    }
  }

  /** The program was compiled from some script. */
  ghost predicate Compiled(p: Program) {
    exists script: Script :: CompileScript(script) == Ok(p)
  }

  lemma CompiledFrom(source: Bytes)
    requires CompileSource(source).Ok?
    ensures Compiled(CompileSource(source).value)
  {
    assert CompileScript(ParseSource(source).value) == Ok(CompileSource(source).value);
  }

  lemma EntryFacts(script: Script, p: Program, name: Bytes)
    requires CompileScript(script) == Ok(p) && FindEvent(p.events, name).Some?
    ensures LookupEvent(name) == Some(FindEvent(p.events, name).value.paramTypes)
    ensures exists i :: 0 <= i < |script.events| && script.events[i].name == name
    ensures SlotsCoverParameters(p)
  {
    hide DeclareGlobals, CompileEvents;
    GlobalsSlots(script.globals);
    var c := DeclareGlobals(EMPTY, script.globals).value;
    EntriesKeepSignatures(c, script.events);
    EntriesAreHandlers(c, script.events);
    EventsCover(c, script.events);
    FoundEntry(p.events, name);
  }

  lemma {:induction false} FoundEntry(events: seq<EventEntry>, name: Bytes)
    ensures var r := FindEvent(events, name); r.Some? ==> r.value in events && r.value.name == name
    decreases |events|
  {
    if events != [] {
      FoundEntry(events[1..], name);
    }
  }

  // ----- the invariant of one script -----

  /** The machine is inside some handler of the program, or was never dispatched. */
  ghost predicate MachineOk(p: Program, v: VmState) {
    && |v.globals| == |p.globalDefaults|
    && ((v.finished && v.error == None)
        || exists entry, halt, locals :: SafeHandler(p, entry, halt, locals) && InHandler(p, entry, halt, locals, v))
  }

  ghost predicate LiveOk(s: Live) {
    && Compiled(s.program) && Ready(s) && MachineOk(s.program, s.vm)
    && |s.pending| <= MAX_PENDING
    && (s.vm.error.Some? ==> s.trapped)
  }

  lemma DispatchedOk(p: Program, v: VmState, name: Bytes, args: seq<Value>)
    requires Compiled(p) && |v.globals| == |p.globalDefaults| && SlotsCoverParameters(p)
    requires Dispatch(p, v, name, args).Ok?
    ensures MachineOk(p, Dispatch(p, v, name, args).value)
  {
    hide CompileScript, SafeHandler;
    var script: Script :| CompileScript(script) == Ok(p);
    EntryFacts(script, p, name);
    var i :| 0 <= i < |script.events| && script.events[i].name == name;
    InstalledIsSilent();
    var entry, halt, locals := ReachableStatesAreSafe(script, p, Some(INSTALLED), i, args, v, 0);
    assert Run(p, Some(INSTALLED), Dispatch(p, v, name, args).value, 0).state == Dispatch(p, v, name, args).value;
  }

  lemma RunOk(p: Program, v: VmState, n: nat)
    requires MachineOk(p, v)
    ensures MachineOk(p, Run(p, Some(INSTALLED), v, n).state)
  {
    hide SafeHandler;
    InstalledIsSilent();
    RunKeeps(p, Some(INSTALLED), v, n);
    if !v.finished || v.error.Some? {
      var entry, halt, locals :| SafeHandler(p, entry, halt, locals) && InHandler(p, entry, halt, locals, v);
      RunStaysInHandler(p, Some(INSTALLED), entry, halt, locals, v, n);
    }
  }

  lemma RezzedOk(identity: Identity, p: Program, enabled: bool)
    requires Compiled(p) && SlotsCoverParameters(p)
    ensures LiveOk(Rezzed(identity, p, enabled))
  {
    if Dispatch(p, Fresh(p), "state_entry", []).Ok? {
      DispatchedOk(p, Fresh(p), "state_entry", []);
    }
  }

  /** A compiled handler takes its event's own arguments, so a queued touch never throws. */
  lemma TouchDispatches(p: Program, n: int32)
    requires Compiled(p) && FindEvent(p.events, "touch_start").Some?
    ensures Dispatchable(p, Touch(n))
  {
    var script: Script :| CompileScript(script) == Ok(p);
    EntryFacts(script, p, "touch_start");
  }

  lemma QueuedOk(s: Live, n: int32)
    requires LiveOk(s)
    ensures LiveOk(QueueEvent(s, Touch(n)))
  {
    if Accepts(s, "touch_start") {
      TouchDispatches(s.program, n);
    }
  }

  /** A turn keeps the script sound; a script it traps has failed a type check and nothing else. */
  lemma TurnOk(s: Live, grant: nat)
    requires LiveOk(s)
    ensures LiveOk(Turn(s, grant).script)
  {
    TurnKeepsReady(s, grant);
    if !Idle(s) {
      hide SafeHandler, InHandler, Run, Compiled;
      var seeded := Seeded(s);
      if s.vm.finished {
        DispatchSucceeds(s.program, s.vm, s.pending[0]);
        DispatchedOk(s.program, s.vm, s.pending[0].name, s.pending[0].args);
      }
      RunOk(s.program, seeded.vm, grant);
      StatusTellsError(s.program, seeded.vm, grant);
    }
  }

  /** A machine with no error ends a run with one exactly when the run reports it. */
  lemma {:induction false} StatusTellsError(p: Program, v: VmState, n: nat)
    requires v.error == None
    ensures var r := Run(p, Some(INSTALLED), v, n); r.state.error.Some? <==> r.status == Error
    decreases n
  {
    hide Step;
    if !v.finished && n > 0 {
      StepKeeps(p, Some(INSTALLED), v);
      match Step(p, Some(INSTALLED), v)
      case Next(s1) => StatusTellsError(p, s1.(total := s1.total + 1), n - 1);
      case Trap(_, _) =>
    }
  }

  // ----- the invariant of the whole runtime -----

  ghost predicate AllOk(m: Scripts) {
    forall k :: k in m ==> LiveOk(m[k])
  }

  lemma {:induction false} TickFromOk(m: Scripts, order: seq<Key>, remaining: nat, slice: nat, so: TickResult)
    requires AllOk(m) && AllReady(m) && forall k :: k in order ==> k in m
    ensures AllOk(TickFrom(m, order, remaining, slice, so).scripts)
    ensures TickFrom(m, order, remaining, slice, so).scripts.Keys == m.Keys
    decreases |order|
  {
    hide LiveOk, Turn, Ready;
    if order != [] && remaining > 0 {
      var t := Turn(m[order[0]], Min(remaining, slice));
      TurnOk(m[order[0]], Min(remaining, slice));
      TurnKeepsReady(m[order[0]], Min(remaining, slice));
      TickFromOk(m[order[0] := t.script], order[1..], remaining - Min(remaining, t.consumed), slice, Count(so, t));
    }
  }

  lemma RezOk(m: Scripts, identity: Identity, source: Bytes, enabled: bool)
    requires AllOk(m) && CompileSource(source).Ok?
    ensures SlotsCoverParameters(CompileSource(source).value)
    ensures AllOk(m[InstanceKey(identity.objectId, identity.itemId) := Rezzed(identity, CompileSource(source).value, enabled)])
  {
    hide CompileSource, LiveOk, Rezzed, Compiled, SlotsCoverParameters;
    CompiledFrom(source);
    CompiledCovers(source);
    RezzedOk(identity, CompileSource(source).value, enabled);
  }

  lemma TouchOk(m: Scripts, objectId: Bytes, n: int32)
    requires AllOk(m)
    ensures AllOk(TouchAll(m, objectId, Touch(n)))
  {
    hide LiveOk, QueueEvent;
    forall k | k in m
      ensures LiveOk(TouchAll(m, objectId, Touch(n))[k])
    {
      QueuedOk(m[k], n);
    }
  }

  /** Every operation keeps every script sound. */
  lemma ApplyOk(m: Scripts, a: Action)
    requires AllOk(m) && AllReady(m) && Possible(m, a)
    ensures AllOk(Apply(m, a)) && AllReady(Apply(m, a))
  {
    hide TickFrom, LiveOk, Ready, CompileSource, Rezzed, TouchAll;
    match a {
      case Rez(identity, source, enabled) =>
        if CompileSource(WithoutTerminators(source)).Ok? {
          RezOk(m, identity, WithoutTerminators(source), enabled);
        }
      case SetEnabled(objectId, itemId, enabled) =>
        if InstanceKey(objectId, itemId) in m {
          SwitchedOk(m[InstanceKey(objectId, itemId)], enabled);
        }
      case Erase(_, _) =>
      case TouchStart(objectId, count) => TouchOk(m, objectId, count);
      case RunTick(order, total, slice) =>
        if total > 0 && slice > 0 {
          TickFromOk(m, order, total, slice, NOTHING);
        }
    }
    SoundIsReady(Apply(m, a));
  }

  lemma SwitchedOk(s: Live, enabled: bool)
    requires LiveOk(s)
    ensures LiveOk(s.(enabled := enabled))
  {
  }

  lemma SoundIsReady(m: Scripts)
    ensures AllOk(m) ==> AllReady(m)
  {
  }

  /** What an operation leads to. It is defined where no dispatch can throw, and nothing is
      claimed of it elsewhere: that a run never goes elsewhere is proved, not assumed. */
  ghost predicate LeadsTo(m: Scripts, a: Action, next: Scripts) {
    Possible(m, a) && (AllReady(m) ==> next == Apply(m, a))
  }

  /** A run of the runtime: any operations, in any order, from an empty runtime. */
  ghost predicate IsRun(states: seq<Scripts>, actions: seq<Action>) {
    && |states| == |actions| + 1 && states[0] == map[]
    && forall i :: 0 <= i < |actions| ==> LeadsTo(states[i], actions[i], states[i + 1])
  }

  /** In every state of every run: queues hold at most 64 events and only dispatchable ones,
      machines stand inside a compiled handler, and the only faults are type checks, after
      which the script is trapped. */
  lemma {:induction false} EveryRunIsSafe(states: seq<Scripts>, actions: seq<Action>, i: nat)
    requires IsRun(states, actions) && i < |states|
    ensures AllOk(states[i])
    decreases i
  {
    hide Apply, LiveOk, Possible, LeadsTo, AllReady;
    if i > 0 {
      EveryRunIsSafe(states, actions, i - 1);
      OneStep(states[i - 1], actions[i - 1], states[i]);
      ApplyOk(states[i - 1], actions[i - 1]);
    }
  }

  lemma OneStep(m: Scripts, a: Action, next: Scripts)
    requires AllOk(m) && LeadsTo(m, a, next)
    ensures AllReady(m) && Possible(m, a) && next == Apply(m, a)
  {
    hide Apply, AllOk;
    SoundIsReady(m);
  }

  /** Every step of a run is an operation on scripts none of which can throw. */
  lemma RunStep(states: seq<Scripts>, actions: seq<Action>, i: nat)
    requires IsRun(states, actions) && i < |actions|
    ensures AllReady(states[i]) && Possible(states[i], actions[i]) && states[i + 1] == Apply(states[i], actions[i])
  {
    hide Apply, AllOk, LeadsTo, AllReady, Possible;
    EveryRunIsSafe(states, actions, i);
    OneStep(states[i], actions[i], states[i + 1]);
  }

  // ----- budgets -----

  /** A turn spends no more than it was granted, and no idle script spends anything. */
  lemma TurnBudget(s: Live, grant: nat)
    requires Ready(s)
    ensures var t := Turn(s, grant);
      t.consumed <= grant && t.script.vm.total == s.vm.total + t.consumed && (Idle(s) ==> t.script == s && t.consumed == 0)
  {
    if !Idle(s) {
      hide Run;
      Consumed(s.program, Seeded(s).vm, grant);
      if s.vm.finished {
        DispatchSucceeds(s.program, s.vm, s.pending[0]);
        DispatchKeeps(s.program, s.vm, s.pending[0].name, s.pending[0].args);
      }
    }
  }

  /** Dispatching resets the handler's own state only. */
  lemma DispatchKeeps(p: Program, v: VmState, name: Bytes, args: seq<Value>)
    requires SlotsCoverParameters(p) && Dispatch(p, v, name, args).Ok?
    ensures var w := Dispatch(p, v, name, args).value;
      w.total == v.total && w.globals == v.globals && w.trace == v.trace && !w.finished
  {
  }

  /** Instructions executed by all the scripts. */
  function TotalOver(m: Scripts, keys: seq<Key>): nat
    requires forall k :: k in keys ==> k in m
    decreases |keys|
  {
    if keys == [] then 0 else m[keys[0]].vm.total + TotalOver(m, keys[1..])
  }

  lemma {:induction false} TotalUnchanged(m: Scripts, n: Scripts, keys: seq<Key>)
    requires forall k :: k in keys ==> k in m && k in n && m[k].vm.total == n[k].vm.total
    ensures TotalOver(m, keys) == TotalOver(n, keys)
    decreases |keys|
  {
    if keys != [] {
      TotalUnchanged(m, n, keys[1..]);
    }
  }

  /** Scripts not in the remaining order are left alone by the rest of the tick. */
  lemma {:induction false} TickTouchesOrder(m: Scripts, order: seq<Key>, remaining: nat, slice: nat, so: TickResult, k: Key)
    requires AllReady(m) && (forall q :: q in order ==> q in m) && k in m && k !in order
    ensures var n := TickFrom(m, order, remaining, slice, so).scripts;
      k in n && n[k] == m[k]
    decreases |order|
  {
    hide Turn, Ready;
    if order != [] && remaining > 0 {
      var t := Turn(m[order[0]], Min(remaining, slice));
      TurnKeepsReady(m[order[0]], Min(remaining, slice));
      TickTouchesOrder(m[order[0] := t.script], order[1..], remaining - Min(remaining, t.consumed), slice, Count(so, t), k);
    }
  }

  /** What a tick does to one script: nothing, or one turn with some grant within its slice. */
  lemma {:induction false} TickIsOneTurn(m: Scripts, order: seq<Key>, remaining: nat, slice: nat, so: TickResult, k: Key)
      returns (grant: nat)
    requires AllReady(m) && (forall q :: q in order ==> q in m) && k in m && Distinct(order)
    ensures grant <= slice && grant <= remaining
    ensures var n := TickFrom(m, order, remaining, slice, so).scripts;
      k in n && (n[k] == m[k] || (k in order && n[k] == Turn(m[k], grant).script))
    decreases |order|
  {
    hide Turn, Ready;
    grant := 0;
    if order != [] && remaining > 0 {
      var g := Min(remaining, slice);
      var t := Turn(m[order[0]], g);
      TurnKeepsReady(m[order[0]], g);
      var m1 := m[order[0] := t.script];
      if order[0] == k {
        grant := g;
        TickTouchesOrder(m1, order[1..], remaining - Min(remaining, t.consumed), slice, Count(so, t), k);
      } else {
        grant := TickIsOneTurn(m1, order[1..], remaining - Min(remaining, t.consumed), slice, Count(so, t), k);
      }
    }
  }

  /** The instructions a tick reports are exactly those its scripts executed, and never more
      than the budget. */
  lemma {:induction false} TickBudget(m: Scripts, order: seq<Key>, remaining: nat, slice: nat, so: TickResult)
    requires AllReady(m) && (forall q :: q in order ==> q in m) && Distinct(order)
    ensures var t := TickFrom(m, order, remaining, slice, so);
      && so.instructions <= t.result.instructions <= so.instructions + remaining
      && (forall q :: q in order ==> q in t.scripts)
      && TotalOver(t.scripts, order) == TotalOver(m, order) + t.result.instructions - so.instructions
    decreases |order|
  {
    hide Turn, Ready;
    if order != [] && remaining > 0 {
      var k, g := order[0], Min(remaining, slice);
      var t := Turn(m[k], g);
      TurnKeepsReady(m[k], g);
      TurnBudget(m[k], g);
      var m1 := m[k := t.script];
      var left := remaining - Min(remaining, t.consumed);
      TickBudget(m1, order[1..], left, slice, Count(so, t));
      TickTouchesOrder(m1, order[1..], left, slice, Count(so, t), k);
      TotalUnchanged(m, m1, order[1..]);
    }
  }
}
