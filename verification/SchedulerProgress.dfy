/** What the runtime owes its scripts. */
module SchedulerProgress {
  import opened Prelude
  import opened Bytecode
  import opened Vm
  import opened Compiler
  import opened Interruption
  import opened Correctness
  import opened ParseInverse
  import opened Scheduler
  import opened SchedulerSafety
  import opened SchedulerHistory

  // ----- calls that do not run anything -----

  /** A touch adds one event, with its count, to every script of the object that is on, has not been
      trapped, handles touches and has fewer than sixty-four events waiting; and does nothing else. */
  lemma TouchMeans(m: Scripts, objectId: Bytes, count: int32, k: Key)
    requires AllReady(m)
    ensures var n := Apply(m, TouchStart(objectId, count));
      n.Keys == m.Keys && (k in m ==> n[k] == if Hears(m[k], objectId) then WithTouch(m[k], count) else m[k])
  {
  }

  predicate Hears(s: Live, objectId: Bytes) {
    && s.identity.objectId == objectId && s.enabled && !s.trapped
    && FindEvent(s.program.events, "touch_start").Some? && |s.pending| < 64
  }

  function WithTouch(s: Live, count: int32): Live {
    s.(pending := s.pending + [PendingEvent("touch_start", [Int(count)])])
  }

  /** Erasing removes the one script and nothing else. */
  lemma EraseMeans(m: Scripts, objectId: Bytes, itemId: Bytes, k: Key)
    requires AllReady(m)
    ensures var n := Apply(m, Erase(objectId, itemId));
      (k in n <==> k in m && k != objectId + ['|'] + itemId) && (k in n ==> n[k] == m[k])
  {
  }

  lemma {:induction false} TerminatorsGo(source: Bytes)
    ensures var kept := WithoutTerminators(source);
      && kept <= source && (kept != [] ==> kept[|kept| - 1] as int != 0)
      && forall i :: |kept| <= i < |source| ==> source[i] as int == 0
    decreases |source|
  {
    if source != [] && source[|source| - 1] == '\0' {
      TerminatorsGo(source[..|source| - 1]);
    }
  }

  /** A script that has done nothing yet, about to run its entry handler if it is on and has one. */
  predicate New(s: Live, identity: Identity, p: Program, enabled: bool) {
    && s.identity == identity && s.program == p && s.enabled == enabled && !s.trapped && s.pending == []
    && s.vm.trace == [] && s.vm.globals == p.globalDefaults && s.vm.error == None && s.vm.total == 0
    && (s.vm.finished <==> !(enabled && FindEvent(p.events, "state_entry").Some?))
  }

  /** A rez of a text that does not parse and compile changes nothing. */
  lemma RefusedRezMeans(m: Scripts, a: Action)
    requires AllReady(m) && a.Rez? && forall script :: !RezzesScript(a, script)
    ensures Apply(m, a) == m
  {
    hide CompileScript, ParseSource;
    var kept := WithoutTerminators(a.source);
    assert ParseSource(kept).Ok? ==> !RezzesScript(a, ParseSource(kept).value);
  }

  /** Of one that does, it puts a new script under its key and changes no other. */
  lemma RezMeans(m: Scripts, a: Action, script: Ast.Script)
    requires AllReady(m) && RezzesScript(a, script)
    ensures var n := Apply(m, a); var key := a.identity.objectId + ['|'] + a.identity.itemId;
      key in n && n == m[key := n[key]] && New(n[key], a.identity, CompileScript(script).value, a.enabled)
  {
    hide ParseSource, CompileScript;
    CompiledCovers(WithoutTerminators(a.source));
    RezzedIsNew(a.identity, script, a.enabled);
  }

  lemma RezzedIsNew(identity: Identity, script: Ast.Script, enabled: bool)
    requires CompileScript(script).Ok? && SlotsCoverParameters(CompileScript(script).value)
    ensures New(Rezzed(identity, CompileScript(script).value, enabled), identity, CompileScript(script).value, enabled)
  {
    hide CompileScript;
    EntryDispatches(script, CompileScript(script).value);
  }

  lemma EntryDispatches(script: Ast.Script, p: Program)
    requires CompileScript(script) == Ok(p) && SlotsCoverParameters(p)
    ensures Dispatch(p, Fresh(p), "state_entry", []).Ok? <==> FindEvent(p.events, "state_entry").Some?
  {
    if FindEvent(p.events, "state_entry").Some? {
      hide CompileScript;
      EntryFacts(script, p, "state_entry");
    }
  }

  // ----- a turn -----

  /** The script has something to run. */
  predicate Runnable(s: Live) {
    s.enabled && !s.trapped && (!s.vm.finished || s.pending != [])
  }

  /** The script ran for `n` instructions, or to its end: from where it was if it was in a handler, and
      from the start of the first waiting event's handler if it was not. A fault trapped it. */
  ghost predicate Ran(s: Live, t: Live, n: nat, start: VmState)
    requires SlotsCoverParameters(s.program)
  {
    && (if s.vm.finished
        then s.pending != [] && t.pending == s.pending[1..]
             && Dispatch(s.program, s.vm, s.pending[0].name, s.pending[0].args) == Ok(start)
        else t.pending == s.pending && start == s.vm)
    && t.vm == Run(s.program, HOST, start, n).state && (t.trapped <==> Run(s.program, HOST, start, n).status == Error)
    && t.identity == s.identity && t.program == s.program && t.enabled == s.enabled
  }

  lemma TurnMeans(s: Live, grant: nat) returns (start: VmState)
    requires Ready(s)
    ensures !Runnable(s) ==> Turn(s, grant).script == s
    ensures Runnable(s) ==> Ran(s, Turn(s, grant).script, grant, start)
  {
    hide Run, Dispatch;
    start := s.vm;
    if Runnable(s) {
      start := Seeded(s).vm;
      if s.vm.finished {
        DispatchSucceeds(s.program, s.vm, s.pending[0]);
      }
    }
  }

  /** What a tick with budget enough does to each script: all of a slice for those that have something
      to run, and nothing to the others. */
  lemma {:induction false} AllTakeTurns(m: Scripts, order: seq<Key>, remaining: nat, slice: nat, so: TickResult, k: Key)
    requires AllReady(m) && (forall q :: q in order ==> q in m) && Distinct(order) && k in order
    requires slice > 0 && |order| * slice <= remaining
    ensures var n := TickFrom(m, order, remaining, slice, so).scripts;
      k in n && n[k] == Turn(m[k], slice).script
    decreases |order|
  {
    hide Turn, Ready;
    var t := Turn(m[order[0]], Min(remaining, slice));
    TurnKeepsReady(m[order[0]], Min(remaining, slice));
    TurnBudget(m[order[0]], Min(remaining, slice));
    assert |order| * slice == slice + |order[1..]| * slice by { OneLess(|order|, slice); }
    assert Min(remaining, slice) == slice;
    var m1 := m[order[0] := t.script];
    if order[0] == k {
      TickTouchesOrder(m1, order[1..], remaining - Min(remaining, t.consumed), slice, Count(so, t), k);
    } else {
      AllTakeTurns(m1, order[1..], remaining - Min(remaining, t.consumed), slice, Count(so, t), k);
    }
  }

  lemma OneLess(n: nat, slice: nat)
    requires n > 0
    ensures n * slice == slice + (n - 1) * slice && slice <= n * slice
  {
  }

  /** A tick whose budget covers a slice for every script. */
  predicate Ample(a: Action) {
    a.RunTick? && a.slice > 0 && |a.order| * a.slice <= a.total
  }

  lemma AmpleTickServes(m: Scripts, a: Action, k: Key) returns (start: VmState)
    requires AllReady(m) && Possible(m, a) && Ample(a) && k in m
    ensures k in Apply(m, a)
    ensures Runnable(m[k]) ==> Ran(m[k], Apply(m, a)[k], a.slice, start)
    ensures !Runnable(m[k]) ==> Apply(m, a)[k] == m[k]
  {
    hide Turn, Ran, TickFrom, Ready;
    assert k in a.order;
    OneLess(|a.order|, a.slice);
    AllTakeTurns(m, a.order, a.total, a.slice, NOTHING, k);
    start := TurnMeans(m[k], a.slice);
  }

  // ----- what a tick reports -----

  /** The scripts of a list that a tick changed, and those it trapped. */
  function Changed(m: Scripts, n: Scripts, order: seq<Key>): nat
    requires forall k :: k in order ==> k in m && k in n
    decreases |order|
  {
    if order == [] then 0 else (if n[order[0]] != m[order[0]] then 1 else 0) + Changed(m, n, order[1..])
  }

  function NewlyTrapped(m: Scripts, n: Scripts, order: seq<Key>): nat
    requires forall k :: k in order ==> k in m && k in n
    decreases |order|
  {
    if order == [] then 0
    else (if n[order[0]].trapped && !m[order[0]].trapped then 1 else 0) + NewlyTrapped(m, n, order[1..])
  }

  lemma RunCounts(p: Program, v: VmState, n: nat)
    requires !v.finished && n > 0
    ensures var r := Run(p, HOST, v, n); r.status != Error ==> r.state.total > v.total
  {
    hide Step;
    StepCounts(p, HOST, v);
    match Step(p, HOST, v)
    case Next(s1) => RunCount(p, HOST, s1.(total := s1.total + 1), n - 1);
    case Trap(_, _) =>
  }

  /** A turn is reported as a visit exactly when it changed the script, and as a trap exactly when it
      trapped it. */
  lemma TurnReports(s: Live, grant: nat)
    requires Ready(s) && grant > 0
    ensures var t := Turn(s, grant);
      (t.visited <==> t.script != s) && (t.trapped <==> t.script.trapped && !s.trapped)
  {
    hide Run;
    if !Idle(s) {
      var seeded := Seeded(s);
      if s.vm.finished {
        DispatchSucceeds(s.program, s.vm, s.pending[0]);
        DispatchKeeps(s.program, s.vm, s.pending[0].name, s.pending[0].args);
      }
      RunCounts(s.program, seeded.vm, grant);
    }
  }

  lemma {:induction false} SameCounts(m: Scripts, m1: Scripts, n: Scripts, order: seq<Key>)
    requires forall k :: k in order ==> k in m && k in m1 && k in n && m1[k] == m[k]
    ensures Changed(m, n, order) == Changed(m1, n, order) && NewlyTrapped(m, n, order) == NewlyTrapped(m1, n, order)
    decreases |order|
  {
    if order != [] {
      SameCounts(m, m1, n, order[1..]);
    }
  }

  /** A tick reports as visited as many scripts as it changed, and as trapped as many as it trapped. */
  lemma {:induction false} TickReports(m: Scripts, order: seq<Key>, remaining: nat, slice: nat, so: TickResult)
    requires AllReady(m) && (forall q :: q in order ==> q in m) && Distinct(order) && slice > 0
    ensures var t := TickFrom(m, order, remaining, slice, so);
      && (forall q :: q in order ==> q in t.scripts)
      && t.result.visited == so.visited + Changed(m, t.scripts, order)
      && t.result.trapped == so.trapped + NewlyTrapped(m, t.scripts, order)
    decreases |order|
  {
    hide Turn, Ready;
    if order != [] && remaining > 0 {
      var k, g := order[0], Min(remaining, slice);
      var t := Turn(m[k], g);
      TurnKeepsReady(m[k], g);
      TurnReports(m[k], g);
      var m1 := m[k := t.script];
      var left := remaining - Min(remaining, t.consumed);
      TickReports(m1, order[1..], left, slice, Count(so, t));
      TickTouchesOrder(m1, order[1..], left, slice, Count(so, t), k);
      SameCounts(m, m1, TickFrom(m1, order[1..], left, slice, Count(so, t)).scripts, order[1..]);
    } else {
      NothingChanged(m, order);
    }
  }

  lemma {:induction false} NothingChanged(m: Scripts, order: seq<Key>)
    requires forall k :: k in order ==> k in m
    ensures Changed(m, m, order) == 0 && NewlyTrapped(m, m, order) == 0
    decreases |order|
  {
    if order != [] {
      NothingChanged(m, order[1..]);
    }
  }

  /** The whole tick's report: instructions executed, scripts visited, scripts trapped. */
  lemma TickResultMeans(m: Scripts, order: seq<Key>, total: nat, slice: nat)
    requires AllReady(m) && IterationOrder(m, order)
    ensures var t := Tick(m, order, total, slice);
      && (forall q :: q in order ==> q in t.scripts)
      && t.result.visited == Changed(m, t.scripts, order) && t.result.trapped == NewlyTrapped(m, t.scripts, order)
      && TotalOver(t.scripts, order) == TotalOver(m, order) + t.result.instructions && t.result.instructions <= total
  {
    hide TickFrom, Ready;
    if total > 0 && slice > 0 {
      TickReports(m, order, total, slice, NOTHING);
      TickBudget(m, order, total, slice, NOTHING);
    } else {
      NothingChanged(m, order);
    }
  }

  // ----- nobody starves -----

  ghost function AmpleTicks(actions: seq<Action>, i: nat, j: nat): nat
    requires i <= j <= |actions|
    decreases j
  {
    if i == j then 0 else AmpleTicks(actions, i, j - 1) + if Ample(actions[j - 1]) then 1 else 0
  }

  /** The script is on throughout the stretch. */
  ghost predicate StaysOn(states: seq<Scripts>, actions: seq<Action>, k: Key, i: nat, j: nat) {
    Lives(states, actions, k, i, j) && forall x :: i <= x <= j ==> k in states[x] && states[x][k].enabled
  }

  /** No state of the stretch has the machine stopped. */
  ghost predicate NeverStops(states: seq<Scripts>, k: Key, i: nat, j: nat)
    requires i <= j < |states| && forall x :: i <= x <= j ==> k in states[x]
  {
    forall x :: i <= x <= j ==> !states[x][k].vm.finished
  }

  lemma NextState(states: seq<Scripts>, actions: seq<Action>, k: Key, j: nat) returns (more: nat)
    requires IsRun(states, actions) && j < |actions| && k in states[j] && k in states[j + 1] && Spares(actions[j], k)
    requires states[j][k].enabled && !states[j][k].trapped && !states[j][k].vm.finished && !states[j + 1][k].vm.finished
    ensures var s, t := states[j][k], states[j + 1][k];
      && t.program == s.program && !t.trapped && t.vm == Run(s.program, HOST, s.vm, more).state
      && (Ample(actions[j]) ==> more >= 1)
  {
    hide Apply, Run, AllReady, Possible, LeadsTo, Spares, LiveOk;
    RunStep(states, actions, j);
    StepInPlace(states, actions, k, j);
    EveryRunIsSafe(states, actions, j);
    NoErrorYet(states[j][k]);
    more := OneMoreStep(states[j], actions[j], k);
  }

  lemma {:induction false} EveryTickCounts(states: seq<Scripts>, actions: seq<Action>, k: Key, i: nat, j: nat) returns (n: nat)
    requires StaysOn(states, actions, k, i, j) && NeverStops(states, k, i, j) && !states[i][k].trapped
    ensures n >= AmpleTicks(actions, i, j) && !states[j][k].trapped
    ensures states[j][k].program == states[i][k].program && states[j][k].vm == Run(states[i][k].program, HOST, states[i][k].vm, n).state
    decreases j
  {
    hide Run, LeadsTo, Spares;
    if i == j {
      RunZero(states[i][k].program, states[i][k].vm);
      n := 0;
    } else {
      n := EveryTickCounts(states, actions, k, i, j - 1);
      var more := NextState(states, actions, k, j - 1);
      RunSplit(states[i][k].program, HOST, states[i][k].vm, n, more);
      n := n + more;
    }
  }

  lemma NoErrorYet(s: Live)
    requires LiveOk(s) && !s.trapped
    ensures s.vm.error == None
  {
  }

  /** What one action does to a script in the middle of a handler that it leaves in the middle. */
  lemma OneMoreStep(m: Scripts, a: Action, k: Key) returns (more: nat)
    requires AllReady(m) && Possible(m, a) && k in m && Spares(a, k)
    requires m[k].enabled && !m[k].trapped && !m[k].vm.finished && m[k].vm.error == None && k in Apply(m, a) && !Apply(m, a)[k].vm.finished
    ensures Apply(m, a)[k].vm == Run(m[k].program, HOST, m[k].vm, more).state && !Apply(m, a)[k].trapped
    ensures Ample(a) ==> more >= 1
  {
    hide Apply, Possible, AllReady, Run;
    var s, t := m[k], Apply(m, a)[k];
    assert Ready(s) by { ReadyAt(m, k); }
    if Ample(a) {
      var start := AmpleTickServes(m, a, k);
      more := a.slice;
      StoppedOnError(s.program, s.vm, more);
    } else {
      var start, n := ActionEvolves(m, a, k);
      StaysInHandler(s, t, a, n, start);
      more := n;
      RunningHasNoError(s, t, a, n, start);
    }
  }

  lemma ReadyAt(m: Scripts, k: Key)
    requires AllReady(m) && k in m
    ensures Ready(m[k])
  {
  }

  lemma StoppedOnError(p: Program, v: VmState, n: nat)
    ensures Run(p, HOST, v, n).status == Error ==> Run(p, HOST, v, n).state.finished
  {
    hide Run;
    RunCount(p, HOST, v, n);
    ErrorStops(p, v, n);
  }

  lemma {:induction false} ErrorStops(p: Program, v: VmState, n: nat)
    ensures Run(p, HOST, v, n).status == Error ==> Run(p, HOST, v, n).state.finished
    ensures !Run(p, HOST, v, n).state.finished ==> Run(p, HOST, v, n).state.error == v.error
    decreases n
  {
    hide Step;
    if !v.finished && n > 0 {
      StepKeeps(p, HOST, v);
      match Step(p, HOST, v)
      case Next(s1) => ErrorStops(p, s1.(total := s1.total + 1), n - 1);
      case Trap(_, _) =>
    }
  }

  lemma StaysInHandler(s: Live, t: Live, a: Action, n: nat, start: VmState)
    requires SlotsCoverParameters(s.program) && Evolves(s, t, a, n, start) && !s.vm.finished
    ensures start == s.vm && t.vm == Run(s.program, HOST, s.vm, n).state
  {
    hide Run;
  }

  lemma RunningHasNoError(s: Live, t: Live, a: Action, n: nat, start: VmState)
    requires SlotsCoverParameters(s.program) && Evolves(s, t, a, n, start) && start == s.vm
    requires !s.trapped && !t.vm.finished && s.vm.error == None
    ensures !t.trapped
  {
    hide Run;
    ErrorStops(s.program, s.vm, n);
  }

  /** A script left on is not starved: a handler that would end within `n` instructions has ended after
      `n` ticks with budget for everyone, whatever else was asked of the runtime meanwhile. */
  lemma NobodyStarves(states: seq<Scripts>, actions: seq<Action>, k: Key, i: nat, j: nat, n: nat) returns (x: nat)
    requires StaysOn(states, actions, k, i, j) && !states[i][k].trapped && AmpleTicks(actions, i, j) >= n
    requires Run(states[i][k].program, HOST, states[i][k].vm, n).state.finished
    ensures i <= x <= j && states[x][k].vm.finished
  {
    hide Run;
    if x' :| i <= x' <= j && states[x'][k].vm.finished {
      x := x';
    } else {
      var r := EveryTickCounts(states, actions, k, i, j);
      StoppedStays(states[i][k].program, HOST, states[i][k].vm, n, r);
      x := j;
    }
  }
}
