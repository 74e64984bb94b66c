/** The runtime as the source writes it: script objects that own a machine and a queue, in a
    map that every operation updates in place. */
module SchedulerObject {
  import opened Prelude
  import opened Bytecode
  import opened Vm
  import opened Lexer
  import opened Parser
  import opened ParserObject
  import opened Compiler
  import opened CompilerObject
  import opened ParseInverse
  import opened Scheduler

  class LiveScript {
    const identity: Identity
    const program: Program
    const vm: VM
    var enabled: bool
    var trapped: bool
    var pending: seq<PendingEvent>

    /** Owns its machine, whose program is its own and whose host is the installed one. */
    ghost predicate Owned()
      reads this, vm
    {
      vm.program == program && vm.host == Some(INSTALLED)
    }

    ghost function State(): Live
      reads this, vm
    {
      Live(identity, program, vm.State(), enabled, trapped, pending)
    }

    constructor (identity: Identity, program: Program, enabled: bool)
      requires SlotsCoverParameters(program)
      ensures Owned() && fresh(vm) && State() == Rezzed(identity, program, enabled)
    {
      var machine := new VM(program);
      machine.SetHost(INSTALLED);
      if enabled {
        var _ := machine.DispatchEvent("state_entry", []);
      }
      this.identity := identity;
      this.program := program;
      this.enabled := enabled;
      vm := machine;
      trapped := false;
      pending := [];
    }

    method Queue(e: PendingEvent) returns (accepted: bool)
      requires Owned()
      modifies this`pending
      ensures Owned() && accepted == Accepts(old(State()), e.name)
      ensures State() == QueueEvent(old(State()), e)
    {
      if !enabled || trapped || FindEvent(program.events, e.name).None? {
        return false;
      }
      if |pending| >= MAX_PENDING {
        return false;
      }
      pending := pending + [e];
      return true;
    }

    /** One visit of a tick: seed an idle machine from the queue, then run it for a slice. */
    method TakeTurn(grant: nat) returns (visited: bool, consumed: nat, failed: bool)
      requires Owned() && Ready(State())
      modifies this`pending, this`trapped, vm
      ensures Owned() && Turn(old(State()), grant) == Turned(State(), visited, consumed, failed)
    {
      hide Run, Dispatch;
      if !enabled || trapped {
        return false, 0, false;
      }
      if vm.finished {
        if pending == [] {
          return false, 0, false;
        }
        var event := pending[0];
        pending := pending[1..];
        DispatchSucceeds(program, vm.State(), event);
        var thrown := vm.DispatchEvent(event.name, event.args);
        assert thrown == None;
      }
      var before := vm.total;
      Consumed(program, vm.State(), grant);
      var status := vm.RunSlice(grant);
      consumed := vm.total - before;
      if status == Error {
        trapped := true;
      }
      return true, consumed, status == Error;
    }
  }

  datatype RezResult = RezResult(compiled: bool, running: bool, diagnostic: Option<CompileFailure>)

  method CompileText(source: Bytes) returns (r: Result<Program, CompileFailure>)
    ensures r == CompileSource(source)
  {
    hide Tokens, ParseScript, CompileScript;
    var tokens := Tokenize(source);
    match tokens {
      case Err(e) => return Err(BadSource(Lexical(e)));
      case Ok(ts) =>
        var parser := new TokenParser(ts);
        var script := parser.Script();
        match script {
          case Err(e) => return Err(BadSource(Syntactic(e)));
          case Ok(tree) =>
            var compiler := new ScriptCompiler();
            var p := compiler.Script(tree);
            match p
            case Err(e) => return Err(BadScript(e));
            case Ok(program) => return Ok(program);
        }
    }
  }

  /** The scripts of the object that would take the event. */
  ghost function Acceptors(m: Scheduler.Scripts, objectId: Bytes, event: Bytes): set<Key> {
    set k | k in m && m[k].identity.objectId == objectId && Accepts(m[k], event)
  }

  /** The event offered to the scripts no longer left to visit. */
  ghost function TouchSome(m: Scheduler.Scripts, left: set<Key>, objectId: Bytes, e: PendingEvent): Scheduler.Scripts {
    map k | k in m :: if k in left || m[k].identity.objectId != objectId then m[k] else QueueEvent(m[k], e)
  }

  lemma TouchOne(m: Scheduler.Scripts, left: set<Key>, k: Key, objectId: Bytes, e: PendingEvent)
    requires k in m && k in left
    ensures TouchSome(m, left, objectId, e)[k] == m[k]
    ensures TouchSome(m, left - {k}, objectId, e) == TouchSome(m, left, objectId, e)[
      k := if m[k].identity.objectId == objectId then QueueEvent(m[k], e) else m[k]]
    ensures var takers := Acceptors(m, objectId, e.name);
      |takers * left| == |takers * (left - {k})| + if m[k].identity.objectId == objectId && Accepts(m[k], e.name) then 1 else 0
  {
    hide QueueEvent, Accepts;
    var takers := Acceptors(m, objectId, e.name);
    if k in takers {
      assert takers * left == takers * (left - {k}) + {k};
    } else {
      assert takers * left == takers * (left - {k});
    }
  }

  lemma TouchNoneOrAll(m: Scheduler.Scripts, objectId: Bytes, e: PendingEvent)
    ensures TouchSome(m, m.Keys, objectId, e) == m
    ensures TouchSome(m, {}, objectId, e) == TouchAll(m, objectId, e)
    ensures Acceptors(m, objectId, e.name) * m.Keys == Acceptors(m, objectId, e.name)
  {
  }

  lemma TickStep(m: Scheduler.Scripts, order: seq<Key>, i: nat, remaining: nat, slice: nat, so: TickResult)
      returns (t: Turned, next: Scheduler.Scripts)
    requires AllReady(m) && (forall k :: k in order ==> k in m) && i < |order| && remaining > 0
    ensures Ready(m[order[i]]) && t == Turn(m[order[i]], Min(remaining, slice)) && next == m[order[i] := t.script]
    ensures AllReady(next) && forall k :: k in order ==> k in next
    ensures TickFrom(m, order[i..], remaining, slice, so)
      == TickFrom(next, order[i + 1..], remaining - Min(remaining, t.consumed), slice, Count(so, t))
  {
    hide Turn, Ready;
    t := Turn(m[order[i]], Min(remaining, slice));
    next := m[order[i] := t.script];
    TurnKeepsReady(m[order[i]], Min(remaining, slice));
    assert order[i..][1..] == order[i + 1..];
  }

  lemma TickBegins(m: Scheduler.Scripts, order: seq<Key>, total: nat, slice: nat)
    requires AllReady(m) && IterationOrder(m, order)
    ensures forall k :: k in order ==> k in m
    ensures Tick(m, order, total, slice)
      == if total == 0 || slice == 0 then Ticked(m, NOTHING) else TickFrom(m, order[0..], total, slice, NOTHING)
  {
    assert order[0..] == order;
  }

  lemma Counted(so: TickResult, t: Turned)
    ensures Count(so, t) == TickResult(
      so.visited + (if t.visited then 1 else 0), so.instructions + t.consumed, so.trapped + (if t.trapped then 1 else 0))
  {
  }

  lemma TickEnds(m: Scheduler.Scripts, order: seq<Key>, remaining: nat, slice: nat, so: TickResult)
    requires AllReady(m) && (forall k :: k in order ==> k in m) && (order == [] || remaining == 0)
    ensures TickFrom(m, order, remaining, slice, so) == Ticked(m, so)
  {
  }

  /** Nothing is shared: two keys hold two scripts, each over a machine of its own. */
  ghost predicate Separate(m: map<Key, LiveScript>) {
    forall k, q :: k in m && q in m && k != q ==> m[k] != m[q] && m[k].vm != m[q].vm
  }

  lemma StillSeparate(m: map<Key, LiveScript>, k: Key, live: LiveScript)
    requires Separate(m) && forall q :: q in m ==> m[q] != live && m[q].vm != live.vm
    ensures Separate(m[k := live])
  {
  }

  class FalconRuntime {
    var scripts: map<Key, LiveScript>

    constructor ()
      ensures Valid() && State() == map[]
    {
      scripts := map[];
    }

    ghost predicate Valid()
      reads this, Objects()
    {
      Separate(scripts) && forall k :: k in scripts ==> scripts[k].Owned()
    }

    ghost function Objects(): set<object>
      reads this
    {
      (set k | k in scripts :: scripts[k]) + (set k | k in scripts :: scripts[k].vm)
    }

    ghost function State(): Scheduler.Scripts
      reads this, Objects()
    {
      map k | k in scripts :: scripts[k].State()
    }

    lemma Faces()
      ensures State().Keys == scripts.Keys
      ensures forall k :: k in scripts ==> State()[k].identity == scripts[k].identity
    {
    }

    /** No script was touched. */
    twostate lemma Untouched()
      requires scripts == old(scripts)
      requires forall q :: q in scripts ==> unchanged(scripts[q]) && unchanged(scripts[q].vm)
      ensures State() == old(State()) && Valid() == old(Valid())
    {
    }

    /** Only the script under one key was touched. */
    twostate lemma Touched(k: Key)
      requires k in scripts && scripts == old(scripts)
      requires forall q :: q in scripts && q != k ==> unchanged(scripts[q]) && unchanged(scripts[q].vm)
      ensures State() == old(State())[k := scripts[k].State()]
    {
    }

    /** Trailing terminators are dropped; a script that does not compile changes nothing. */
    method RezScript(identity: Identity, source: Bytes, enabled: bool) returns (r: RezResult)
      requires Valid()
      modifies this
      ensures Valid() && State() == RezAll(old(State()), identity, WithoutTerminators(source), enabled)
      ensures r.compiled == CompileSource(WithoutTerminators(source)).Ok? && r.running == (r.compiled && enabled)
    {
      hide CompileSource, Rezzed, State, Valid, LiveScript.State, LiveScript.Owned;
      var text := source;
      while text != [] && text[|text| - 1] == '\0'
        invariant WithoutTerminators(source) == WithoutTerminators(text)
        decreases |text|
      {
        text := text[..|text| - 1];
      }
      var compiled := CompileText(text);
      if compiled.Err? {
        Untouched();
        return RezResult(false, false, Some(compiled.error));
      }
      CompiledCovers(text);
      var live := new LiveScript(identity, compiled.value, enabled);
      Untouched();
      Install(InstanceKey(identity.objectId, identity.itemId), live);
      return RezResult(true, enabled, None);
    }

    /** Puts a script of its own in the map, over whatever stood under the key. */
    method Install(k: Key, live: LiveScript)
      requires Valid() && live.Owned() && forall q :: q in scripts ==> scripts[q] != live && scripts[q].vm != live.vm
      modifies this
      ensures Valid() && State() == old(State())[k := live.State()]
    {
      hide LiveScript.State, LiveScript.Owned, Separate;
      StillSeparate(scripts, k, live);
      scripts := scripts[k := live];
    }

    method SetEnabled(objectId: Bytes, itemId: Bytes, enabled: bool) returns (found: bool)
      requires Valid()
      modifies Objects()
      ensures Valid() && found == (InstanceKey(objectId, itemId) in scripts)
      ensures State() == Switch(old(State()), InstanceKey(objectId, itemId), enabled)
    {
      var k := InstanceKey(objectId, itemId);
      if k !in scripts {
        return false;
      }
      scripts[k].enabled := enabled;
      Touched(k);
      return true;
    }

    method EraseScript(objectId: Bytes, itemId: Bytes) returns (found: bool)
      requires Valid()
      modifies this
      ensures Valid() && found == (InstanceKey(objectId, itemId) in old(scripts))
      ensures State() == old(State()) - {InstanceKey(objectId, itemId)}
    {
      var k := InstanceKey(objectId, itemId);
      found := k in scripts;
      scripts := scripts - {k};
    }

    /** Offers the event to every script of the object, in whatever order the map holds them. */
    method DispatchTouchStart(objectId: Bytes, count: int32) returns (accepted: nat)
      requires Valid()
      modifies Objects()
      ensures Valid() && scripts == old(scripts)
      ensures State() == TouchAll(old(State()), objectId, Touch(count))
      ensures accepted == |Acceptors(old(State()), objectId, "touch_start")|
    {
      hide QueueEvent, Accepts, TouchAll, TouchSome, Acceptors, State, Valid;
      Faces();
      TouchNoneOrAll(State(), objectId, Touch(count));
      accepted := 0;
      var left := scripts.Keys;
      while left != {}
        invariant left <= scripts.Keys && scripts == old(scripts) && Valid()
        invariant State() == TouchSome(old(State()), left, objectId, Touch(count))
        invariant accepted + |Acceptors(old(State()), objectId, "touch_start") * left|
          == |Acceptors(old(State()), objectId, "touch_start")|
        decreases left
      {
        var k :| k in left;
        Faces();
        TouchOne(old(State()), left, k, objectId, Touch(count));
        if scripts[k].identity.objectId == objectId {
          var ok := Offer(k, Touch(count));
          accepted := accepted + if ok then 1 else 0;
        }
        left := left - {k};
      }
    }

    method Offer(k: Key, e: PendingEvent) returns (ok: bool)
      requires Valid() && k in scripts
      modifies scripts[k]
      ensures Valid() && scripts == old(scripts) && ok == Accepts(old(State())[k], e.name)
      ensures State() == old(State())[k := QueueEvent(old(State())[k], e)]
    {
      hide QueueEvent, Accepts;
      ok := scripts[k].Queue(e);
      Touched(k);
    }

    /** One tick. The order is the map's own iteration order, which the source leaves open. */
    method RunOneTick(order: seq<Key>, total: nat, slice: nat) returns (result: TickResult)
      requires Valid() && AllReady(State()) && IterationOrder(State(), order)
      modifies Objects()
      ensures Valid() && scripts == old(scripts)
      ensures Ticked(State(), result) == Tick(old(State()), order, total, slice)
    {
      hide Turn, Ready, AllReady, TickFrom, Tick, Count, IterationOrder, State, Valid;
      result := NOTHING;
      TickBegins(State(), order, total, slice);
      if total == 0 || slice == 0 {
        return;
      }
      ghost var whole := Tick(State(), order, total, slice);
      var remaining: nat := total;
      var i := 0;
      while i < |order| && remaining > 0
        invariant i <= |order| && Valid() && AllReady(State()) && scripts == old(scripts)
        invariant forall k :: k in order ==> k in State()
        invariant whole == TickFrom(State(), order[i..], remaining, slice, result)
      {
        Faces();
        ghost var t, next := TickStep(State(), order, i, remaining, slice, result);
        var visited, consumed, failed := VisitScript(order[i], Min(remaining, slice));
        assert t.visited == visited && t.consumed == consumed && t.trapped == failed && State() == next;
        remaining := remaining - Min(remaining, consumed);
        Counted(result, t);
        result := TickResult(
          result.visited + (if visited then 1 else 0), result.instructions + consumed,
          result.trapped + (if failed then 1 else 0));
        i := i + 1;
      }
      TickEnds(State(), order[i..], remaining, slice, result);
    }

    /** Only the visited script's objects change. */
    method VisitScript(k: Key, grant: nat) returns (visited: bool, consumed: nat, failed: bool)
      requires Valid() && k in scripts && AllReady(State())
      modifies scripts[k], scripts[k].vm
      ensures Valid() && scripts == old(scripts)
      ensures Turn(old(State())[k], grant) == Turned(State()[k], visited, consumed, failed)
      ensures State() == old(State())[k := State()[k]]
    {
      hide Turn, Ready;
      assert State()[k] == scripts[k].State();
      visited, consumed, failed := scripts[k].TakeTurn(grant);
      Touched(k);
    }
  }
}
