/** Many scripts under one instruction budget: what the runtime keeps, and what it does. */
module Scheduler {
  import opened Prelude
  import opened Bytecode
  import opened Vm
  import opened Compiler
  import opened ParseInverse
  import Ast
  import C = Correctness
  import I = Interruption

  datatype Identity = Identity(assetId: Bytes, itemId: Bytes, objectId: Bytes, ownerId: Bytes)

  type Key = Bytes

  function InstanceKey(objectId: Bytes, itemId: Bytes): Key {
    objectId + ['|'] + itemId
  }

  datatype PendingEvent = PendingEvent(name: Bytes, args: seq<Value>)

  const MAX_PENDING: nat := 0x40

  /** One rezzed script: its program, its machine, its switches and its bounded queue. */
  datatype Live = Live(
    identity: Identity, program: Program, vm: VmState,
    enabled: bool, trapped: bool, pending: seq<PendingEvent>)

  /** Both host functions are void: the installed boundary records the call and answers nothing. */
  const INSTALLED: Host := (_, _, _) => None

  datatype HostMessage = HostMessage(identity: Identity, ownerOnly: bool, channel: int32, text: Bytes)

  /** What the sink is told of a host call. */
  function MessageOf(identity: Identity, call: HostCall): Option<HostMessage> {
    if call.name == "llOwnerSay" && |call.args| == 1 && call.args[0].Str? then
      Some(HostMessage(identity, true, 0, call.args[0].text))
    else if call.name == "llSay" && |call.args| == 2 && call.args[0].Int? && call.args[1].Str? then
      Some(HostMessage(identity, false, call.args[0].integer, call.args[1].text))
    else None
  }

  predicate Accepts(s: Live, event: Bytes) {
    s.enabled && !s.trapped && FindEvent(s.program.events, event).Some? && |s.pending| < MAX_PENDING
  }

  function QueueEvent(s: Live, e: PendingEvent): Live {
    if Accepts(s, e.name) then s.(pending := s.pending + [e]) else s
  }

  function Touch(n: int32): PendingEvent {
    PendingEvent("touch_start", [Int(n)])
  }

  // ----- rezzing -----

  datatype CompileFailure = BadSource(source: SourceError) | BadScript(script: CompileError)

  function CompileSource(source: Bytes): Result<Program, CompileFailure> {
    match ParseSource(source)
    case Err(e) => Err(BadSource(e))
    case Ok(script) =>
      match CompileScript(script)
      case Err(e) => Err(BadScript(e))
      case Ok(p) => Ok(p)
  }

  /** A viewer's wire-format terminators are not part of the source. */
  function WithoutTerminators(source: Bytes): Bytes
    decreases |source|
  {
    if source != [] && source[|source| - 1] == '\0' then WithoutTerminators(source[..|source| - 1]) else source
  }

  /** An enabled script with a state_entry handler starts in it. */
  function Rezzed(identity: Identity, p: Program, enabled: bool): Live
    requires SlotsCoverParameters(p)
  {
    var vm := match Dispatch(p, Fresh(p), "state_entry", []) case Ok(v) => v case Err(_) => Fresh(p);
    Live(identity, p, if enabled then vm else Fresh(p), enabled, false, [])
  }

  // ----- one script's turn -----

  /** The event fits the handler's signature, so dispatching it cannot throw. */
  ghost predicate Dispatchable(p: Program, e: PendingEvent) {
    match FindEvent(p.events, e.name)
    case None => false
    case Some(entry) =>
      |e.args| == |entry.paramTypes| && forall i :: 0 <= i < |e.args| ==> TypeOf(e.args[i]) == entry.paramTypes[i]
  }

  ghost predicate Ready(s: Live) {
    SlotsCoverParameters(s.program) && forall e :: e in s.pending ==> Dispatchable(s.program, e)
  }

  lemma DispatchSucceeds(p: Program, v: VmState, e: PendingEvent)
    requires SlotsCoverParameters(p) && Dispatchable(p, e)
    ensures Dispatch(p, v, e.name, e.args).Ok?
  {
  }

  predicate Idle(s: Live) {
    !s.enabled || s.trapped || (s.vm.finished && s.pending == [])
  }

  /** A script that may run first takes its next event, when its machine has finished. */
  function Seeded(s: Live): Live
    requires Ready(s) && !Idle(s)
  {
    if s.vm.finished then
      DispatchSucceeds(s.program, s.vm, s.pending[0]);
      s.(vm := Dispatch(s.program, s.vm, s.pending[0].name, s.pending[0].args).value, pending := s.pending[1..])
    else s
  }

  datatype Turned = Turned(script: Live, visited: bool, consumed: nat, trapped: bool)

  function Turn(s: Live, grant: nat): Turned
    requires Ready(s)
  {
    if Idle(s) then Turned(s, false, 0, false)
    else
      var seeded := Seeded(s);
      var r := Run(s.program, Some(INSTALLED), seeded.vm, grant);
      Consumed(s.program, seeded.vm, grant);
      Turned(seeded.(vm := r.state, trapped := r.status == Error), true,
             r.state.total - seeded.vm.total, r.status == Error)
  }

  lemma {:induction false} Consumed(p: Program, v: VmState, n: nat)
    ensures v.total <= Run(p, Some(INSTALLED), v, n).state.total <= v.total + n
    decreases n
  {
    I.RunCount(p, Some(INSTALLED), v, n);
  }

  // ----- a tick over all scripts -----

  type Scripts = map<Key, Live>

  datatype TickResult = TickResult(visited: nat, instructions: nat, trapped: nat)

  datatype Ticked = Ticked(scripts: Scripts, result: TickResult)

  function Min(a: nat, b: nat): nat {
    if a <= b then a else b
  }

  function Count(r: TickResult, t: Turned): TickResult {
    TickResult(r.visited + (if t.visited then 1 else 0), r.instructions + t.consumed, r.trapped + (if t.trapped then 1 else 0))
  }

  ghost predicate AllReady(m: Scripts) {
    forall k :: k in m ==> Ready(m[k])
  }

  lemma TurnKeepsReady(s: Live, grant: nat)
    requires Ready(s)
    ensures Ready(Turn(s, grant).script)
  {
  }

  /** The scripts in the map's iteration order, which the source leaves open. */
  function TickFrom(m: Scripts, order: seq<Key>, remaining: nat, slice: nat, so: TickResult): Ticked
    requires AllReady(m) && forall k :: k in order ==> k in m
    decreases |order|
  {
    if order == [] || remaining == 0 then Ticked(m, so)
    else
      var t := Turn(m[order[0]], Min(remaining, slice));
      TurnKeepsReady(m[order[0]], Min(remaining, slice));
      TickFrom(m[order[0] := t.script], order[1..], remaining - Min(remaining, t.consumed), slice, Count(so, t))
  }

  const NOTHING: TickResult := TickResult(0, 0, 0)

  /** An iteration order visits every script once. */
  ghost predicate IterationOrder(m: Scripts, order: seq<Key>) {
    && (forall k :: k in order <==> k in m)
    && Distinct(order)
  }

  function Tick(m: Scripts, order: seq<Key>, total: nat, slice: nat): Ticked
    requires AllReady(m) && IterationOrder(m, order)
  {
    if total == 0 || slice == 0 then Ticked(m, NOTHING) else TickFrom(m, order, total, slice, NOTHING)
  }

  // ----- every operation -----

  datatype Action =
    | Rez(identity: Identity, source: Bytes, enabled: bool)
    | SetEnabled(objectId: Bytes, itemId: Bytes, enabled: bool)
    | Erase(objectId: Bytes, itemId: Bytes)
    | TouchStart(objectId: Bytes, count: int32)
    | RunTick(order: seq<Key>, total: nat, slice: nat)

  ghost predicate Possible(m: Scripts, a: Action) {
    a.RunTick? ==> IterationOrder(m, a.order)
  }

  function TouchAll(m: Scripts, objectId: Bytes, e: PendingEvent): Scripts {
    map k | k in m :: if m[k].identity.objectId == objectId then QueueEvent(m[k], e) else m[k]
  }

  /** A source that does not compile leaves the map alone; one that does replaces what stood under its key. */
  function RezAll(m: Scripts, identity: Identity, source: Bytes, enabled: bool): Scripts {
    match CompileSource(source)
    case Err(_) => m
    case Ok(p) =>
      CompiledCovers(source);
      m[InstanceKey(identity.objectId, identity.itemId) := Rezzed(identity, p, enabled)]
  }

  function Switch(m: Scripts, k: Key, enabled: bool): Scripts {
    if k in m then m[k := m[k].(enabled := enabled)] else m
  }

  /** The map after one call of the runtime's interface. */
  function Apply(m: Scripts, a: Action): Scripts
    requires AllReady(m) && Possible(m, a)
  {
    match a
    case Rez(identity, source, enabled) => RezAll(m, identity, WithoutTerminators(source), enabled)
    case SetEnabled(objectId, itemId, enabled) => Switch(m, InstanceKey(objectId, itemId), enabled)
    case Erase(objectId, itemId) => m - {InstanceKey(objectId, itemId)}
    case TouchStart(objectId, count) => TouchAll(m, objectId, Touch(count))
    case RunTick(order, total, slice) => Tick(m, order, total, slice).scripts
  }

  lemma CompiledCovers(source: Bytes)
    requires CompileSource(source).Ok?
    ensures SlotsCoverParameters(CompileSource(source).value)
  {
    var script := ParseSource(source).value;
    ScriptCovers(script);
  }

  lemma ScriptCovers(script: Ast.Script)
    requires CompileScript(script).Ok?
    ensures SlotsCoverParameters(CompileScript(script).value)
  {
    hide DeclareGlobals, CompileEvents;
    C.GlobalsSlots(script.globals);
    var c := DeclareGlobals(EMPTY, script.globals).value;
    C.EventsCover(c, script.events);
  }
}
