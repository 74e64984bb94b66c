/** Compiler correctness for whole scripts. */
module Correctness {
  import opened Prelude
  import opened Bytecode
  import opened Ast
  import opened Vm
  import opened Compiler
  import opened Evaluator
  import opened Typing
  import opened Interruption
  import opened Simulation

  // ----- slots -----

  ghost predicate WellScoped(c: Unit) {
    SlotsOk(c.locals, Local, c.localCount) && SlotsOk(c.globals, Global, |c.globalDefaults|)
  }

  lemma {:induction false} StmtScopes(c: Unit, s: Stmt)
    requires WellScoped(c)
    ensures CompileStmt(c, s).Ok? ==> WellScoped(CompileStmt(c, s).value)
    decreases s, 1
  {
    match s
    case Block(statements) => BlockScopes(c, statements);
    case VarDecl(ty, name, init) => VarDeclScopes(c, ty, name, init);
    case Assign(_, value) => ExprExtends(c, value);
    case ExprStmt(expr) => ExprExtends(c, expr);
    case While(condition, body) =>
      hide CompileExpr;
      ConditionTypes(c, condition);
      if CompileCondition(c, condition).Ok? {
        BlockScopes(Emit(CompileCondition(c, condition).value, JumpIfZero, 0, 0), body);
      }
    case If(condition, thenBranch, elseBranch) =>
      hide CompileExpr;
      ConditionTypes(c, condition);
      if CompileCondition(c, condition).Ok? {
        var c1 := CompileCondition(c, condition).value;
        var c2 := Emit(c1, JumpIfZero, 0, 0);
        BlockScopes(c2, thenBranch);
        if CompileBlock(c2, thenBranch).Ok? && elseBranch.Else? {
          var c4 := Emit(CompileBlock(c2, thenBranch).value, Jump, 0, 0);
          BlockScopes(Patch(c4, |c1.code|, |c4.code|), elseBranch.body);
        }
      }
  }

  lemma VarDeclScopes(c: Unit, ty: ValueType, name: Bytes, init: Option<Expr>)
    requires WellScoped(c)
    ensures CompileVarDecl(c, ty, name, init).Ok? ==> WellScoped(CompileVarDecl(c, ty, name, init).value)
  {
    hide CompileInit;
    InitTypes(c.(localCount := c.localCount + 1), ty, name, init);
  }

  lemma {:induction false} BlockScopes(c: Unit, ss: seq<Stmt>)
    requires WellScoped(c)
    ensures CompileBlock(c, ss).Ok? ==> WellScoped(CompileBlock(c, ss).value)
    decreases ss, 0
  {
    hide CompileStmt, WellScoped;
    if ss != [] && CompileStmt(c, ss[0]).Ok? {
      StmtScopes(c, ss[0]);
      BlockScopes(CompileStmt(c, ss[0]).value, ss[1..]);
    }
  }

  // ----- globals -----

  /** The j-th global sits in slot j. */
  ghost predicate GlobalsInOrder(c: Unit, gs: seq<GlobalVar>) {
    && |c.globalDefaults| == |gs|
    && (forall j :: 0 <= j < |gs| ==> gs[j].name in c.globals && c.globals[gs[j].name] == Symbol(Global, j, gs[j].ty))
    && (forall n :: n in c.globals ==> exists j :: 0 <= j < |gs| && gs[j].name == n)
  }

  lemma {:induction false} GlobalsSlots(gs: seq<GlobalVar>)
    requires DeclareGlobals(EMPTY, gs).Ok?
    ensures GlobalsInOrder(DeclareGlobals(EMPTY, gs).value, gs)
    ensures var c := DeclareGlobals(EMPTY, gs).value;
      c.code == [] && c.events == [] && c.locals == map[] && SlotsOk(c.globals, Global, |gs|)
    decreases |gs|
  {
    if gs != [] {
      var front, g := gs[..|gs| - 1], gs[|gs| - 1];
      assert gs == front + [g];
      DeclareGlobalsSnoc(EMPTY, front, g);
      GlobalsSlots(front);
      var c := DeclareGlobals(EMPTY, front).value;
      forall j | 0 <= j < |gs| - 1
        ensures gs[j].name != g.name && gs[j] == front[j]
      {
        assert front[j].name in c.globals;
      }
    }
  }

  /** The store's globals are the bank's, slot by slot. */
  lemma {:induction false} GlobalValuesAt(gs: seq<GlobalVar>, bank: seq<Value>, j: nat)
    requires |gs| == |bank| && j < |gs|
    requires forall i :: j < i < |gs| ==> gs[i].name != gs[j].name
    ensures gs[j].name in GlobalValues(gs, bank) && GlobalValues(gs, bank)[gs[j].name] == bank[j]
    decreases |gs|
  {
    if j < |gs| - 1 {
      GlobalValuesAt(gs[..|gs| - 1], bank[..|gs| - 1], j);
    }
  }

  // ----- handlers -----

  /** `d` is a later unit of the same compilation: code, pools and entries only grew. */
  ghost predicate Later(c: Unit, d: Unit) {
    && c.code <= d.code && c.constants <= d.constants && c.hostNames <= d.hostNames && c.events <= d.events
    && c.globals == d.globals && c.globalDefaults == d.globalDefaults
  }

  /** The pieces of one compiled handler. */
  datatype Handler = Handler(start: Unit, bound: Unit, end: Unit)

  ghost predicate IsHandler(x: Handler, h: EventHandler, types: seq<ValueType>) {
    && LookupEvent(h.name) == Some(types) && |h.params| == |types|
    && FindEvent(x.start.events, h.name).None?
    && BindParams(x.start.(locals := map[], localCount := 0), h.name, h.params, types, 0) == Ok(x.bound)
    && CompileBlock(x.bound, h.body) == Ok(x.end)
  }

  function Closed(x: Handler, h: EventHandler, types: seq<ValueType>): Unit {
    Emit(x.end, Halt, 0, 0).(events := x.end.events + [EventEntry(h.name, |x.start.code|, types, x.end.localCount)])
  }

  lemma EventPieces(c: Unit, h: EventHandler) returns (x: Handler, types: seq<ValueType>)
    requires CompileEvent(c, h).Ok?
    ensures x.start == c && IsHandler(x, h, types) && CompileEvent(c, h) == Ok(Closed(x, h, types))
    ensures Later(c, Closed(x, h, types)) && |x.bound.code| == |c.code| && Later(c, x.bound)
  {
    hide CompileBlock, BindParams;
    types := LookupEvent(h.name).value;
    var c0 := c.(locals := map[], localCount := 0);
    var c1 := BindParams(c0, h.name, h.params, types, 0).value;
    x := Handler(c, c1, CompileBlock(c1, h.body).value);
    BindParamsKeeps(c0, h.name, h.params, types, 0);
    assert Extends(x.bound, x.end);
  }

  /** The i-th handler's pieces, with the finished unit extending them. */
  lemma {:induction false} HandlerPieces(c: Unit, hs: seq<EventHandler>, i: nat) returns (x: Handler, types: seq<ValueType>)
    requires CompileEvents(c, hs).Ok? && i < |hs|
    ensures IsHandler(x, hs[i], types) && Later(c, x.start)
    ensures Later(Closed(x, hs[i], types), CompileEvents(c, hs).value)
    decreases i
  {
    hide CompileEvent, IsHandler;
    var c1 := CompileEvent(c, hs[0]).value;
    if i == 0 {
      x, types := EventPieces(c, hs[0]);
      EventsLater(c1, hs[1..]);
    } else {
      var y, ts := EventPieces(c, hs[0]);
      x, types := HandlerPieces(c1, hs[1..], i - 1);
    }
  }

  lemma {:induction false} EventsLater(c: Unit, hs: seq<EventHandler>)
    requires CompileEvents(c, hs).Ok?
    ensures Later(c, CompileEvents(c, hs).value)
    decreases |hs|
  {
    hide CompileEvent;
    if hs != [] {
      var x, types := EventPieces(c, hs[0]);
      EventsLater(CompileEvent(c, hs[0]).value, hs[1..]);
    }
  }

  lemma {:induction false} FindAppended(before: seq<EventEntry>, entry: EventEntry, after: seq<EventEntry>)
    requires FindEvent(before, entry.name).None?
    ensures FindEvent(before + [entry] + after, entry.name) == Some(entry)
    decreases |before|
  {
    if before != [] {
      FindAppended(before[1..], entry, after);
      assert (before + [entry] + after)[1..] == before[1..] + [entry] + after;
    }
  }

  /** Dispatch finds the handler's own entry. */
  lemma EntryFound(x: Handler, h: EventHandler, types: seq<ValueType>, d: Unit)
    requires IsHandler(x, h, types) && Later(Closed(x, h, types), d) && x.end.events == x.start.events
    ensures FindEvent(d.events, h.name) == Some(EventEntry(h.name, |x.start.code|, types, x.end.localCount))
  {
    var entry := EventEntry(h.name, |x.start.code|, types, x.end.localCount);
    var mine := Closed(x, h, types).events;
    FindAppended(x.start.events, entry, d.events[|mine|..]);
    assert d.events == x.start.events + [entry] + d.events[|mine|..];
  }

  function LayoutOf(c: Unit): Layout {
    Layout(c.locals, c.globals, c.localCount, |c.globalDefaults|)
  }

  /** The parameters are the first slots of the scope the body is compiled in. */
  lemma BoundScope(x: Handler, h: EventHandler, types: seq<ValueType>)
    requires IsHandler(x, h, types) && SlotsOk(x.start.globals, Global, |x.start.globalDefaults|)
    ensures |h.params| <= 1 && x.bound.localCount == |h.params|
    ensures forall j :: 0 <= j < |types| ==> h.params[j].ty == types[j]
    ensures x.bound.locals == if h.params == [] then map[] else map[h.params[0].name := Symbol(Local, 0, h.params[0].ty)]
    ensures WellScoped(x.bound) && x.bound.events == x.start.events
    ensures EnvOf(x.bound) == Env(ParamTypes(h.params), EnvOf(x.start).globals)
    ensures x.bound.code == x.start.code && x.bound.globals == x.start.globals && x.bound.globalDefaults == x.start.globalDefaults
  {
    var c0 := x.start.(locals := map[], localCount := 0);
    BindParamsKeeps(c0, h.name, h.params, types, 0);
    BindParamsTypes(c0, h.name, h.params, types);
    if h.params != [] {
      assert x.bound == BindParams(c0.(localCount := 1, locals := map[h.params[0].name := Symbol(Local, 0, h.params[0].ty)]),
                                   h.name, h.params, types, 1).value;
    }
  }

  /** Every declared global's slot holds the value the evaluator starts from. */
  lemma GlobalsMatch(c: Unit, gs: seq<GlobalVar>, values: seq<Value>, n: Bytes)
    requires GlobalsInOrder(c, gs) && SlotsOk(c.globals, Global, |gs|) && |values| == |gs| && n in c.globals
    ensures n in GlobalValues(gs, values) && values[c.globals[n].slot] == GlobalValues(gs, values)[n]
  {
    var j :| 0 <= j < |gs| && gs[j].name == n;
    forall i | j < i < |gs|
      ensures gs[i].name != gs[j].name
    {
      assert c.globals[gs[i].name].slot == i;
    }
    GlobalValuesAt(gs, values, j);
  }

  /** A dispatched machine starts out holding the handler's arguments and the globals. */
  lemma DispatchMatches(p: Program, x: Handler, h: EventHandler, types: seq<ValueType>, gs: seq<GlobalVar>,
                        args: seq<Value>, v0: VmState, v: VmState)
    requires IsHandler(x, h, types) && GlobalsInOrder(x.start, gs) && SlotsOk(x.start.globals, Global, |gs|)
    requires |args| == |types| <= x.end.localCount && |v0.globals| == |gs|
    requires Extends(x.bound, x.end) && LayoutOk(LayoutOf(x.end))
    requires v == v0.(locals := InitialLocals(x.end.localCount, args), stack := [], ip := |x.start.code|, finished := false, error := None)
    ensures Matches(v, Store(ParamValues(h.params, args), GlobalValues(gs, v0.globals), v0.trace), LayoutOf(x.end))
  {
    hide CompileBlock;
    BoundScope(x, h, types);
    var st := Store(ParamValues(h.params, args), GlobalValues(gs, v0.globals), v0.trace);
    var lay := LayoutOf(x.end);
    forall n | n in lay.locals
      ensures v.locals[lay.locals[n].slot] == LocalValue(st, n)
    {
      if h.params != [] {
        assert ParamValues(h.params[..0], args[..0]) == map[];
        assert lay.locals[h.params[0].name].slot == 0;
      }
    }
    forall n | n in lay.globals
      ensures n in st.globals && v.globals[lay.globals[n].slot] == st.globals[n]
    {
      GlobalsMatch(x.start, gs, v0.globals, n);
    }
  }

  // ----- the theorem -----

  /** The machine's globals and host calls are the store's. */
  ghost predicate Agrees(v: VmState, st: Store, gs: seq<GlobalVar>) {
    && v.trace == st.trace && |v.globals| == |gs|
    && forall j :: 0 <= j < |gs| ==> gs[j].name in st.globals && v.globals[j] == st.globals[gs[j].name]
  }

  /** The state an outcome of the evaluator stands for. */
  ghost predicate Reached(s: VmState, o: Outcome, gs: seq<GlobalVar>) {
    match o
    case Normal(st) => s.finished && s.error == None && s.stack == [] && Agrees(s, st, gs)
    case Faulted(st) => s.finished && s.error.Some? && Agrees(s, st, gs)
    case OutOfFuel(st) => !s.finished && s.error == None && Agrees(s, st, gs)
  }

  function StatusOf(o: Outcome): RunStatus {
    match o
    case Normal(_) => Finished
    case Faulted(_) => Error
    case OutOfFuel(_) => Yielded
  }

  /** A run of `k` instructions reports what the evaluator found within its fuel. */
  ghost predicate Observes(r: RunResult, o: Outcome, gs: seq<GlobalVar>, fuel: nat, k: nat) {
    r.status == StatusOf(o) && Reached(r.state, o, gs) && (o.OutOfFuel? ==> k >= fuel)
  }

  lemma RunHalt(p: Program, host: Option<Host>, v: VmState)
    requires v.ip < |p.code| && !v.finished && p.code[v.ip].op == Halt
    ensures Run(p, host, v, 1) == RunResult(v.(ip := v.ip + 1, finished := true, total := v.total + 1), Finished)
  {
    hide StepLoad, StepStore, StepIntegerOp, StepConcat, StepCast, StepBranch, StepCall, Run;
    RunOne(p, host, v, p.code[v.ip]);
  }

  /** The body's code runs as its evaluation, and the Halt after it ends the handler. */
  lemma HandlerRuns(p: Program, host: Option<Host>, x: Handler, h: EventHandler, types: seq<ValueType>,
                    gs: seq<GlobalVar>, st: Store, v: VmState, fuel: nat) returns (k: nat)
    requires IsHandler(x, h, types) && Silent(host) && GlobalsInOrder(x.end, gs)
    requires Within(p, x.bound, x.end) && |x.end.code| < |p.code| && p.code[|x.end.code|] == Instruction(Halt, 0, 0)
    requires Matches(v, st, LayoutOf(x.end)) && v.ip == |x.bound.code| && v.stack == []
    ensures Observes(Run(p, host, v, k), ExecBlock(EnvOf(x.bound), h.body, st, fuel), gs, fuel, k)
  {
    hide Run, CompileBlock;
    k := BlockRuns(p, host, LayoutOf(x.end), x.bound, h.body, st, v, fuel);
    RunCount(p, host, v, k);
    var o := ExecBlock(EnvOf(x.bound), h.body, st, fuel);
    if o.Normal? {
      var v1 := Run(p, host, v, k).state;
      assert Matches(v1, o.store, LayoutOf(x.end));
      RunHalt(p, host, v1);
      Chain(p, host, v, k, 1);
      k := k + 1;
    }
  }

  lemma {:induction false} EventsCover(c: Unit, hs: seq<EventHandler>)
    requires CompileEvents(c, hs).Ok? && SlotsOk(c.globals, Global, |c.globalDefaults|)
    requires forall e :: e in c.events ==> |e.paramTypes| <= e.localCount
    ensures forall e :: e in CompileEvents(c, hs).value.events ==> |e.paramTypes| <= e.localCount
    decreases |hs|
  {
    hide CompileEvent, CompileBlock;
    if hs != [] {
      var x, types := EventPieces(c, hs[0]);
      BoundScope(x, hs[0], types);
      assert Extends(x.bound, x.end);
      EventsCover(CompileEvent(c, hs[0]).value, hs[1..]);
    }
  }

  /** Everything the theorems need to know about the i-th handler of a compiled script. */
  lemma ScriptHandler(script: Script, p: Program, i: nat) returns (x: Handler, types: seq<ValueType>)
    requires CompileScript(script) == Ok(p) && i < |script.events|
    ensures var h := script.events[i];
      && IsHandler(x, h, types) && (forall j :: 0 <= j < |types| ==> h.params[j].ty == types[j])
      && GlobalsInOrder(x.start, script.globals) && GlobalsInOrder(x.end, script.globals)
      && SlotsOk(x.start.globals, Global, |script.globals|)
      && Extends(x.bound, x.end) && LayoutOk(LayoutOf(x.end)) && |types| <= x.end.localCount
      && x.bound.code == x.start.code && EnvOf(x.bound) == HandlerEnv(script, h)
      && Within(p, x.bound, x.end) && |x.end.code| < |p.code| && p.code[|x.end.code|] == Instruction(Halt, 0, 0)
      && FindEvent(p.events, h.name) == Some(EventEntry(h.name, |x.start.code|, types, x.end.localCount))
      && |p.globalDefaults| == |script.globals| && SlotsCoverParameters(p)
  {
    hide CompileEvents, DeclareGlobals, CompileBlock, BindParams;
    var h := script.events[i];
    var c := DeclareGlobals(EMPTY, script.globals).value;
    var d := CompileEvents(c, script.events).value;
    GlobalsSlots(script.globals);
    GlobalsTypes(script.globals);
    x, types := HandlerPieces(c, script.events, i);
    BoundScope(x, h, types);
    BlockScopes(x.bound, h.body);
    assert Extends(x.bound, x.end);
    EntryFound(x, h, types, d);
    EventsCover(c, script.events);
    assert Closed(x, h, types).code[|x.end.code|] == Instruction(Halt, 0, 0);
    assert EnvOf(x.start).globals == EnvOf(c).globals;
    hide GlobalTypes, ParamTypes;
  }

  /** For every accepted script, handler, well-typed arguments, state of the globals and
      evaluation depth, the dispatched bytecode reaches what the evaluator reaches: the same
      end with the same globals and host calls, the same type fault, or no end yet. */
  lemma CompilerCorrect(script: Script, p: Program, host: Option<Host>, i: nat, args: seq<Value>, v0: VmState, fuel: nat)
      returns (k: nat)
    requires CompileScript(script) == Ok(p) && Silent(host) && i < |script.events|
    requires |v0.globals| == |p.globalDefaults| && WellTypedArguments(script.events[i], args)
    ensures SlotsCoverParameters(p) && Dispatch(p, v0, script.events[i].name, args).Ok?
    ensures |script.globals| == |v0.globals|
    ensures Observes(
      Run(p, host, Dispatch(p, v0, script.events[i].name, args).value, k),
      ExecHandler(script, script.events[i], args, GlobalValues(script.globals, v0.globals), v0.trace, fuel),
      script.globals, fuel, k)
  {
    hide Run, CompileScript, Observes, Within, IsHandler, LayoutOk, GlobalsInOrder, ExecBlock, Extends;
    var h := script.events[i];
    var x, types := ScriptHandler(script, p, i);
    assert |h.params| == |types| by { HandlerArity(x, h, types); }
    var v := Dispatch(p, v0, h.name, args).value;
    DispatchMatches(p, x, h, types, script.globals, args, v0, v);
    var st := Store(ParamValues(h.params, args), GlobalValues(script.globals, v0.globals), v0.trace);
    k := HandlerRuns(p, host, x, h, types, script.globals, st, v, fuel);
  }

  lemma HandlerArity(x: Handler, h: EventHandler, types: seq<ValueType>)
    requires IsHandler(x, h, types)
    ensures |h.params| == |types|
  {
  }

  ghost predicate WellTypedArguments(h: EventHandler, args: seq<Value>) {
    |args| == |h.params| && forall j :: 0 <= j < |args| ==> TypeOf(args[j]) == h.params[j].ty
  }

  /** Whatever budget the machine has stopped within, it then holds what the evaluator leaves. */
  lemma StoppedMeansEvaluated(script: Script, p: Program, host: Option<Host>, i: nat, args: seq<Value>, v0: VmState, n: nat)
    requires CompileScript(script) == Ok(p) && Silent(host) && i < |script.events|
    requires |v0.globals| == |p.globalDefaults| && WellTypedArguments(script.events[i], args)
    ensures SlotsCoverParameters(p) && Dispatch(p, v0, script.events[i].name, args).Ok?
    ensures |script.globals| == |v0.globals|
    ensures var v := Dispatch(p, v0, script.events[i].name, args).value;
      var o := ExecHandler(script, script.events[i], args, GlobalValues(script.globals, v0.globals), v0.trace, n + 1);
      Run(p, host, v, n).state.finished ==> !o.OutOfFuel? && Reached(Run(p, host, v, n).state, o, script.globals)
  {
    hide Run, CompileScript, ExecHandler, Dispatch, Agrees, GlobalValues, SlotsCoverParameters, Silent, WellTypedArguments;
    var k := CompilerCorrect(script, p, host, i, args, v0, n + 1);
    var v := Dispatch(p, v0, script.events[i].name, args).value;
    StoppedStays(p, host, v, n, k);
    StoppedStays(p, host, v, k, n);
  }

  /** Whether or not the handler ever stops, the host calls made so far are the first of those
      the evaluator makes, in its order. */
  lemma CallsAreTheSources(script: Script, p: Program, host: Option<Host>, i: nat, args: seq<Value>, v0: VmState, n: nat)
    requires CompileScript(script) == Ok(p) && Silent(host) && i < |script.events|
    requires |v0.globals| == |p.globalDefaults| && WellTypedArguments(script.events[i], args)
    ensures SlotsCoverParameters(p) && Dispatch(p, v0, script.events[i].name, args).Ok?
    ensures |script.globals| == |v0.globals|
    ensures var v := Dispatch(p, v0, script.events[i].name, args).value;
      var o := ExecHandler(script, script.events[i], args, GlobalValues(script.globals, v0.globals), v0.trace, n + 1);
      Run(p, host, v, n).state.trace <= o.store.trace
  {
    hide Run, CompileScript, ExecHandler, Dispatch, GlobalValues, SlotsCoverParameters, Silent, WellTypedArguments;
    var k := CompilerCorrect(script, p, host, i, args, v0, n + 1);
    var v := Dispatch(p, v0, script.events[i].name, args).value;
    if n <= k {
      RunSplit(p, host, v, n, k - n);
      RunKeeps(p, host, Run(p, host, v, n).state, k - n);
    } else {
      StoppedStays(p, host, v, k, n);
    }
  }

  /** The handler stops on the machine exactly when the evaluator terminates. */
  lemma HaltsIffEvaluationTerminates(script: Script, p: Program, host: Option<Host>, i: nat, args: seq<Value>, v0: VmState)
    requires CompileScript(script) == Ok(p) && Silent(host) && i < |script.events|
    requires |v0.globals| == |p.globalDefaults| && WellTypedArguments(script.events[i], args)
    requires SlotsCoverParameters(p) && Dispatch(p, v0, script.events[i].name, args).Ok?
    requires |script.globals| == |v0.globals|
    ensures var h := script.events[i];
      var v := Dispatch(p, v0, h.name, args).value;
      var globals := GlobalValues(script.globals, v0.globals);
      (exists n: nat :: Run(p, host, v, n).state.finished)
      <==> exists fuel: nat :: !ExecHandler(script, h, args, globals, v0.trace, fuel).OutOfFuel?
  {
    hide Run, CompileScript, ExecHandler, Dispatch, Agrees, GlobalValues, SlotsCoverParameters, Silent;
    var h := script.events[i];
    var v := Dispatch(p, v0, h.name, args).value;
    var globals := GlobalValues(script.globals, v0.globals);
    if n: nat :| Run(p, host, v, n).state.finished {
      StoppedMeansEvaluated(script, p, host, i, args, v0, n);
      assert !ExecHandler(script, h, args, globals, v0.trace, n + 1).OutOfFuel?;
    }
    if fuel: nat :| !ExecHandler(script, h, args, globals, v0.trace, fuel).OutOfFuel? {
      var k := CompilerCorrect(script, p, host, i, args, v0, fuel);
      assert Run(p, host, v, k).state.finished;
    }
  }

  /** Once stopped, every longer run ends in the same state. */
  lemma StoppedStays(p: Program, host: Option<Host>, v: VmState, n: nat, m: nat)
    ensures Run(p, host, v, n).state.finished && n <= m ==> Run(p, host, v, m).state == Run(p, host, v, n).state
  {
    if n <= m {
      RunSplit(p, host, v, n, m - n);
    }
  }
}
