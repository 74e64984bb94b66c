/** When no handler faults, and why some do. */
module TypeSoundness {
  import opened Prelude
  import opened Bytecode
  import opened Ast
  import opened Vm
  import opened Compiler
  import opened Evaluator
  import opened Typing
  import opened Simulation
  import opened Correctness
  import Safety

  // ----- the analysis -----

  /** Every string local the expression reads is among the `ready` names. An integer local
      needs no declaration: the zero it starts with already has its type. */
  predicate ExprReady(env: Env, e: Expr, ready: set<Bytes>)
    decreases e, 1
  {
    match e
    case IntLiteral(_) => true
    case StringLiteral(_) => true
    case VarRef(name) => name in env.locals && env.locals[name] == Text ==> name in ready
    case Cast(_, operand) => ExprReady(env, operand, ready)
    case Binary(_, lhs, rhs) => ExprReady(env, lhs, ready) && ExprReady(env, rhs, ready)
    case Call(_, args) => ArgsReady(env, args, ready)
  }

  predicate ArgsReady(env: Env, args: seq<Expr>, ready: set<Bytes>)
    decreases args, 0
  {
    args == [] || (ExprReady(env, args[0], ready) && ArgsReady(env, args[1..], ready))
  }

  predicate InitReady(env: Env, init: Option<Expr>, ready: set<Bytes>) {
    init.Some? ==> ExprReady(env, init.value, ready)
  }

  /** The names ready after a statement, on every path through it. */
  function ReadyAfter(env: Env, s: Stmt, ready: set<Bytes>): set<Bytes>
    decreases s, 1
  {
    match s
    case Block(statements) => ReadyAfterBlock(env, statements, ready)
    case VarDecl(_, name, _) => ready + {name}
    case Assign(name, _) => if name in env.locals then ready + {name} else ready
    case ExprStmt(_) => ready
    case While(_, _) => ready
    case If(_, thenBranch, elseBranch) =>
      match elseBranch
      case NoElse => ready
      case Else(body) =>
        ReadyAfterBlock(env, thenBranch, ready) * ReadyAfterBlock(AfterBlock(env, thenBranch), body, ready)
  }

  function ReadyAfterBlock(env: Env, ss: seq<Stmt>, ready: set<Bytes>): set<Bytes>
    decreases ss, 0
  {
    if ss == [] then ready else ReadyAfterBlock(After(env, ss[0]), ss[1..], ReadyAfter(env, ss[0], ready))
  }

  /** Every read in the statement finds its local ready. */
  predicate StmtReady(env: Env, s: Stmt, ready: set<Bytes>)
    decreases s, 1
  {
    match s
    case Block(statements) => BlockReady(env, statements, ready)
    case VarDecl(_, _, init) => InitReady(env, init, ready)
    case Assign(_, value) => ExprReady(env, value, ready)
    case ExprStmt(expr) => ExprReady(env, expr, ready)
    case While(condition, body) => ExprReady(env, condition, ready) && BlockReady(env, body, ready)
    case If(condition, thenBranch, elseBranch) =>
      && ExprReady(env, condition, ready) && BlockReady(env, thenBranch, ready)
      && (elseBranch.Else? ==> BlockReady(AfterBlock(env, thenBranch), elseBranch.body, ready))
  }

  predicate BlockReady(env: Env, ss: seq<Stmt>, ready: set<Bytes>)
    decreases ss, 0
  {
    ss == [] ||
    (StmtReady(env, ss[0], ready) && BlockReady(After(env, ss[0]), ss[1..], ReadyAfter(env, ss[0], ready)))
  }

  predicate DeclaredBeforeRead(script: Script, h: EventHandler) {
    BlockReady(HandlerEnv(script, h), h.body, ParamTypes(h.params).Keys)
  }

  // ----- soundness -----

  ghost predicate SubScope(env: Env, whole: Env) {
    && env.globals == whole.globals
    && forall n :: n in env.locals ==> n in whole.locals && whole.locals[n] == env.locals[n]
  }

  /** Integers hold integers, ready strings hold strings, and globals hold their own type. */
  ghost predicate Sound(whole: Env, ready: set<Bytes>, st: Store) {
    && (forall n :: n in whole.locals && whole.locals[n] == Integer ==> LocalValue(st, n).Int?)
    && (forall n :: n in whole.locals && whole.locals[n] == Text && n in ready ==> LocalValue(st, n).Str?)
    && (forall n :: n in whole.globals ==> n in st.globals && TypeOf(st.globals[n]) == whole.globals[n])
  }

  /** A call the runtime can act on: a known function, its arguments of that function's types. */
  predicate CallTyped(call: HostCall) {
    LookupHost(call.name).Some? && HasTypes(call.args, LookupHost(call.name).value.params)
  }

  predicate HasTypes(vs: seq<Value>, types: seq<ValueType>) {
    |vs| == |types| && forall i :: 0 <= i < |vs| ==> TypeOf(vs[i]) == types[i]
  }

  predicate CallsTyped(trace: seq<HostCall>) {
    forall call :: call in trace ==> CallTyped(call)
  }

  /** A ready, well-typed expression evaluates to a value of its type. */
  lemma {:induction false} ExprSound(env: Env, whole: Env, e: Expr, ready: set<Bytes>, st: Store)
    requires SubScope(env, whole) && Sound(whole, ready, st) && ExprReady(env, e, ready)
    requires TypeExpr(env, e).Ok? && TypeExpr(env, e).value != Void
    ensures EvalExpr(env, e, st).Some? && TypeOf(EvalExpr(env, e, st).value) == TypeExpr(env, e).value
    decreases e
  {
    match e
    case Cast(_, operand) => ExprSound(env, whole, operand, ready, st);
    case Binary(_, lhs, rhs) =>
      ExprSound(env, whole, lhs, ready, st);
      ExprSound(env, whole, rhs, ready, st);
    case _ =>
  }

  lemma {:induction false} ArgsSound(env: Env, whole: Env, callee: Bytes, args: seq<Expr>, types: seq<ValueType>,
                                     position: nat, ready: set<Bytes>, st: Store)
    requires SubScope(env, whole) && Sound(whole, ready, st) && ArgsReady(env, args, ready)
    requires |args| == |types| && TypeArgs(env, callee, args, types, position).Ok?
    ensures EvalArgs(env, args, st).Some? && HasTypes(EvalArgs(env, args, st).value, types)
    decreases args
  {
    if args != [] {
      ExprSound(env, whole, args[0], ready, st);
      ArgsSound(env, whole, callee, args[1..], types[1..], position + 1, ready, st);
    }
  }

  /** From `st0` on nothing faulted, and every further call was typed. */
  ghost predicate SoundOutcome(whole: Env, ready: set<Bytes>, st0: Store, o: Outcome) {
    && !o.Faulted? && (o.Normal? ==> Sound(whole, ready, o.store))
    && (CallsTyped(st0.trace) ==> CallsTyped(o.store.trace))
  }

  lemma Fewer(whole: Env, more: set<Bytes>, ready: set<Bytes>, st0: Store, o: Outcome)
    requires SoundOutcome(whole, more, st0, o)
    ensures ready <= more ==> SoundOutcome(whole, ready, st0, o)
  {
  }

  /** Scopes only grow, so what a name means never changes. */
  lemma {:induction false} ScopeGrows(env: Env, s: Stmt)
    requires TypeStmt(env, s).Ok?
    ensures SubScope(env, After(env, s))
    decreases s, 1
  {
    TypedAfter(env, s);
    match s
    case Block(statements) => ScopeGrowsBlock(env, statements);
    case While(_, body) => ScopeGrowsBlock(env, body);
    case If(_, thenBranch, elseBranch) =>
      TypedAfterBlock(env, thenBranch);
      ScopeGrowsBlock(env, thenBranch);
      if elseBranch.Else? {
        ScopeGrowsBlock(AfterBlock(env, thenBranch), elseBranch.body);
      }
    case _ =>
  }

  lemma {:induction false} ScopeGrowsBlock(env: Env, ss: seq<Stmt>)
    requires TypeBlock(env, ss).Ok?
    ensures SubScope(env, AfterBlock(env, ss))
    decreases ss, 0
  {
    if ss != [] {
      TypedAfter(env, ss[0]);
      ScopeGrows(env, ss[0]);
      ScopeGrowsBlock(After(env, ss[0]), ss[1..]);
    }
  }

  lemma {:induction false} ReadyGrows(env: Env, s: Stmt, ready: set<Bytes>)
    ensures ready <= ReadyAfter(env, s, ready)
    decreases s, 1
  {
    match s
    case Block(statements) => ReadyGrowsBlock(env, statements, ready);
    case If(_, thenBranch, Else(body)) =>
      ReadyGrowsBlock(env, thenBranch, ready);
      ReadyGrowsBlock(AfterBlock(env, thenBranch), body, ready);
    case _ =>
  }

  lemma {:induction false} ReadyGrowsBlock(env: Env, ss: seq<Stmt>, ready: set<Bytes>)
    ensures ready <= ReadyAfterBlock(env, ss, ready)
    decreases ss, 0
  {
    if ss != [] {
      ReadyGrows(env, ss[0], ready);
      ReadyGrowsBlock(After(env, ss[0]), ss[1..], ReadyAfter(env, ss[0], ready));
    }
  }

  /** A ready, well-typed statement never faults, and leaves a sound store. */
  lemma {:induction false} StmtSound(env: Env, whole: Env, s: Stmt, ready: set<Bytes>, st: Store, fuel: nat)
    requires TypeStmt(env, s).Ok? && SubScope(After(env, s), whole)
    requires StmtReady(env, s, ready) && Sound(whole, ready, st)
    ensures SoundOutcome(whole, ReadyAfter(env, s, ready), st, ExecStmt(env, s, st, fuel))
    decreases fuel, s, 1
  {
    ScopeGrows(env, s);
    match s {
      case Block(statements) => BlockSound(env, whole, statements, ready, st, fuel);
      case VarDecl(ty, name, init) => DeclarationSound(env, whole, s, ready, st, fuel);
      case Assign(name, value) => AssignSound(env, whole, s, ready, st, fuel);
      case ExprStmt(expr) =>
        if expr.Call? {
          CallSound(env, whole, expr, ready, st);
        } else {
          ExprSound(env, whole, expr, ready, st);
        }
      case While(_, _) => WhileSound(env, whole, s, ready, st, fuel);
      case If(_, _, _) => IfSound(env, whole, s, ready, st, fuel);
    }
  }

  lemma CallSound(env: Env, whole: Env, e: Expr, ready: set<Bytes>, st: Store)
    requires e.Call? && TypeExpr(env, e).Ok? && SubScope(env, whole)
    requires ExprReady(env, e, ready) && Sound(whole, ready, st)
    ensures SoundOutcome(whole, ready, st, ExecExprStmt(env, e, st))
  {
    hide Sound, SubScope, HasTypes, EvalArgs, TypeArgs, ArgsReady;
    ArgsSound(env, whole, e.callee, e.args, LookupHost(e.callee).value.params, 0, ready, st);
    var made := HostCall(e.callee, EvalArgs(env, e.args, st).value);
    assert CallTyped(made);
    SoundIgnoresCalls(whole, ready, st, st.trace + [made]);
  }

  lemma SoundIgnoresCalls(whole: Env, ready: set<Bytes>, st: Store, trace: seq<HostCall>)
    requires Sound(whole, ready, st)
    ensures Sound(whole, ready, st.(trace := trace))
  {
  }

  lemma DeclarationSound(env: Env, whole: Env, s: Stmt, ready: set<Bytes>, st: Store, fuel: nat)
    requires s.VarDecl? && TypeStmt(env, s).Ok? && SubScope(After(env, s), whole) && SubScope(env, whole)
    requires StmtReady(env, s, ready) && Sound(whole, ready, st)
    ensures SoundOutcome(whole, ready + {s.name}, st, ExecStmt(env, s, st, fuel))
  {
    hide EvalExpr, TypeExpr, ExprReady, Sound;
    if s.init.Some? {
      ExprSound(env, whole, s.init.value, ready, st);
    }
    assert After(env, s).locals[s.name] == s.ty;
    var x := InitialValue(env, s.ty, s.init, st);
    assert x.Some? && TypeOf(x.value) == s.ty;
    LocalWritten(whole, ready, st, s.name, x.value);
  }

  /** Writing a local with a value of its type makes it ready. */
  lemma LocalWritten(whole: Env, ready: set<Bytes>, st: Store, name: Bytes, x: Value)
    requires Sound(whole, ready, st) && name in whole.locals && TypeOf(x) == whole.locals[name]
    ensures Sound(whole, ready + {name}, st.(locals := st.locals[name := x]))
  {
  }

  lemma AssignSound(env: Env, whole: Env, s: Stmt, ready: set<Bytes>, st: Store, fuel: nat)
    requires s.Assign? && TypeStmt(env, s).Ok? && SubScope(env, whole)
    requires StmtReady(env, s, ready) && Sound(whole, ready, st)
    ensures SoundOutcome(whole, ReadyAfter(env, s, ready), st, ExecStmt(env, s, st, fuel))
  {
    hide EvalExpr, TypeExpr, ExprReady;
    ExprSound(env, whole, s.value, ready, st);
    if s.name in env.locals {
      hide Sound;
      LocalWritten(whole, ready, st, s.name, EvalExpr(env, s.value, st).value);
    }
  }

  lemma {:induction false} BlockSound(env: Env, whole: Env, ss: seq<Stmt>, ready: set<Bytes>, st: Store, fuel: nat)
    requires TypeBlock(env, ss).Ok? && SubScope(AfterBlock(env, ss), whole)
    requires BlockReady(env, ss, ready) && Sound(whole, ready, st)
    ensures SoundOutcome(whole, ReadyAfterBlock(env, ss, ready), st, ExecBlock(env, ss, st, fuel))
    decreases fuel, ss, 0
  {
    hide TypeStmt, After, StmtReady, ReadyAfter, ExecStmt, Sound;
    if ss != [] {
      TypedAfter(env, ss[0]);
      ScopeGrowsBlock(After(env, ss[0]), ss[1..]);
      StmtSound(env, whole, ss[0], ready, st, fuel);
      var o := ExecStmt(env, ss[0], st, fuel);
      if o.Normal? {
        BlockSound(After(env, ss[0]), whole, ss[1..], ReadyAfter(env, ss[0], ready), o.store, fuel);
      }
    }
  }

  lemma {:induction false} WhileSound(env: Env, whole: Env, s: Stmt, ready: set<Bytes>, st: Store, fuel: nat)
    requires s.While? && TypeStmt(env, s).Ok? && SubScope(After(env, s), whole) && SubScope(env, whole)
    requires StmtReady(env, s, ready) && Sound(whole, ready, st)
    ensures SoundOutcome(whole, ready, st, ExecStmt(env, s, st, fuel))
    decreases fuel, s, 0
  {
    hide TypeBlock, BlockReady, ExecBlock, ExprReady, EvalExpr, TypeExpr;
    if fuel > 0 {
      ExprSound(env, whole, s.condition, ready, st);
      BlockSound(env, whole, s.body, ready, st, fuel - 1);
      ReadyGrowsBlock(env, s.body, ready);
      var o := ExecBlock(env, s.body, st, fuel - 1);
      Fewer(whole, ReadyAfterBlock(env, s.body, ready), ready, st, o);
      if o.Normal? {
        WhileSound(env, whole, s, ready, o.store, fuel - 1);
      }
    }
  }

  lemma {:induction false} IfSound(env: Env, whole: Env, s: Stmt, ready: set<Bytes>, st: Store, fuel: nat)
    requires s.If? && TypeStmt(env, s).Ok? && SubScope(After(env, s), whole) && SubScope(env, whole)
    requires StmtReady(env, s, ready) && Sound(whole, ready, st)
    ensures SoundOutcome(whole, ReadyAfter(env, s, ready), st, ExecStmt(env, s, st, fuel))
    decreases fuel, s, 0
  {
    hide TypeBlock, BlockReady, ExecBlock, ExprReady, EvalExpr, TypeExpr, AfterBlock;
    var env1 := AfterBlock(env, s.thenBranch);
    ExprSound(env, whole, s.condition, ready, st);
    TypedAfterBlock(env, s.thenBranch);
    if s.elseBranch.Else? {
      ScopeGrowsBlock(env1, s.elseBranch.body);
      BlockSound(env1, whole, s.elseBranch.body, ready, st, fuel);
      Fewer(whole, ReadyAfterBlock(env1, s.elseBranch.body, ready), ReadyAfter(env, s, ready), st,
             ExecBlock(env1, s.elseBranch.body, st, fuel));
    }
    BlockSound(env, whole, s.thenBranch, ready, st, fuel);
    ReadyGrowsBlock(env, s.thenBranch, ready);
    Fewer(whole, ReadyAfterBlock(env, s.thenBranch, ready), ReadyAfter(env, s, ready), st,
           ExecBlock(env, s.thenBranch, st, fuel));
  }

  // ----- whole scripts -----

  ghost predicate GlobalsTyped(script: Script, bank: seq<Value>) {
    |bank| == |script.globals| && forall j :: 0 <= j < |bank| ==> TypeOf(bank[j]) == script.globals[j].ty
  }

  ghost predicate DistinctNames(gs: seq<GlobalVar>) {
    forall i, j :: 0 <= i < j < |gs| ==> gs[i].name != gs[j].name
  }

  lemma {:induction false} GlobalsSound(gs: seq<GlobalVar>, bank: seq<Value>)
    requires |gs| == |bank| && (forall j :: 0 <= j < |gs| ==> TypeOf(bank[j]) == gs[j].ty)
    ensures GlobalTypes(gs).Keys == GlobalValues(gs, bank).Keys
    ensures forall n :: n in GlobalTypes(gs) ==> TypeOf(GlobalValues(gs, bank)[n]) == GlobalTypes(gs)[n]
    decreases |gs|
  {
    if gs != [] {
      GlobalsSound(gs[..|gs| - 1], bank[..|bank| - 1]);
    }
  }

  lemma {:induction false} ParamsSound(params: seq<Param>, args: seq<Value>)
    requires |params| == |args| && (forall j :: 0 <= j < |args| ==> TypeOf(args[j]) == params[j].ty)
    ensures ParamTypes(params).Keys == ParamValues(params, args).Keys
    ensures forall n :: n in ParamTypes(params) ==> TypeOf(ParamValues(params, args)[n]) == ParamTypes(params)[n]
    decreases |params|
  {
    if params != [] {
      ParamsSound(params[..|params| - 1], args[..|args| - 1]);
    }
  }

  /** The evaluator never faults on such a handler, and keeps every global's type. */
  lemma HandlerSound(script: Script, p: Program, i: nat, args: seq<Value>, bank: seq<Value>, trace: seq<HostCall>, fuel: nat)
    requires CompileScript(script) == Ok(p) && i < |script.events|
    requires DeclaredBeforeRead(script, script.events[i]) && WellTypedArguments(script.events[i], args)
    requires GlobalsTyped(script, bank)
    ensures var o := ExecHandler(script, script.events[i], args, GlobalValues(script.globals, bank), trace, fuel);
      && !o.Faulted? && (CallsTyped(trace) ==> CallsTyped(o.store.trace))
      && (o.Normal? ==> forall j :: 0 <= j < |script.globals| ==>
            script.globals[j].name in o.store.globals && TypeOf(o.store.globals[script.globals[j].name]) == script.globals[j].ty)
  {
    hide CompileScript, ExecBlock, BlockReady, AfterBlock, ReadyAfterBlock, TypeBlock;
    var h := script.events[i];
    var env := HandlerEnv(script, h);
    BodyTyped(script, p, i);
    var whole := AfterBlock(env, h.body);
    ScopeGrowsBlock(env, h.body);
    GlobalsSound(script.globals, bank);
    ParamsSound(h.params, args);
    var st := Store(ParamValues(h.params, args), GlobalValues(script.globals, bank), trace);
    assert Sound(whole, ParamTypes(h.params).Keys, st) by { StartSound(env, whole, st); }
    BlockSound(env, whole, h.body, ParamTypes(h.params).Keys, st, fuel);
    forall j | 0 <= j < |script.globals|
      ensures script.globals[j].name in whole.globals && whole.globals[script.globals[j].name] == script.globals[j].ty
    {
      GlobalTypesAt(script.globals, j);
    }
  }

  /** The handler's body is well typed in the handler's scope, and global names are distinct. */
  lemma BodyTyped(script: Script, p: Program, i: nat)
    requires CompileScript(script) == Ok(p) && i < |script.events|
    ensures var env := HandlerEnv(script, script.events[i]);
      TypeBlock(env, script.events[i].body).Ok? && SubScope(env, AfterBlock(env, script.events[i].body))
    ensures DistinctNames(script.globals)
  {
    hide CompileScript, CompileBlock, BindParams, LayoutOk, Within;
    var x, types := ScriptHandler(script, p, i);
    BlockTypes(x.bound, script.events[i].body);
    ScopeGrowsBlock(HandlerEnv(script, script.events[i]), script.events[i].body);
    forall a, b | 0 <= a < b < |script.globals|
      ensures script.globals[a].name != script.globals[b].name
    {
      assert x.start.globals[script.globals[a].name].slot == a;
      assert x.start.globals[script.globals[b].name].slot == b;
    }
  }

  lemma {:induction false} GlobalTypesAt(gs: seq<GlobalVar>, j: nat)
    requires DistinctNames(gs) && j < |gs|
    ensures gs[j].name in GlobalTypes(gs) && GlobalTypes(gs)[gs[j].name] == gs[j].ty
    decreases |gs|
  {
    if j < |gs| - 1 {
      GlobalTypesAt(gs[..|gs| - 1], j);
    }
  }

  /** Arguments and globals of the right types make a sound start: nothing else is ready. */
  lemma StartSound(env: Env, whole: Env, st: Store)
    requires SubScope(env, whole) && st.locals.Keys == env.locals.Keys && st.globals.Keys == env.globals.Keys
    requires forall n :: n in env.locals ==> TypeOf(st.locals[n]) == env.locals[n]
    requires forall n :: n in env.globals ==> TypeOf(st.globals[n]) == env.globals[n]
    ensures Sound(whole, env.locals.Keys, st)
  {
  }

  /** Bytecode of a script that declares before it reads never faults at all, however long it
      runs, makes typed host calls only, whether or not it ever stops, and leaves every global
      with its declared type for the next event. */
  lemma NeverFaults(script: Script, p: Program, host: Option<Host>, i: nat, args: seq<Value>, v0: VmState, n: nat)
    requires CompileScript(script) == Ok(p) && Silent(host) && i < |script.events|
    requires DeclaredBeforeRead(script, script.events[i]) && WellTypedArguments(script.events[i], args)
    requires |p.globalDefaults| == |v0.globals| && GlobalsTyped(script, v0.globals)
    ensures SlotsCoverParameters(p) && Dispatch(p, v0, script.events[i].name, args).Ok?
    ensures var s := Run(p, host, Dispatch(p, v0, script.events[i].name, args).value, n).state;
      && s.error == None && (s.finished ==> GlobalsTyped(script, s.globals))
      && (CallsTyped(v0.trace) ==> CallsTyped(s.trace))
  {
    hide Run, CompileScript, ExecHandler, Dispatch, GlobalValues, SlotsCoverParameters, Silent, WellTypedArguments,
      DeclaredBeforeRead, Safety.SafeHandler;
    StoppedMeansEvaluated(script, p, host, i, args, v0, n);
    CallsAreTheSources(script, p, host, i, args, v0, n);
    HandlerSound(script, p, i, args, v0.globals, v0.trace, n + 1);
    var _, _, _ := Safety.ReachableStatesAreSafe(script, p, host, i, args, v0, n);
  }

  /** The initial globals have their declared types. */
  lemma {:induction false} DefaultsTyped(gs: seq<GlobalVar>)
    requires (forall g :: g in gs ==> g.Valid()) && DeclareGlobals(EMPTY, gs).Ok?
    ensures var bank := DeclareGlobals(EMPTY, gs).value.globalDefaults;
      |bank| == |gs| && forall j :: 0 <= j < |gs| ==> TypeOf(bank[j]) == gs[j].ty
    decreases |gs|
  {
    if gs != [] {
      var front, g := gs[..|gs| - 1], gs[|gs| - 1];
      assert gs == front + [g] && g in gs;
      DeclareGlobalsSnoc(EMPTY, front, g);
      DefaultsTyped(front);
      var c := DeclareGlobals(EMPTY, front).value;
      assert DeclareGlobals(EMPTY, gs) == DeclareGlobal(c, g);
    }
  }

  lemma FreshGlobalsTyped(script: Script, p: Program)
    requires script.Valid() && CompileScript(script) == Ok(p)
    ensures GlobalsTyped(script, Fresh(p).globals)
  {
    hide DeclareGlobals, CompileEvents;
    DefaultsTyped(script.globals);
    EventsLater(DeclareGlobals(EMPTY, script.globals).value, script.events);
  }

  /** What a variable holds that was given nothing: zero, or no text. */
  function Unset(t: ValueType): Value {
    match t
    case Integer => Int(0)
    case Text => Str([])
  }

  lemma {:induction false} DefaultsAre(gs: seq<GlobalVar>)
    requires DeclareGlobals(EMPTY, gs).Ok?
    ensures var bank := DeclareGlobals(EMPTY, gs).value.globalDefaults;
      |bank| == |gs| && forall j :: 0 <= j < |gs| ==>
        bank[j] == match gs[j].init case Some(v) => v case None => Unset(gs[j].ty)
    decreases |gs|
  {
    if gs != [] {
      var front, g := gs[..|gs| - 1], gs[|gs| - 1];
      assert gs == front + [g] && g in gs;
      DeclareGlobalsSnoc(EMPTY, front, g);
      DefaultsAre(front);
      var c := DeclareGlobals(EMPTY, front).value;
      assert DeclareGlobals(EMPTY, gs) == DeclareGlobal(c, g);
    }
  }

  /** A compiled script starts with its globals' literals, and zero or no text where there is none, under
      version 2 of the bytecode. */
  lemma FreshGlobalsMean(script: Script, p: Program)
    requires CompileScript(script) == Ok(p)
    ensures p.abiVersion == 2 && |Fresh(p).globals| == |script.globals|
    ensures forall j :: 0 <= j < |script.globals| ==>
      Fresh(p).globals[j] == match script.globals[j].init case Some(v) => v case None => Unset(script.globals[j].ty)
  {
    hide DeclareGlobals, CompileEvents;
    DefaultsAre(script.globals);
    EventsLater(DeclareGlobals(EMPTY, script.globals).value, script.events);
  }

  /** A local declared with nothing holds zero or no text. */
  lemma DeclaredWithNothing(env: Env, t: ValueType, name: Bytes, st: Store, fuel: nat)
    ensures ExecStmt(env, VarDecl(t, name, None), st, fuel) == Normal(st.(locals := st.locals[name := Unset(t)]))
  {
  }

  // ----- the condition is needed -----

  /** In LSL: state_entry() { if (0) { string s = "a"; } llOwnerSay(text); }, the text reading s.
      The name is in scope after the branch that was not taken, but its slot still holds zero. */
  const SKIPPED_BRANCH: Stmt := If(IntLiteral(0), [VarDecl(Text, "s", Some(StringLiteral("a")))], NoElse)
  const SUM: Expr := Binary(Add, VarRef("s"), VarRef("s"))

  function Skipped(text: Expr): Script {
    Script([], [EventHandler("state_entry", [], [SKIPPED_BRANCH, SkippedRead(text)])])
  }

  function SkippedRead(text: Expr): Stmt {
    ExprStmt(Call("llOwnerSay", [text]))
  }

  /** The scope at the read. */
  const WITH_S: Env := Env(map["s" := Text], map[])

  /** The compiler accepts llOwnerSay(s + s) there and the machine faults: without the condition
      the claim fails. */
  lemma SkippedDeclarationFaults(host: Option<Host>) returns (p: Program, k: nat)
    requires Silent(host)
    ensures CompileScript(Skipped(SUM)) == Ok(p) && !DeclaredBeforeRead(Skipped(SUM), Skipped(SUM).events[0])
    ensures SlotsCoverParameters(p) && Dispatch(p, Fresh(p), "state_entry", []).Ok?
    ensures Run(p, host, Dispatch(p, Fresh(p), "state_entry", []).value, k).status == Error
  {
    var st := Store(map[], map[], []);
    assert TypeExpr(WITH_S, SUM.lhs) == Ok(Text);
    assert EvalExpr(WITH_S, SUM.lhs, st) == Some(Int(0));
    assert !ExprReady(WITH_S, SUM.lhs, {});
    p := SkippedCompiles(SUM);
    SkippedEvaluates(SUM);
    hide CompileScript, ExecHandler, DeclaredBeforeRead, Dispatch, Run, SlotsCoverParameters;
    k := CompilerCorrect(Skipped(SUM), p, host, 0, [], Fresh(p), 0);
  }

  /** With llOwnerSay(s) there the machine does not fault: it hands the host an integer. */
  lemma SkippedDeclarationIsSaid(host: Option<Host>) returns (p: Program, k: nat)
    requires Silent(host)
    ensures CompileScript(Skipped(VarRef("s"))) == Ok(p)
    ensures SlotsCoverParameters(p) && Dispatch(p, Fresh(p), "state_entry", []).Ok?
    ensures var r := Run(p, host, Dispatch(p, Fresh(p), "state_entry", []).value, k);
      r.status == Finished && r.state.trace == [HostCall("llOwnerSay", [Int(0)])] && !CallsTyped(r.state.trace)
  {
    var e := VarRef("s");
    assert EvalExpr(WITH_S, e, Store(map[], map[], [])) == Some(Int(0));
    assert !ExprReady(WITH_S, e, {});
    p := SkippedCompiles(e);
    SkippedEvaluates(e);
    hide CompileScript, ExecHandler, DeclaredBeforeRead, Dispatch, Run, SlotsCoverParameters;
    k := CompilerCorrect(Skipped(e), p, host, 0, [], Fresh(p), 0);
    SayingZero();
  }

  lemma SayingZero()
    ensures !CallsTyped([HostCall("llOwnerSay", [Int(0)])])
  {
    var call := HostCall("llOwnerSay", [Int(0)]);
    assert call in [call] && TypeOf(call.args[0]) == Integer && LookupHost(call.name).value.params[0] == Text;
  }

  lemma SkippedCompiles(text: Expr) returns (p: Program)
    requires TypeExpr(WITH_S, text) == Ok(Text)
    ensures CompileScript(Skipped(text)) == Ok(p) && Fresh(p).globals == []
  {
    SkippedIsTyped(text);
    hide TypeScript, CompileScript;
    AcceptsExactlyTheWellTyped(Skipped(text));
    p := CompileScript(Skipped(text)).value;
    FreshGlobalsTyped(Skipped(text), p);
  }

  lemma SkippedIsTyped(text: Expr)
    requires TypeExpr(WITH_S, text) == Ok(Text)
    ensures TypeScript(Skipped(text)).Ok? && Skipped(text).Valid()
  {
    var env0 := Env(map[], map[]);
    var inner := SKIPPED_BRANCH.thenBranch;
    assert TypeStmt(env0, inner[0]) == Ok(WITH_S);
    assert TypeBlock(env0, inner) == Ok(WITH_S);
    assert TypeStmt(env0, SKIPPED_BRANCH) == Ok(WITH_S);
    assert TypeArgs(WITH_S, "llOwnerSay", [text], [Text], 0) == Ok(());
    assert TypeStmt(WITH_S, SkippedRead(text)) == Ok(WITH_S);
    var body := [SKIPPED_BRANCH, SkippedRead(text)];
    assert body[1..] == [SkippedRead(text)];
    assert TypeBlock(WITH_S, [SkippedRead(text)]) == Ok(WITH_S);
    assert TypeBlock(env0, body) == Ok(WITH_S);
    hide TypeBlock;
    assert TypeEvent(map[], {}, Skipped(text).events[0]) == Ok(());
    assert Skipped(text).events[1..] == [];
    assert TypeEvents(map[], {}, Skipped(text).events) == Ok(());
  }

  lemma SkippedEvaluates(text: Expr)
    requires text == SUM || text == VarRef("s")
    ensures !DeclaredBeforeRead(Skipped(text), Skipped(text).events[0])
    ensures forall fuel: nat ::
      ExecHandler(Skipped(text), Skipped(text).events[0], [], GlobalValues([], []), [], fuel) ==
        if text == SUM then Faulted(Store(map[], map[], []))
        else Normal(Store(map[], map[], [HostCall("llOwnerSay", [Int(0)])]))
  {
    var env0 := Env(map[], map[]);
    var read := SkippedRead(text);
    var body := [SKIPPED_BRANCH, read];
    assert HandlerEnv(Skipped(text), Skipped(text).events[0]) == env0;
    assert After(env0, SKIPPED_BRANCH) == WITH_S by { assert AfterBlock(env0, SKIPPED_BRANCH.thenBranch) == WITH_S; }
    assert body[1..] == [read];
    var st := Store(map[], map[], []);
    var o := if text == SUM then Faulted(st) else Normal(Store(map[], map[], [HostCall("llOwnerSay", [Int(0)])]));
    assert ReadName(WITH_S, "s", st) == Some(Int(0));
    assert EvalExpr(WITH_S, VarRef("s"), st) == Some(Int(0)) && TypeExpr(WITH_S, VarRef("s")) == Ok(Text);
    assert EvalExpr(WITH_S, SUM, st) == None;
    assert [text][1..] == [] && [Int(0)] + [] == [Int(0)];
    assert EvalArgs(WITH_S, [text], st) == if text == SUM then None else Some([Int(0)]);
    assert !ExprReady(WITH_S, VarRef("s"), {}) && !ArgsReady(WITH_S, [text], {});
    assert !StmtReady(WITH_S, read, {});
    assert ReadyAfter(env0, SKIPPED_BRANCH, {}) == {};
    assert !BlockReady(WITH_S, [read], {});
    assert !BlockReady(env0, body, {}) && ParamTypes([]).Keys == {};
    forall fuel: nat
      ensures ExecHandler(Skipped(text), Skipped(text).events[0], [], GlobalValues([], []), [], fuel) == o
    {
      assert ExecStmt(env0, SKIPPED_BRANCH, st, fuel) == Normal(st);
      assert ExecStmt(WITH_S, read, st, fuel) == o;
      assert ExecBlock(WITH_S, [read], st, fuel) == o;
      assert ExecBlock(env0, body, st, fuel) == o;
    }
  }
}
