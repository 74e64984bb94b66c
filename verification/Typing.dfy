/** The compiler accepts exactly the well-typed scripts. */
module Typing {
  import opened Prelude
  import opened Bytecode
  import opened Ast
  import opened Compiler
  import opened Evaluator

  function EnvOf(c: Unit): Env {
    Env(map n | n in c.locals :: c.locals[n].ty, map n | n in c.globals :: c.globals[n].ty)
  }

  lemma SameScopeSameEnv(c: Unit, d: Unit)
    requires Extends(c, d) && SameScope(c, d)
    ensures EnvOf(c) == EnvOf(d)
  {
  }

  /** Same verdict: the compiler's type, or the very same error. */
  ghost predicate SameVerdict(r: Result<(Unit, Type), CompileError>, t: Result<Type, CompileError>) {
    match r
    case Ok((_, ty)) => t == Ok(ty)
    case Err(e) => t == Err(e)
  }

  lemma {:induction false} ExprTypes(c: Unit, e: Expr)
    ensures SameVerdict(CompileExpr(c, e), TypeExpr(EnvOf(c), e))
    decreases e, 1
  {
    hide EmitConstant, InternHost;
    match e
    case Cast(_, operand) => ExprTypes(c, operand);
    case Binary(_, lhs, rhs) =>
      ExprTypes(c, lhs);
      if CompileExpr(c, lhs).Ok? {
        var c1 := CompileExpr(c, lhs).value.0;
        ExprExtends(c, lhs);
        SameScopeSameEnv(c, c1);
        ExprTypes(c1, rhs);
      }
    case Call(callee, args) =>
      if LookupHost(callee).Some? && |args| == |LookupHost(callee).value.params| {
        ArgsTypes(c, callee, args, LookupHost(callee).value.params, 0);
      }
    case _ =>
  }

  lemma {:induction false} ArgsTypes(c: Unit, callee: Bytes, args: seq<Expr>, types: seq<ValueType>, position: nat)
    requires |args| == |types|
    ensures match CompileArgs(c, callee, args, types, position)
      case Ok(_) => TypeArgs(EnvOf(c), callee, args, types, position) == Ok(())
      case Err(e) => TypeArgs(EnvOf(c), callee, args, types, position) == Err(e)
    decreases args, 0
  {
    if args != [] {
      ExprTypes(c, args[0]);
      if CompileExpr(c, args[0]).Ok? {
        var c1 := CompileExpr(c, args[0]).value.0;
        ExprExtends(c, args[0]);
        SameScopeSameEnv(c, c1);
        ArgsTypes(c1, callee, args[1..], types[1..], position + 1);
      }
    }
  }

  ghost predicate SameScopeVerdict(r: Result<Unit, CompileError>, t: Result<Env, CompileError>) {
    match r
    case Ok(d) => t == Ok(EnvOf(d))
    case Err(e) => t == Err(e)
  }

  lemma {:induction false} StmtTypes(c: Unit, s: Stmt)
    ensures SameScopeVerdict(CompileStmt(c, s), TypeStmt(EnvOf(c), s))
    decreases s, 1
  {
    hide EmitConstant;
    match s
    case Block(statements) => BlockTypes(c, statements);
    case VarDecl(ty, name, init) => VarDeclTypes(c, ty, name, init);
    case Assign(name, value) =>
      ExprTypes(c, value);
      ExprExtends(c, value);
    case ExprStmt(expr) =>
      ExprTypes(c, expr);
      ExprExtends(c, expr);
    case While(condition, body) =>
      ConditionTypes(c, condition);
      if CompileCondition(c, condition).Ok? {
        BlockTypes(Emit(CompileCondition(c, condition).value, JumpIfZero, 0, 0), body);
      }
    case If(condition, thenBranch, elseBranch) =>
      IfTypes(c, s);
  }

  lemma ConditionTypes(c: Unit, e: Expr)
    ensures match CompileCondition(c, e)
      case Ok(d) => TypeCondition(EnvOf(c), e) == Ok(()) && Extends(c, d) && SameScope(c, d) && EnvOf(d) == EnvOf(c)
      case Err(x) => TypeCondition(EnvOf(c), e) == Err(x)
  {
    ExprTypes(c, e);
    ExprExtends(c, e);
  }

  lemma InitTypes(c: Unit, ty: ValueType, name: Bytes, init: Option<Expr>)
    ensures match CompileInit(c, ty, name, init)
      case Ok(d) => TypeInit(EnvOf(c), ty, name, init) == Ok(()) && Extends(c, d) && SameScope(c, d)
      case Err(x) => TypeInit(EnvOf(c), ty, name, init) == Err(x)
  {
    if init.Some? {
      ExprTypes(c, init.value);
      ExprExtends(c, init.value);
    }
  }

  lemma VarDeclTypes(c: Unit, ty: ValueType, name: Bytes, init: Option<Expr>)
    ensures SameScopeVerdict(CompileVarDecl(c, ty, name, init), TypeStmt(EnvOf(c), VarDecl(ty, name, init)))
  {
    hide CompileInit, TypeInit;
    if name !in c.locals {
      var c0 := c.(localCount := c.localCount + 1);
      assert EnvOf(c0) == EnvOf(c);
      InitTypes(c0, ty, name, init);
      if CompileInit(c0, ty, name, init).Ok? {
        var d := CompileVarDecl(c, ty, name, init).value;
        assert EnvOf(d) == EnvOf(c).(locals := EnvOf(c).locals[name := ty]);
      }
    }
  }

  lemma {:induction false} IfTypes(c: Unit, s: Stmt)
    requires s.If?
    ensures SameScopeVerdict(CompileStmt(c, s), TypeStmt(EnvOf(c), s))
    decreases s, 0
  {
    ConditionTypes(c, s.condition);
    if CompileCondition(c, s.condition).Ok? {
      var c1 := CompileCondition(c, s.condition).value;
      var c2 := Emit(c1, JumpIfZero, 0, 0);
      assert EnvOf(c2) == EnvOf(c);
      BlockTypes(c2, s.thenBranch);
      if CompileBlock(c2, s.thenBranch).Ok? && s.elseBranch.Else? {
        var c3 := CompileBlock(c2, s.thenBranch).value;
        var c4 := Emit(c3, Jump, 0, 0);
        BlockTypes(Patch(c4, |c1.code|, |c4.code|), s.elseBranch.body);
      }
    }
  }

  lemma {:induction false} BlockTypes(c: Unit, ss: seq<Stmt>)
    ensures SameScopeVerdict(CompileBlock(c, ss), TypeBlock(EnvOf(c), ss))
    decreases ss, 0
  {
    if ss != [] {
      StmtTypes(c, ss[0]);
      if CompileStmt(c, ss[0]).Ok? {
        BlockTypes(CompileStmt(c, ss[0]).value, ss[1..]);
      }
    }
  }

  // ----- whole scripts -----

  function EventNames(events: seq<EventEntry>): set<Bytes> {
    set e | e in events :: e.name
  }

  lemma {:induction false} FindEventNames(events: seq<EventEntry>, name: Bytes)
    ensures FindEvent(events, name).Some? <==> name in EventNames(events)
    decreases |events|
  {
    if events != [] {
      FindEventNames(events[1..], name);
      assert EventNames(events) == {events[0].name} + EventNames(events[1..]);
    }
  }

  /** No event has more than one parameter, so binding parameters is one step at most. */
  lemma BindParamsTypes(c: Unit, event: Bytes, params: seq<Param>, types: seq<ValueType>)
    requires |params| == |types| <= 1 && c.locals == map[]
    ensures match BindParams(c, event, params, types, 0)
      case Ok(d) => (types == [] || params[0].ty == types[0]) && EnvOf(d) == Env(ParamTypes(params), EnvOf(c).globals)
      case Err(e) => types != [] && params[0].ty != types[0] && e == WrongParameterType(event, 1)
  {
    if params != [] {
      assert ParamTypes(params[..0]) == map[];
      assert BindParams(c, event, params, types, 0) ==
        if params[0].ty != types[0] then Err(WrongParameterType(event, 1))
        else BindParams(c.(localCount := c.localCount + 1,
                           locals := map[params[0].name := Symbol(Local, c.localCount, params[0].ty)]),
                        event, params, types, 1);
    }
  }

  /** Compiling a handler succeeds exactly when the handler is well typed; it adds one entry. */
  lemma EventTypes(c: Unit, h: EventHandler)
    ensures var t := TypeEvent(EnvOf(c).globals, EventNames(c.events), h);
      match CompileEvent(c, h)
      case Ok(d) => t == Ok(()) && EnvOf(d).globals == EnvOf(c).globals
                    && EventNames(d.events) == EventNames(c.events) + {h.name}
      case Err(e) => t == Err(e)
  {
    FindEventNames(c.events, h.name);
    var types := LookupEvent(h.name);
    if types.Some? && h.name !in EventNames(c.events) && |h.params| == |types.value| {
      var c0 := c.(locals := map[], localCount := 0);
      BindParamsTypes(c0, h.name, h.params, types.value);
      var c1 := BindParams(c0, h.name, h.params, types.value, 0);
      if c1.Ok? {
        BindParamsKeeps(c0, h.name, h.params, types.value, 0);
        BlockTypes(c1.value, h.body);
      }
    }
  }

  /** Binding parameters touches the scope only. */
  lemma {:induction false} BindParamsKeeps(c: Unit, event: Bytes, params: seq<Param>, types: seq<ValueType>, from: nat)
    requires |params| == |types| && from <= |params|
    ensures var r := BindParams(c, event, params, types, from);
      r.Ok? ==> r.value == c.(locals := r.value.locals, localCount := c.localCount + |params| - from)
    decreases |params| - from
  {
    if from < |params| && params[from].ty == types[from] {
      var sym := Symbol(Local, c.localCount, params[from].ty);
      BindParamsKeeps(
        c.(localCount := c.localCount + 1,
           locals := if params[from].name in c.locals then c.locals else c.locals[params[from].name := sym]),
        event, params, types, from + 1);
    }
  }

  lemma {:induction false} EventsTypes(c: Unit, hs: seq<EventHandler>)
    ensures var t := TypeEvents(EnvOf(c).globals, EventNames(c.events), hs);
      match CompileEvents(c, hs)
      case Ok(_) => t == Ok(())
      case Err(e) => t == Err(e)
    decreases |hs|
  {
    hide CompileEvent, TypeEvent;
    if hs != [] {
      EventTypes(c, hs[0]);
      var d := CompileEvent(c, hs[0]);
      if d.Ok? {
        EventsTypes(d.value, hs[1..]);
      }
    }
  }

  lemma {:induction false} DeclareGlobalsSnoc(c: Unit, gs: seq<GlobalVar>, g: GlobalVar)
    ensures DeclareGlobals(c, gs + [g]) ==
      match DeclareGlobals(c, gs)
      case Ok(d) => DeclareGlobal(d, g)
      case Err(e) => Err(e)
    decreases |gs|
  {
    if gs == [] {
      assert (gs + [g])[1..] == [];
    } else {
      assert (gs + [g])[1..] == gs[1..] + [g];
      var d := DeclareGlobal(c, gs[0]);
      if d.Ok? {
        DeclareGlobalsSnoc(d.value, gs[1..], g);
      }
    }
  }

  lemma {:induction false} GlobalsTypes(gs: seq<GlobalVar>)
    ensures match DeclareGlobals(EMPTY, gs)
      case Ok(d) => TypeGlobals(gs) == Ok(EnvOf(d).globals) && EnvOf(d).globals == GlobalTypes(gs) && d.events == []
      case Err(e) => TypeGlobals(gs) == Err(e)
    decreases |gs|
  {
    if gs != [] {
      var front, g := gs[..|gs| - 1], gs[|gs| - 1];
      assert gs == front + [g];
      DeclareGlobalsSnoc(EMPTY, front, g);
      GlobalsTypes(front);
      var d := DeclareGlobals(EMPTY, front);
      if d.Ok? && g.name !in d.value.globals {
        assert EnvOf(DeclareGlobal(d.value, g).value).globals == EnvOf(d.value).globals[g.name := g.ty];
      }
    }
  }

  /** The compiler accepts exactly the well-typed scripts, and reports their first type
      error otherwise. */
  lemma AcceptsExactlyTheWellTyped(script: Script)
    ensures CompileScript(script).Ok? <==> TypeScript(script).Ok?
    ensures CompileScript(script).Err? ==> TypeScript(script) == Err(CompileScript(script).error)
  {
    hide CompileEvents, DeclareGlobals, TypeEvents, TypeGlobals;
    GlobalsTypes(script.globals);
    var c := DeclareGlobals(EMPTY, script.globals);
    if c.Ok? {
      EventsTypes(c.value, script.events);
      assert EventNames(c.value.events) == {};
    }
  }
}
