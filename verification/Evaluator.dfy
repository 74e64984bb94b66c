/** The meaning of a script without bytecode: static types, and a direct evaluator. */
module Evaluator {
  import opened Prelude
  import opened Bytecode
  import opened Ast
  import opened Vm
  import opened Compiler

  /** The names in scope. A handler has one flat scope: a name stays visible after the
      block that declared it, whether or not that block runs. */
  datatype Env = Env(locals: map<Bytes, ValueType>, globals: map<Bytes, ValueType>)

  function TypeOfName(env: Env, name: Bytes): Result<ValueType, CompileError> {
    if name in env.locals then Ok(env.locals[name])
    else if name in env.globals then Ok(env.globals[name])
    else Err(Undeclared(name))
  }

  // ----- typing -----

  function TypeExpr(env: Env, e: Expr): Result<Type, CompileError>
    decreases e, 1
  {
    match e
    case IntLiteral(_) => Ok(Integer)
    case StringLiteral(_) => Ok(Text)
    case VarRef(name) =>
      var t :- TypeOfName(env, name);
      Ok(t)
    case Cast(target, operand) =>
      var t :- TypeExpr(env, operand);
      if target == Text && t == Void then Err(CannotCastVoid)
      else if target == Integer && t != Integer then Err(CannotCastToInteger)
      else Ok(target)
    case Binary(op, lhs, rhs) =>
      var lt :- TypeExpr(env, lhs);
      var rt :- TypeExpr(env, rhs);
      if lt == Integer && rt == Integer then Ok(Integer)
      else if op == Add && lt == Text && rt == Text then Ok(Text)
      else Err(if op == Add then BadAddition else OperatorRequiresIntegers(op))
    case Call(callee, args) =>
      match LookupHost(callee)
      case None => Err(UnknownFunction(callee))
      case Some(sig) =>
        if |args| != |sig.params| then Err(CompileError.WrongArgumentCount(callee))
        else
          var _ :- TypeArgs(env, callee, args, sig.params, 0);
          Ok(sig.result)
  }

  function TypeArgs(env: Env, callee: Bytes, args: seq<Expr>, types: seq<ValueType>, position: nat)
      : Result<(), CompileError>
    requires |args| == |types|
    decreases args, 0
  {
    if args == [] then Ok(())
    else
      var t :- TypeExpr(env, args[0]);
      if t != types[0] then Err(CompileError.WrongArgumentType(callee, position + 1))
      else TypeArgs(env, callee, args[1..], types[1..], position + 1)
  }

  function TypeCondition(env: Env, e: Expr): Result<(), CompileError> {
    var t :- TypeExpr(env, e);
    if t == Integer then Ok(()) else Err(ConditionNotInteger)
  }

  function TypeInit(env: Env, ty: ValueType, name: Bytes, init: Option<Expr>): Result<(), CompileError> {
    match init
    case None => Ok(())
    case Some(e) =>
      var t :- TypeExpr(env, e);
      if t != ty then Err(CannotInitialize(name, t)) else Ok(())
  }

  /** The scope after a statement, when the statement is well typed. */
  function TypeStmt(env: Env, s: Stmt): Result<Env, CompileError>
    decreases s, 1
  {
    match s
    case Block(statements) => TypeBlock(env, statements)
    case VarDecl(ty, name, init) =>
      if name in env.locals then Err(AlreadyDeclared(name))
      else
        var _ :- TypeInit(env, ty, name, init);
        Ok(env.(locals := env.locals[name := ty]))
    case Assign(name, value) =>
      var expected :- TypeOfName(env, name);
      var t :- TypeExpr(env, value);
      if t != expected then Err(CannotAssign(name, t)) else Ok(env)
    case ExprStmt(expr) =>
      var _ :- TypeExpr(env, expr);
      Ok(env)
    case While(condition, body) =>
      var _ :- TypeCondition(env, condition);
      TypeBlock(env, body)
    case If(condition, thenBranch, elseBranch) =>
      var _ :- TypeCondition(env, condition);
      var env1 :- TypeBlock(env, thenBranch);
      match elseBranch
      case NoElse => Ok(env1)
      case Else(body) => TypeBlock(env1, body)
  }

  function TypeBlock(env: Env, ss: seq<Stmt>): Result<Env, CompileError>
    decreases ss, 0
  {
    if ss == [] then Ok(env)
    else
      var env1 :- TypeStmt(env, ss[0]);
      TypeBlock(env1, ss[1..])
  }

  /** The scope after a statement, whatever it holds. */
  function After(env: Env, s: Stmt): Env
    decreases s, 1
  {
    match s
    case Block(statements) => AfterBlock(env, statements)
    case VarDecl(ty, name, _) => env.(locals := env.locals[name := ty])
    case While(_, body) => AfterBlock(env, body)
    case If(_, thenBranch, elseBranch) =>
      var env1 := AfterBlock(env, thenBranch);
      (match elseBranch case NoElse => env1 case Else(body) => AfterBlock(env1, body))
    case _ => env
  }

  function AfterBlock(env: Env, ss: seq<Stmt>): Env
    decreases ss, 0
  {
    if ss == [] then env else AfterBlock(After(env, ss[0]), ss[1..])
  }

  lemma {:induction false} TypedAfter(env: Env, s: Stmt)
    ensures TypeStmt(env, s).Ok? ==> TypeStmt(env, s).value == After(env, s)
    decreases s, 1
  {
    match s
    case Block(statements) => TypedAfterBlock(env, statements);
    case While(_, body) => TypedAfterBlock(env, body);
    case If(_, thenBranch, elseBranch) =>
      TypedAfterBlock(env, thenBranch);
      if elseBranch.Else? {
        TypedAfterBlock(AfterBlock(env, thenBranch), elseBranch.body);
      }
    case _ =>
  }

  lemma {:induction false} TypedAfterBlock(env: Env, ss: seq<Stmt>)
    ensures TypeBlock(env, ss).Ok? ==> TypeBlock(env, ss).value == AfterBlock(env, ss)
    decreases ss, 0
  {
    if ss != [] {
      TypedAfter(env, ss[0]);
      TypedAfterBlock(After(env, ss[0]), ss[1..]);
    }
  }

  // ----- evaluation -----

  /** Variables by name, and the host calls made so far. */
  datatype Store = Store(locals: map<Bytes, Value>, globals: map<Bytes, Value>, trace: seq<HostCall>)

  /** A local whose declaration has not run yet reads as integer zero. */
  function LocalValue(st: Store, name: Bytes): Value {
    if name in st.locals then st.locals[name] else Int(0)
  }

  function ReadName(env: Env, name: Bytes, st: Store): Option<Value> {
    if name in env.locals then Some(LocalValue(st, name))
    else if name in st.globals then Some(st.globals[name])
    else None
  }

  function WriteName(env: Env, name: Bytes, v: Value, st: Store): Store {
    if name in env.locals then st.(locals := st.locals[name := v])
    else st.(globals := st.globals[name := v])
  }

  function ApplyIntegers(op: BinaryOp, a: Value, b: Value): Option<Value> {
    if !a.Int? || !b.Int? then None
    else
      var x, y := a.integer, b.integer;
      Some(Int(match op
        case Add => Wrap32(x + y)
        case Sub => Wrap32(x - y)
        case Mul => Wrap32(x * y)
        case Less => if x < y then 1 else 0
        case Greater => if x > y then 1 else 0
        case Equal => if x == y then 1 else 0))
  }

  function ApplyTexts(a: Value, b: Value): Option<Value> {
    if a.Str? && b.Str? then Some(Str(a.text + b.text)) else None
  }

  /** None is a type fault. Which addition is meant is decided by the static types. */
  function EvalExpr(env: Env, e: Expr, st: Store): Option<Value>
    decreases e, 1
  {
    match e
    case IntLiteral(n) => Some(Int(n))
    case StringLiteral(s) => Some(Str(s))
    case VarRef(name) => ReadName(env, name, st)
    case Cast(target, operand) =>
      (match EvalExpr(env, operand, st)
       case None => None
       case Some(v) =>
         if target == Text && TypeExpr(env, operand) == Ok(Integer) then
           if v.Int? then Some(Str(IntToString(v.integer))) else None
         else Some(v))
    case Binary(op, lhs, rhs) =>
      (match EvalExpr(env, lhs, st)
       case None => None
       case Some(a) =>
         match EvalExpr(env, rhs, st)
         case None => None
         case Some(b) =>
           if TypeExpr(env, lhs) == Ok(Text) then ApplyTexts(a, b) else ApplyIntegers(op, a, b))
    case Call(_, _) => None
  }

  function EvalArgs(env: Env, args: seq<Expr>, st: Store): Option<seq<Value>>
    decreases args, 0
  {
    if args == [] then Some([])
    else
      match EvalExpr(env, args[0], st)
      case None => None
      case Some(v) =>
        match EvalArgs(env, args[1..], st)
        case None => None
        case Some(vs) => Some([v] + vs)
  }

  datatype Outcome = Normal(store: Store) | Faulted(store: Store) | OutOfFuel(store: Store)

  /** Executes a statement; `fuel` bounds the iterations of its loops. */
  function ExecStmt(env: Env, s: Stmt, st: Store, fuel: nat): Outcome
    decreases fuel, s, 1
  {
    match s
    case Block(statements) => ExecBlock(env, statements, st, fuel)
    case VarDecl(ty, name, init) =>
      (match (match init case None => Some(DefaultValue(ty)) case Some(e) => EvalExpr(env, e, st))
       case None => Faulted(st)
       case Some(v) => Normal(st.(locals := st.locals[name := v])))
    case Assign(name, value) =>
      (match EvalExpr(env, value, st)
       case None => Faulted(st)
       case Some(v) => Normal(WriteName(env, name, v, st)))
    case ExprStmt(expr) => ExecExprStmt(env, expr, st)
    case While(condition, body) =>
      if fuel == 0 then OutOfFuel(st)
      else
        (match EvalExpr(env, condition, st)
         case Some(Int(n)) =>
           if n == 0 then Normal(st)
           else
             (match ExecBlock(env, body, st, fuel - 1)
              case Normal(st1) => ExecStmt(env, s, st1, fuel - 1)
              case other => other)
         case _ => Faulted(st))
    case If(condition, thenBranch, elseBranch) =>
      (match EvalExpr(env, condition, st)
       case Some(Int(n)) =>
         if n != 0 then ExecBlock(env, thenBranch, st, fuel)
         else
           (match elseBranch
            case NoElse => Normal(st)
            case Else(body) => ExecBlock(AfterBlock(env, thenBranch), body, st, fuel))
       case _ => Faulted(st))
  }

  /** A call is recorded with its arguments; any other expression is evaluated and dropped. */
  function ExecExprStmt(env: Env, e: Expr, st: Store): Outcome {
    match e
    case Call(callee, args) =>
      (match EvalArgs(env, args, st)
       case None => Faulted(st)
       case Some(vs) => Normal(st.(trace := st.trace + [HostCall(callee, vs)])))
    case _ =>
      match EvalExpr(env, e, st)
      case None => Faulted(st)
      case Some(_) => Normal(st)
  }

  function ExecBlock(env: Env, ss: seq<Stmt>, st: Store, fuel: nat): Outcome
    decreases fuel, ss, 0
  {
    if ss == [] then Normal(st)
    else
      match ExecStmt(env, ss[0], st, fuel)
      case Normal(st1) => ExecBlock(After(env, ss[0]), ss[1..], st1, fuel)
      case other => other
  }

  // ----- scripts -----

  function GlobalTypes(gs: seq<GlobalVar>): map<Bytes, ValueType> {
    if gs == [] then map[] else GlobalTypes(gs[..|gs| - 1])[gs[|gs| - 1].name := gs[|gs| - 1].ty]
  }

  /** The globals by name, from a bank that holds them in declaration order. */
  function GlobalValues(gs: seq<GlobalVar>, bank: seq<Value>): map<Bytes, Value>
    requires |gs| == |bank|
  {
    if gs == [] then map[]
    else GlobalValues(gs[..|gs| - 1], bank[..|gs| - 1])[gs[|gs| - 1].name := bank[|gs| - 1]]
  }

  /** The parameters of a handler, and what an event passes for them. */
  function ParamTypes(params: seq<Param>): map<Bytes, ValueType> {
    if params == [] then map[] else ParamTypes(params[..|params| - 1])[params[|params| - 1].name := params[|params| - 1].ty]
  }

  function ParamValues(params: seq<Param>, args: seq<Value>): map<Bytes, Value>
    requires |params| == |args|
  {
    if params == [] then map[]
    else ParamValues(params[..|params| - 1], args[..|params| - 1])[params[|params| - 1].name := args[|params| - 1]]
  }

  function HandlerEnv(script: Script, h: EventHandler): Env {
    Env(ParamTypes(h.params), GlobalTypes(script.globals))
  }

  /** Runs a handler on its arguments, from given global values and host calls. */
  function ExecHandler(script: Script, h: EventHandler, args: seq<Value>,
                       globals: map<Bytes, Value>, trace: seq<HostCall>, fuel: nat): Outcome
    requires |args| == |h.params|
  {
    ExecBlock(HandlerEnv(script, h), h.body, Store(ParamValues(h.params, args), globals, trace), fuel)
  }

  // ----- what a well-typed script is -----

  function TypeGlobals(gs: seq<GlobalVar>): Result<map<Bytes, ValueType>, CompileError>
    decreases |gs|
  {
    if gs == [] then Ok(map[])
    else
      var g := gs[|gs| - 1];
      var types :- TypeGlobals(gs[..|gs| - 1]);
      if g.name in types then Err(GlobalRedeclared(g.name)) else Ok(types[g.name := g.ty])
  }

  /** A handler is one of the known events, not yet handled, with that event's parameters. */
  function TypeEvent(globals: map<Bytes, ValueType>, handled: set<Bytes>, h: EventHandler): Result<(), CompileError> {
    match LookupEvent(h.name)
    case None => Err(UnsupportedEvent(h.name))
    case Some(types) =>
      if h.name in handled then Err(DuplicateEvent(h.name))
      else if |h.params| != |types| then Err(WrongParameterCount(h.name))
      else if types != [] && h.params[0].ty != types[0] then Err(WrongParameterType(h.name, 1))
      else
        var _ :- TypeBlock(Env(ParamTypes(h.params), globals), h.body);
        Ok(())
  }

  function TypeEvents(globals: map<Bytes, ValueType>, handled: set<Bytes>, hs: seq<EventHandler>): Result<(), CompileError>
    decreases |hs|
  {
    if hs == [] then Ok(())
    else
      var _ :- TypeEvent(globals, handled, hs[0]);
      TypeEvents(globals, handled + {hs[0].name}, hs[1..])
  }

  function TypeScript(script: Script): Result<(), CompileError> {
    var globals :- TypeGlobals(script.globals);
    TypeEvents(globals, {}, script.events)
  }
}
