/** The one-pass compiler: what it emits, and the object that emits it in place. */
module Compiler {
  import opened Prelude
  import opened Bytecode
  import opened Ast

  datatype CompileError =
    | GlobalRedeclared(name: Bytes)
    | UnsupportedEvent(name: Bytes)
    | DuplicateEvent(name: Bytes)
    | WrongParameterCount(name: Bytes)
    | WrongParameterType(name: Bytes, position: nat)
    | AlreadyDeclared(name: Bytes)
    | Undeclared(name: Bytes)
    | CannotInitialize(name: Bytes, ty: Type)
    | CannotAssign(name: Bytes, ty: Type)
    | ConditionNotInteger
    | CannotCastVoid
    | CannotCastToInteger
    | BadAddition
    | OperatorRequiresIntegers(op: BinaryOp)
    | UnknownFunction(name: Bytes)
    | WrongArgumentCount(name: Bytes)
    | WrongArgumentType(name: Bytes, position: nat)

  datatype HostSignature = HostSignature(params: seq<ValueType>, result: Type)

  function LookupHost(name: Bytes): Option<HostSignature> {
    if name == "llOwnerSay" then Some(HostSignature([Text], Void))
    else if name == "llSay" then Some(HostSignature([Integer, Text], Void))
    else None
  }

  function LookupEvent(name: Bytes): Option<seq<ValueType>> {
    if name == "state_entry" then Some([])
    else if name == "touch_start" then Some([Integer])
    else None
  }

  datatype Scope = Local | Global

  datatype Symbol = Symbol(scope: Scope, slot: nat, ty: ValueType)

  type Symbols = map<Bytes, Symbol>

  /** Everything the compiler owns: the program under construction and its tables. */
  datatype Unit = Unit(
    code: seq<Instruction>,
    constants: seq<Value>,
    hostNames: seq<Bytes>,
    globalDefaults: seq<Value>,
    events: seq<EventEntry>,
    globals: Symbols,
    locals: Symbols,
    localCount: nat)

  const EMPTY: Unit := Unit([], [], [], [], [], map[], map[], 0)

  function ToProgram(c: Unit): Program {
    Program(c.code, c.constants, c.hostNames, c.globalDefaults, c.events, ABI_VERSION)
  }

  // ----- what is emitted -----

  function Emit(c: Unit, op: Op, a: int, b: int): Unit {
    c.(code := c.code + [Instruction(op, a, b)])
  }

  function Patch(c: Unit, at: nat, target: int): Unit
    requires at < |c.code|
  {
    c.(code := c.code[at := c.code[at].(a := target)])
  }

  /** Interns a constant: an equal one already in the pool is shared. */
  function InternConstant(c: Unit, v: Value): Unit {
    if IndexOf(c.constants, v) < |c.constants| then c else c.(constants := c.constants + [v])
  }

  function InternHost(c: Unit, name: Bytes): Unit {
    if IndexOf(c.hostNames, name) < |c.hostNames| then c else c.(hostNames := c.hostNames + [name])
  }

  function EmitConstant(c: Unit, v: Value): Unit {
    Emit(InternConstant(c, v), PushConst, IndexOf(c.constants, v), 0)
  }

  /** Locals hide globals. */
  function Resolve(c: Unit, name: Bytes): Result<Symbol, CompileError> {
    if name in c.locals then Ok(c.locals[name])
    else if name in c.globals then Ok(c.globals[name])
    else Err(Undeclared(name))
  }

  function OpcodeOf(op: BinaryOp): Op {
    match op
    case Add => AddInt
    case Sub => SubInt
    case Mul => MulInt
    case Less => LessInt
    case Greater => GreaterInt
    case Equal => EqualInt
  }

  function CompileExpr(c: Unit, e: Expr): Result<(Unit, Type), CompileError>
    decreases e, 1
  {
    match e
    case IntLiteral(n) => Ok((EmitConstant(c, Int(n)), Integer))
    case StringLiteral(s) => Ok((EmitConstant(c, Str(s)), Text))
    case VarRef(name) =>
      var sym :- Resolve(c, name);
      Ok((Emit(c, if sym.scope == Global then LoadGlobal else LoadLocal, sym.slot, 0), sym.ty))
    case Cast(target, operand) =>
      var (c1, t) :- CompileExpr(c, operand);
      if target == Text then
        if t == Integer then Ok((Emit(c1, CastIntToStr, 0, 0), Text))
        else if t != Text then Err(CannotCastVoid)
        else Ok((c1, Text))
      else if t != Integer then Err(CannotCastToInteger)
      else Ok((c1, Integer))
    case Binary(op, lhs, rhs) =>
      var (c1, lt) :- CompileExpr(c, lhs);
      var (c2, rt) :- CompileExpr(c1, rhs);
      if lt == Integer && rt == Integer then Ok((Emit(c2, OpcodeOf(op), 0, 0), Integer))
      else if op == Add && lt == Text && rt == Text then Ok((Emit(c2, ConcatStr, 0, 0), Text))
      else Err(if op == Add then BadAddition else OperatorRequiresIntegers(op))
    case Call(callee, args) =>
      match LookupHost(callee)
      case None => Err(UnknownFunction(callee))
      case Some(sig) =>
        if |args| != |sig.params| then Err(WrongArgumentCount(callee))
        else
          var c1 :- CompileArgs(c, callee, args, sig.params, 0);
          Ok((Emit(InternHost(c1, callee), CallHost, IndexOf(c1.hostNames, callee), |args|), sig.result))
  }

  /** The arguments left to right, `position` of them being compiled already. */
  function CompileArgs(c: Unit, callee: Bytes, args: seq<Expr>, types: seq<ValueType>, position: nat)
      : Result<Unit, CompileError>
    requires |args| == |types|
    decreases args, 0
  {
    if args == [] then Ok(c)
    else
      var (c1, t) :- CompileExpr(c, args[0]);
      if t != types[0] then Err(WrongArgumentType(callee, position + 1))
      else CompileArgs(c1, callee, args[1..], types[1..], position + 1)
  }

  function CompileCondition(c: Unit, e: Expr): Result<Unit, CompileError> {
    var (c1, t) :- CompileExpr(c, e);
    if t == Integer then Ok(c1) else Err(ConditionNotInteger)
  }

  /** Compiling only appends: nothing emitted, interned or bound earlier is disturbed. */
  ghost predicate Extends(c: Unit, d: Unit) {
    && c.code <= d.code && c.constants <= d.constants && c.hostNames <= d.hostNames
    && c.globalDefaults == d.globalDefaults && c.events == d.events && c.globals == d.globals
    && c.localCount <= d.localCount
    && forall n :: n in c.locals ==> n in d.locals && d.locals[n] == c.locals[n]
  }

  ghost predicate SameScope(c: Unit, d: Unit) {
    c.locals == d.locals && c.localCount == d.localCount
  }

  lemma {:induction false} ExprExtends(c: Unit, e: Expr)
    ensures var r := CompileExpr(c, e);
      r.Ok? ==> Extends(c, r.value.0) && SameScope(c, r.value.0)
    decreases e, 1
  {
    match e
    case Cast(_, operand) => ExprExtends(c, operand);
    case Binary(_, lhs, rhs) =>
      ExprExtends(c, lhs);
      if CompileExpr(c, lhs).Ok? {
        ExprExtends(CompileExpr(c, lhs).value.0, rhs);
      }
    case Call(callee, args) =>
      if LookupHost(callee).Some? && |args| == |LookupHost(callee).value.params| {
        ArgsExtend(c, callee, args, LookupHost(callee).value.params, 0);
      }
    case _ =>
  }

  lemma {:induction false} ArgsExtend(c: Unit, callee: Bytes, args: seq<Expr>, types: seq<ValueType>, position: nat)
    requires |args| == |types|
    ensures var r := CompileArgs(c, callee, args, types, position);
      r.Ok? ==> Extends(c, r.value) && SameScope(c, r.value)
    decreases args, 0
  {
    if args != [] {
      ExprExtends(c, args[0]);
      if CompileExpr(c, args[0]).Ok? {
        ArgsExtend(CompileExpr(c, args[0]).value.0, callee, args[1..], types[1..], position + 1);
      }
    }
  }

  function CompileStmt(c: Unit, s: Stmt): (r: Result<Unit, CompileError>)
    ensures r.Ok? ==> Extends(c, r.value)
    decreases s, 1
  {
    match s
    case Block(statements) => CompileBlock(c, statements)
    case VarDecl(ty, name, init) => CompileVarDecl(c, ty, name, init)
    case Assign(name, value) =>
      var sym :- Resolve(c, name);
      var (c1, t) :- CompileExpr(c, value);
      if t != sym.ty then Err(CannotAssign(name, t))
      else
        ExprExtends(c, value);
        Ok(Emit(c1, if sym.scope == Global then StoreGlobal else StoreLocal, sym.slot, 0))
    case ExprStmt(expr) =>
      var (c1, t) :- CompileExpr(c, expr);
      ExprExtends(c, expr);
      Ok(if t != Void then Emit(c1, Pop, 0, 0) else c1)
    case While(condition, body) =>
      var c1 :- CompileCondition(c, condition);
      ExprExtends(c, condition);
      var c2 := Emit(c1, JumpIfZero, 0, 0);
      var c3 :- CompileBlock(c2, body);
      var c4 := Emit(c3, Jump, |c.code|, 0);
      Ok(Patch(c4, |c1.code|, |c4.code|))
    case If(condition, thenBranch, elseBranch) =>
      var c1 :- CompileCondition(c, condition);
      ExprExtends(c, condition);
      var c2 := Emit(c1, JumpIfZero, 0, 0);
      var c3 :- CompileBlock(c2, thenBranch);
      match elseBranch
      case NoElse => Ok(Patch(c3, |c1.code|, |c3.code|))
      case Else(body) =>
        var c4 := Emit(c3, Jump, 0, 0);
        var c5 := Patch(c4, |c1.code|, |c4.code|);
        var c6 :- CompileBlock(c5, body);
        Ok(Patch(c6, |c3.code|, |c6.code|))
  }

  /** The slot is taken first, the initializer next, and the name is bound last. */
  function CompileVarDecl(c: Unit, ty: ValueType, name: Bytes, init: Option<Expr>): (r: Result<Unit, CompileError>)
    ensures r.Ok? ==> Extends(c, r.value)
  {
    if name in c.locals then Err(AlreadyDeclared(name))
    else
      var slot := c.localCount;
      var c0 := c.(localCount := slot + 1);
      var c1 :- CompileInit(c0, ty, name, init);
      var c2 := Emit(c1, StoreLocal, slot, 0);
      Ok(c2.(locals := c2.locals[name := Symbol(Local, slot, ty)]))
  }

  function CompileInit(c: Unit, ty: ValueType, name: Bytes, init: Option<Expr>): (r: Result<Unit, CompileError>)
    ensures r.Ok? ==> Extends(c, r.value)
  {
    match init
    case None => Ok(EmitConstant(c, DefaultValue(ty)))
    case Some(e) =>
      var (c1, t) :- CompileExpr(c, e);
      ExprExtends(c, e);
      if t != ty then Err(CannotInitialize(name, t)) else Ok(c1)
  }

  function CompileBlock(c: Unit, ss: seq<Stmt>): (r: Result<Unit, CompileError>)
    ensures r.Ok? ==> Extends(c, r.value)
    decreases ss, 0
  {
    if ss == [] then Ok(c)
    else
      var c1 :- CompileStmt(c, ss[0]);
      CompileBlock(c1, ss[1..])
  }

  function DeclareGlobal(c: Unit, g: GlobalVar): Result<Unit, CompileError> {
    if g.name in c.globals then Err(GlobalRedeclared(g.name))
    else
      var initial := match g.init case Some(v) => v case None => DefaultValue(g.ty);
      Ok(c.(globalDefaults := c.globalDefaults + [initial],
            globals := c.globals[g.name := Symbol(Global, |c.globalDefaults|, g.ty)]))
  }

  function DeclareGlobals(c: Unit, gs: seq<GlobalVar>): Result<Unit, CompileError>
    decreases |gs|
  {
    if gs == [] then Ok(c)
    else
      var c1 :- DeclareGlobal(c, gs[0]);
      DeclareGlobals(c1, gs[1..])
  }

  /** The parameters take the first slots, in order. */
  function BindParams(c: Unit, event: Bytes, params: seq<Param>, types: seq<ValueType>, from: nat)
      : Result<Unit, CompileError>
    requires |params| == |types| && from <= |params|
    decreases |params| - from
  {
    if from == |params| then Ok(c)
    else if params[from].ty != types[from] then Err(WrongParameterType(event, from + 1))
    else
      var sym := Symbol(Local, c.localCount, params[from].ty);
      BindParams(
        c.(localCount := c.localCount + 1,
           locals := if params[from].name in c.locals then c.locals else c.locals[params[from].name := sym]),
        event, params, types, from + 1)
  }

  function CompileEvent(c: Unit, h: EventHandler): Result<Unit, CompileError> {
    match LookupEvent(h.name)
    case None => Err(UnsupportedEvent(h.name))
    case Some(types) =>
      if FindEvent(c.events, h.name).Some? then Err(DuplicateEvent(h.name))
      else if |h.params| != |types| then Err(WrongParameterCount(h.name))
      else
        var c1 :- BindParams(c.(locals := map[], localCount := 0), h.name, h.params, types, 0);
        var c2 :- CompileBlock(c1, h.body);
        var c3 := Emit(c2, Halt, 0, 0);
        Ok(c3.(events := c3.events + [EventEntry(h.name, |c.code|, types, c3.localCount)]))
  }

  function CompileEvents(c: Unit, hs: seq<EventHandler>): Result<Unit, CompileError>
    decreases |hs|
  {
    if hs == [] then Ok(c)
    else
      var c1 :- CompileEvent(c, hs[0]);
      CompileEvents(c1, hs[1..])
  }

  function CompileScript(script: Script): Result<Program, CompileError> {
    var c1 :- DeclareGlobals(EMPTY, script.globals);
    var c2 :- CompileEvents(c1, script.events);
    Ok(ToProgram(c2))
  }
}
