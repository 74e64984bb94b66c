/** The compiler as the source writes it: an object that appends code, back-patches jumps
    and updates its symbol tables. Each method is the matching step of module Compiler. */
module CompilerObject {
  import opened Prelude
  import opened Bytecode
  import opened Ast
  import opened Compiler

  /** A method returned what its function computes, and left the state the function gives. */
  ghost predicate Follows<T(!new)>(spec: Result<(Unit, T), CompileError>, r: Result<T, CompileError>, after: Unit) {
    match spec
    case Ok((c, x)) => r == Ok(x) && after == c
    case Err(e) => r == Err(e)
  }

  /** The same for a step that returns nothing but may throw. */
  ghost predicate Completes(spec: Result<Unit, CompileError>, thrown: Option<CompileError>, after: Unit) {
    match spec
    case Ok(c) => thrown == None && after == c
    case Err(e) => thrown == Some(e)
  }

  class ScriptCompiler {
    var code: seq<Instruction>
    var constants: seq<Value>
    var hostNames: seq<Bytes>
    var globalDefaults: seq<Value>
    var events: seq<EventEntry>
    var globals: Symbols
    var locals: Symbols
    var localCount: nat

    constructor ()
      ensures State() == EMPTY
    {
      code, constants, hostNames, globalDefaults, events := [], [], [], [], [];
      globals, locals, localCount := map[], map[], 0;
    }

    ghost function State(): Unit
      reads this
    {
      Unit(code, constants, hostNames, globalDefaults, events, globals, locals, localCount)
    }

    method EmitOp(op: Op, a: int, b: int) returns (at: nat)
      modifies this`code
      ensures State() == Emit(old(State()), op, a, b) && at == |old(code)|
    {
      code := code + [Instruction(op, a, b)];
      at := |code| - 1;
    }

    method PatchTarget(at: nat, target: int)
      requires at < |code|
      modifies this`code
      ensures State() == Patch(old(State()), at, target)
    {
      code := code[at := code[at].(a := target)];
    }

    method AddConstant(v: Value) returns (index: nat)
      modifies this`constants
      ensures State() == InternConstant(old(State()), v) && index == IndexOf(old(constants), v)
    {
      var i := 0;
      while i < |constants|
        invariant i <= |constants|
        invariant forall j :: 0 <= j < i ==> constants[j] != v
      {
        if constants[i] == v {
          return i;
        }
        i := i + 1;
      }
      constants := constants + [v];
      index := |constants| - 1;
    }

    method AddHost(name: Bytes) returns (index: nat)
      modifies this`hostNames
      ensures State() == InternHost(old(State()), name) && index == IndexOf(old(hostNames), name)
    {
      var i := 0;
      while i < |hostNames|
        invariant i <= |hostNames|
        invariant forall j :: 0 <= j < i ==> hostNames[j] != name
      {
        if hostNames[i] == name {
          return i;
        }
        i := i + 1;
      }
      hostNames := hostNames + [name];
      index := |hostNames| - 1;
    }

    method PushConstant(v: Value)
      modifies this`constants, this`code
      ensures State() == EmitConstant(old(State()), v)
    {
      var index := AddConstant(v);
      var _ := EmitOp(PushConst, index, 0);
    }

    method ResolveName(name: Bytes) returns (r: Result<Symbol, CompileError>)
      ensures r == Resolve(State(), name)
    {
      if name in locals {
        return Ok(locals[name]);
      }
      if name in globals {
        return Ok(globals[name]);
      }
      return Err(Undeclared(name));
    }

    method Expression(e: Expr) returns (r: Result<Type, CompileError>)
      modifies this`code, this`constants, this`hostNames
      ensures Follows(CompileExpr(old(State()), e), r, State())
      decreases e, 1
    {
      hide EmitConstant, InternHost;
      match e {
        case IntLiteral(n) =>
          PushConstant(Int(n));
          return Ok(Integer);
        case StringLiteral(s) =>
          PushConstant(Str(s));
          return Ok(Text);
        case VarRef(name) =>
          var sym := ResolveName(name);
          if sym.Err? {
            return Err(sym.error);
          }
          var _ := EmitOp(if sym.value.scope.Global? then LoadGlobal else LoadLocal, sym.value.slot, 0);
          return Ok(sym.value.ty);
        case Cast(target, operand) =>
          var t := Expression(operand);
          if t.Err? {
            return t;
          }
          if target == Text {
            if t.value == Integer {
              var _ := EmitOp(CastIntToStr, 0, 0);
            } else if t.value != Text {
              return Err(CannotCastVoid);
            }
            return Ok(Text);
          }
          if t.value != Integer {
            return Err(CannotCastToInteger);
          }
          return Ok(Integer);
        case Binary(op, lhs, rhs) =>
          r := BinaryExpression(op, lhs, rhs);
        case Call(callee, args) =>
          r := CallExpression(callee, args);
      }
    }

    method BinaryExpression(op: BinaryOp, lhs: Expr, rhs: Expr) returns (r: Result<Type, CompileError>)
      modifies this`code, this`constants, this`hostNames
      ensures Follows(CompileExpr(old(State()), Binary(op, lhs, rhs)), r, State())
      decreases Binary(op, lhs, rhs), 0
    {
      hide EmitConstant, Resolve, LookupHost, CompileArgs, OpcodeOf;
      var lt := Expression(lhs);
      if lt.Err? {
        return lt;
      }
      var rt := Expression(rhs);
      if rt.Err? {
        return rt;
      }
      if lt.value == Integer && rt.value == Integer {
        var _ := EmitOp(OpcodeOf(op), 0, 0);
        return Ok(Integer);
      }
      if op == Add && lt.value == Text && rt.value == Text {
        var _ := EmitOp(ConcatStr, 0, 0);
        return Ok(Text);
      }
      return Err(if op == Add then BadAddition else OperatorRequiresIntegers(op));
    }

    method CallExpression(callee: Bytes, args: seq<Expr>) returns (r: Result<Type, CompileError>)
      modifies this`code, this`constants, this`hostNames
      ensures Follows(CompileExpr(old(State()), Call(callee, args)), r, State())
      decreases Call(callee, args), 0
    {
      hide InternHost, LookupHost;
      var found := LookupHost(callee);
      if found.None? {
        return Err(UnknownFunction(callee));
      }
      var types := found.value.params;
      if |args| != |types| {
        return Err(WrongArgumentCount(callee));
      }
      ghost var before := State();
      var i := 0;
      while i < |args|
        invariant i <= |args|
        invariant CompileArgs(before, callee, args, types, 0) == CompileArgs(State(), callee, args[i..], types[i..], i)
      {
        assert args[i..][1..] == args[i + 1..] && types[i..][1..] == types[i + 1..];
        var t := Expression(args[i]);
        if t.Err? {
          return t;
        }
        if t.value != types[i] {
          return Err(WrongArgumentType(callee, i + 1));
        }
        i := i + 1;
      }
      var index := AddHost(callee);
      var _ := EmitOp(CallHost, index, |args|);
      return Ok(found.value.result);
    }

    method Condition(e: Expr) returns (thrown: Option<CompileError>)
      modifies this`code, this`constants, this`hostNames
      ensures Completes(CompileCondition(old(State()), e), thrown, State())
    {
      hide CompileExpr;
      var t := Expression(e);
      match t
      case Err(x) => return Some(x);
      case Ok(ty) => return if ty == Integer then None else Some(ConditionNotInteger);
    }

    method Statement(s: Stmt) returns (thrown: Option<CompileError>)
      modifies this`code, this`constants, this`hostNames, this`locals, this`localCount
      ensures Completes(CompileStmt(old(State()), s), thrown, State())
      decreases s, 2
    {
      hide CompileExpr;
      match s {
        case Block(statements) =>
          thrown := Statements(statements);
        case VarDecl(ty, name, init) =>
          thrown := Declaration(ty, name, init);
        case Assign(name, value) =>
          var sym := ResolveName(name);
          if sym.Err? {
            return Some(sym.error);
          }
          var t := Expression(value);
          if t.Err? {
            return Some(t.error);
          }
          if t.value != sym.value.ty {
            return Some(CannotAssign(name, t.value));
          }
          var _ := EmitOp(if sym.value.scope.Global? then StoreGlobal else StoreLocal, sym.value.slot, 0);
          return None;
        case ExprStmt(expr) =>
          var t := Expression(expr);
          if t.Err? {
            return Some(t.error);
          }
          if t.value != Void {
            var _ := EmitOp(Op.Pop, 0, 0);
          }
          return None;
        case While(condition, body) =>
          thrown := WhileLoop(condition, body);
        case If(condition, thenBranch, elseBranch) =>
          thrown := Conditional(condition, thenBranch, elseBranch);
      }
    }

    method Declaration(ty: ValueType, name: Bytes, init: Option<Expr>) returns (thrown: Option<CompileError>)
      modifies this`code, this`constants, this`hostNames, this`locals, this`localCount
      ensures Completes(CompileVarDecl(old(State()), ty, name, init), thrown, State())
    {
      hide CompileExpr, EmitConstant;
      if name in locals {
        return Some(AlreadyDeclared(name));
      }
      var slot := localCount;
      localCount := localCount + 1;
      match init {
        case Some(e) =>
          var t := Expression(e);
          if t.Err? {
            return Some(t.error);
          }
          if t.value != ty {
            return Some(CannotInitialize(name, t.value));
          }
        case None =>
          PushConstant(DefaultValue(ty));
      }
      var _ := EmitOp(StoreLocal, slot, 0);
      locals := locals[name := Symbol(Local, slot, ty)];
      return None;
    }

    /** The exit jump is emitted with a placeholder target and patched once the end is known. */
    method WhileLoop(condition: Expr, body: seq<Stmt>) returns (thrown: Option<CompileError>)
      modifies this`code, this`constants, this`hostNames, this`locals, this`localCount
      ensures Completes(CompileStmt(old(State()), While(condition, body)), thrown, State())
      decreases While(condition, body), 1
    {
      hide CompileExpr, CompileBlock, CompileCondition;
      var start := |code|;
      var failed := Condition(condition);
      if failed.Some? {
        return failed;
      }
      var exitJump := EmitOp(JumpIfZero, 0, 0);
      ghost var inner := State();
      thrown := Statements(body);
      if thrown.Some? {
        return;
      }
      assert Extends(inner, State());
      var _ := EmitOp(Jump, start, 0);
      PatchTarget(exitJump, |code|);
    }

    method Conditional(condition: Expr, thenBranch: seq<Stmt>, elseBranch: ElseBranch) returns (thrown: Option<CompileError>)
      modifies this`code, this`constants, this`hostNames, this`locals, this`localCount
      ensures Completes(CompileStmt(old(State()), If(condition, thenBranch, elseBranch)), thrown, State())
      decreases If(condition, thenBranch, elseBranch), 1
    {
      hide CompileExpr, CompileBlock, CompileCondition;
      var failed := Condition(condition);
      if failed.Some? {
        return failed;
      }
      var elseJump := EmitOp(JumpIfZero, 0, 0);
      ghost var c2 := State();
      thrown := Statements(thenBranch);
      if thrown.Some? {
        return;
      }
      assert Extends(c2, State());
      match elseBranch {
        case Else(body) =>
          var endJump := EmitOp(Jump, 0, 0);
          PatchTarget(elseJump, |code|);
          ghost var c5 := State();
          thrown := Statements(body);
          if thrown.Some? {
            return;
          }
          assert Extends(c5, State());
          PatchTarget(endJump, |code|);
        case NoElse =>
          PatchTarget(elseJump, |code|);
      }
    }

    method Statements(ss: seq<Stmt>) returns (thrown: Option<CompileError>)
      modifies this`code, this`constants, this`hostNames, this`locals, this`localCount
      ensures Completes(CompileBlock(old(State()), ss), thrown, State())
      decreases ss, 0
    {
      hide CompileStmt;
      ghost var before := State();
      var i := 0;
      while i < |ss|
        invariant i <= |ss|
        invariant CompileBlock(before, ss) == CompileBlock(State(), ss[i..])
      {
        assert ss[i..][1..] == ss[i + 1..];
        var failed := Statement(ss[i]);
        if failed.Some? {
          return failed;
        }
        i := i + 1;
      }
      return None;
    }

    method Global(g: GlobalVar) returns (thrown: Option<CompileError>)
      modifies this`globalDefaults, this`globals
      ensures Completes(DeclareGlobal(old(State()), g), thrown, State())
    {
      if g.name in globals {
        return Some(GlobalRedeclared(g.name));
      }
      var slot := |globalDefaults|;
      var initial := match g.init case Some(v) => v case None => DefaultValue(g.ty);
      globalDefaults := globalDefaults + [initial];
      globals := globals[g.name := Symbol(Scope.Global, slot, g.ty)];
      return None;
    }

    method Event(h: EventHandler) returns (thrown: Option<CompileError>)
      modifies this`code, this`constants, this`hostNames, this`locals, this`localCount, this`events
      ensures Completes(CompileEvent(old(State()), h), thrown, State())
    {
      hide CompileBlock, LookupEvent;
      var signature := LookupEvent(h.name);
      if signature.None? {
        return Some(UnsupportedEvent(h.name));
      }
      if FindEvent(events, h.name).Some? {
        return Some(DuplicateEvent(h.name));
      }
      if |h.params| != |signature.value| {
        return Some(WrongParameterCount(h.name));
      }
      locals := map[];
      localCount := 0;
      var entry := |code|;
      ghost var start := State();
      var types := [];
      var i := 0;
      while i < |h.params|
        invariant i <= |h.params| && types == signature.value[..i]
        invariant BindParams(start, h.name, h.params, signature.value, 0)
               == BindParams(State(), h.name, h.params, signature.value, i)
        invariant |code| == entry && events == old(events)
      {
        var param := h.params[i];
        if param.ty != signature.value[i] {
          return Some(WrongParameterType(h.name, i + 1));
        }
        var slot := localCount;
        localCount := localCount + 1;
        if param.name !in locals {
          locals := locals[param.name := Symbol(Local, slot, param.ty)];
        }
        types := types + [param.ty];
        i := i + 1;
      }
      assert types == signature.value;
      ghost var bound := State();
      thrown := Statements(h.body);
      if thrown.Some? {
        return;
      }
      assert Extends(bound, State());
      var _ := EmitOp(Halt, 0, 0);
      events := events + [EventEntry(h.name, entry, types, localCount)];
    }

    method Script(script: Ast.Script) returns (r: Result<Program, CompileError>)
      requires State() == EMPTY
      modifies this
      ensures r == CompileScript(script)
    {
      hide CompileEvent, DeclareGlobal;
      var i := 0;
      while i < |script.globals|
        invariant i <= |script.globals|
        invariant DeclareGlobals(EMPTY, script.globals) == DeclareGlobals(State(), script.globals[i..])
      {
        assert script.globals[i..][1..] == script.globals[i + 1..];
        var failed := Global(script.globals[i]);
        if failed.Some? {
          return Err(failed.value);
        }
        i := i + 1;
      }
      ghost var declared := State();
      i := 0;
      while i < |script.events|
        invariant i <= |script.events|
        invariant CompileEvents(declared, script.events) == CompileEvents(State(), script.events[i..])
      {
        assert script.events[i..][1..] == script.events[i + 1..];
        var failed := Event(script.events[i]);
        if failed.Some? {
          return Err(failed.value);
        }
        i := i + 1;
      }
      return Ok(Program(code, constants, hostNames, globalDefaults, events, ABI_VERSION));
    }
  }
}
