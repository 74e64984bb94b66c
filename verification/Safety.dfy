/** Every reachable state of every compiled program is safe. */
module Safety {
  import opened Prelude
  import opened Bytecode
  import opened Ast
  import opened Vm
  import opened Compiler
  import opened Evaluator
  import opened Typing
  import opened Interruption
  import opened Simulation
  import opened Correctness

  /** Operands an instruction takes from the stack, and puts back on it. */
  function Pops(i: Instruction): int {
    match i.op
    case PushConst | LoadLocal | LoadGlobal | Jump | Halt => 0
    case StoreLocal | StoreGlobal | CastIntToStr | JumpIfZero | Pop => 1
    case CallHost => i.b
    case _ => 2
  }

  function Pushes(i: Instruction): int {
    match i.op
    case PushConst | LoadLocal | LoadGlobal | CastIntToStr => 1
    case AddInt | SubInt | MulInt | ConcatStr | LessInt | GreaterInt | EqualInt => 1
    case _ => 0
  }

  /** The operand-stack depth at `ip`, counted along the code from the handler's entry. */
  function Depth(code: seq<Instruction>, entry: nat, ip: nat): int
    requires entry <= ip <= |code|
    decreases ip
  {
    if ip == entry then 0
    else Depth(code, entry, ip - 1) + Pushes(code[ip - 1]) - Pops(code[ip - 1])
  }

  /** The instruction's operands are in range. */
  ghost predicate OperandsOk(p: Program, locals: nat, i: Instruction) {
    match i.op
    case PushConst => 0 <= i.a < |p.constants|
    case LoadLocal | StoreLocal => 0 <= i.a < locals
    case LoadGlobal | StoreGlobal => 0 <= i.a < |p.globalDefaults|
    case CallHost => 0 <= i.a < |p.hostNames| && i.b >= 0
    case Halt => false
    case _ => true
  }

  /** A jump leaves an empty stack and lands, within [lo, hi], where the stack is empty. */
  ghost predicate JumpOk(p: Program, entry: nat, lo: nat, hi: nat, ip: nat)
    requires entry <= lo <= hi <= |p.code| && entry <= ip < |p.code|
  {
    var i := p.code[ip];
    (i.op == Jump || i.op == JumpIfZero) ==>
      lo <= i.a <= hi && Depth(p.code, entry, i.a) == 0 && Depth(p.code, entry, ip) == Pops(i)
  }

  ghost predicate SafeAt(p: Program, entry: nat, lo: nat, hi: nat, locals: nat, ip: nat)
    requires entry <= lo <= hi <= |p.code| && entry <= ip < |p.code|
  {
    OperandsOk(p, locals, p.code[ip]) && JumpOk(p, entry, lo, hi, ip)
    && Depth(p.code, entry, ip) >= Pops(p.code[ip])
  }

  /** Every instruction of the code between `lo` and `hi` is safe. */
  ghost predicate SafeCode(p: Program, entry: nat, lo: nat, hi: nat, locals: nat) {
    entry <= lo <= hi <= |p.code|
    && forall ip :: lo <= ip < hi ==> SafeAt(p, entry, lo, hi, locals, ip)
  }

  lemma SafeJoin(p: Program, entry: nat, lo: nat, mid: nat, hi: nat, locals: nat)
    requires SafeCode(p, entry, lo, mid, locals) && SafeCode(p, entry, mid, hi, locals)
    ensures SafeCode(p, entry, lo, hi, locals)
  {
    forall ip | lo <= ip < hi
      ensures SafeAt(p, entry, lo, hi, locals, ip)
    {
      if ip < mid {
        assert SafeAt(p, entry, lo, mid, locals, ip);
      } else {
        assert SafeAt(p, entry, mid, hi, locals, ip);
      }
    }
  }

  /** One more instruction, which is not a jump. */
  lemma SafeStep(p: Program, entry: nat, lo: nat, ip: nat, locals: nat)
    requires SafeCode(p, entry, lo, ip, locals) && ip < |p.code|
    requires OperandsOk(p, locals, p.code[ip]) && p.code[ip].op != Jump && p.code[ip].op != JumpIfZero
    requires Depth(p.code, entry, ip) >= Pops(p.code[ip])
    ensures SafeCode(p, entry, lo, ip + 1, locals)
    ensures Depth(p.code, entry, ip + 1) == Depth(p.code, entry, ip) + Pushes(p.code[ip]) - Pops(p.code[ip])
  {
    assert SafeCode(p, entry, ip, ip + 1, locals);
    SafeJoin(p, entry, lo, ip, ip + 1, locals);
  }

  /** The code from `c` to `d` is safe and changes the depth by `net`. */
  ghost predicate SafeFrom(p: Program, entry: nat, c: Unit, d: Unit, locals: nat, net: int) {
    && SafeCode(p, entry, |c.code|, |d.code|, locals)
    && Depth(p.code, entry, |d.code|) == Depth(p.code, entry, |c.code|) + net
  }

  ghost predicate Placeable(p: Program, entry: nat, c: Unit, locals: nat) {
    && WellScoped(c) && c.localCount <= locals && |c.globalDefaults| == |p.globalDefaults|
    && entry <= |c.code| <= |p.code| && Depth(p.code, entry, |c.code|) >= 0
  }

  lemma {:induction false} ExprSafe(p: Program, entry: nat, c: Unit, e: Expr, locals: nat)
    requires CompileExpr(c, e).Ok? && Within(p, c, CompileExpr(c, e).value.0) && Placeable(p, entry, c, locals)
    ensures var (d, t) := CompileExpr(c, e).value;
      |c.code| <= |d.code| && SafeFrom(p, entry, c, d, locals, if t == Void then 0 else 1)
    decreases e, 1
  {
    ExprExtends(c, e);
    var (d, t) := CompileExpr(c, e).value;
    match e {
      case IntLiteral(_) => LastSafe(p, entry, c, d, locals);
      case StringLiteral(_) => LastSafe(p, entry, c, d, locals);
      case VarRef(_) => LastSafe(p, entry, c, d, locals);
      case Cast(target, operand) => CastSafe(p, entry, c, e, locals);
      case Binary(_, _, _) => BinarySafe(p, entry, c, e, locals);
      case Call(_, _) => CallSafe(p, entry, c, e, locals);
    }
  }

  /** A single emitted instruction that only pushes. */
  lemma LastSafe(p: Program, entry: nat, c: Unit, d: Unit, locals: nat)
    requires Within(p, c, d) && Placeable(p, entry, c, locals) && |d.code| == |c.code| + 1
    requires OperandsOk(p, locals, d.code[|c.code|]) && Pops(d.code[|c.code|]) == 0
    requires d.code[|c.code|].op in {PushConst, LoadLocal, LoadGlobal}
    ensures SafeFrom(p, entry, c, d, locals, 1)
  {
    SafeStep(p, entry, |c.code|, |c.code|, locals);
  }

  lemma CastPieces(p: Program, c: Unit, e: Expr) returns (c1: Unit, t: Type)
    requires e.Cast? && CompileExpr(c, e).Ok? && Within(p, c, CompileExpr(c, e).value.0)
    ensures CompileExpr(c, e.operand).Ok? && Within(p, c, c1) && t != Void
    ensures c1 == CompileExpr(c, e.operand).value.0 && t == CompileExpr(c, e.operand).value.1
    ensures var d := CompileExpr(c, e).value.0;
      if e.target == Text && t == Integer then
        |d.code| == |c1.code| + 1 <= |p.code| && p.code[|c1.code|] == Instruction(CastIntToStr, 0, 0)
      else d == c1
  {
    c1, t := CompileExpr(c, e.operand).value.0, CompileExpr(c, e.operand).value.1;
    ExprExtends(c, e.operand);
    var d := CompileExpr(c, e).value.0;
    if e.target == Text && t == Integer {
      assert p.code[|c1.code|] == d.code[|c1.code|];
    }
  }

  lemma {:induction false} CastSafe(p: Program, entry: nat, c: Unit, e: Expr, locals: nat)
    requires e.Cast?
    requires CompileExpr(c, e).Ok? && Within(p, c, CompileExpr(c, e).value.0) && Placeable(p, entry, c, locals)
    ensures SafeFrom(p, entry, c, CompileExpr(c, e).value.0, locals, 1)
    decreases e, 0
  {
    hide SafeCode, WellScoped, CompileExpr;
    var c1, t := CastPieces(p, c, e);
    ExprSafe(p, entry, c, e.operand, locals);
    if e.target == Text && t == Integer {
      assert OperandsOk(p, locals, p.code[|c1.code|]);
      SafeStep(p, entry, |c.code|, |c1.code|, locals);
    }
  }

  lemma {:induction false} BinarySafe(p: Program, entry: nat, c: Unit, e: Expr, locals: nat)
    requires e.Binary?
    requires CompileExpr(c, e).Ok? && Within(p, c, CompileExpr(c, e).value.0) && Placeable(p, entry, c, locals)
    ensures SafeFrom(p, entry, c, CompileExpr(c, e).value.0, locals, 1)
    decreases e, 0
  {
    hide SafeCode, WellScoped, CompileExpr, Within, EnvOf;
    BinaryLayout(p, c, e);
    var c1 := CompileExpr(c, e.lhs).value.0;
    var c2 := CompileExpr(c1, e.rhs).value.0;
    ScopeKept(c, c1);
    ExprSafe(p, entry, c, e.lhs, locals);
    ExprSafe(p, entry, c1, e.rhs, locals);
    SafeJoin(p, entry, |c.code|, |c1.code|, |c2.code|, locals);
    SafeStep(p, entry, |c.code|, |c2.code|, locals);
  }

  lemma ScopeKept(c: Unit, d: Unit)
    requires WellScoped(c) && Extends(c, d) && SameScope(c, d)
    ensures WellScoped(d)
  {
  }

  lemma {:induction false} CallSafe(p: Program, entry: nat, c: Unit, e: Expr, locals: nat)
    requires e.Call?
    requires CompileExpr(c, e).Ok? && Within(p, c, CompileExpr(c, e).value.0) && Placeable(p, entry, c, locals)
    ensures CompileExpr(c, e).value.1 == Void
    ensures SafeFrom(p, entry, c, CompileExpr(c, e).value.0, locals, 0)
    decreases e, 0
  {
    hide SafeCode, WellScoped;
    var types := LookupHost(e.callee).value.params;
    var c1 := CompileArgs(c, e.callee, e.args, types, 0).value;
    var d := CompileExpr(c, e).value.0;
    ArgsExtend(c, e.callee, e.args, types, 0);
    assert Within(p, c, c1);
    ArgsSafe(p, entry, c, e.callee, e.args, types, 0, locals);
    assert p.code[|c1.code|] == d.code[|c1.code|];
    SafeStep(p, entry, |c.code|, |c1.code|, locals);
  }

  lemma {:induction false} ArgsSafe(p: Program, entry: nat, c: Unit, callee: Bytes, args: seq<Expr>,
                                    types: seq<ValueType>, position: nat, locals: nat)
    requires |args| == |types| && CompileArgs(c, callee, args, types, position).Ok?
    requires Within(p, c, CompileArgs(c, callee, args, types, position).value) && Placeable(p, entry, c, locals)
    ensures SafeFrom(p, entry, c, CompileArgs(c, callee, args, types, position).value, locals, |args|)
    decreases args, 0
  {
    if args != [] {
      hide SafeCode, WellScoped, CompileExpr;
      var c1 := CompileExpr(c, args[0]).value.0;
      var d := CompileArgs(c, callee, args, types, position).value;
      ExprExtends(c, args[0]);
      ArgsExtend(c1, callee, args[1..], types[1..], position + 1);
      assert Within(p, c, c1) && Within(p, c1, d);
      ScopeKept(c, c1);
      ExprSafe(p, entry, c, args[0], locals);
      ArgsSafe(p, entry, c1, callee, args[1..], types[1..], position + 1, locals);
      SafeJoin(p, entry, |c.code|, |c1.code|, |d.code|, locals);
    }
  }

  // ----- statements: the stack is empty before and after each -----

  ghost predicate StartsEmpty(p: Program, entry: nat, c: Unit, locals: nat) {
    Placeable(p, entry, c, locals) && Depth(p.code, entry, |c.code|) == 0
  }

  lemma {:induction false} StmtSafe(p: Program, entry: nat, c: Unit, s: Stmt, locals: nat)
    requires CompileStmt(c, s).Ok? && Within(p, c, CompileStmt(c, s).value) && StartsEmpty(p, entry, c, locals)
    requires CompileStmt(c, s).value.localCount <= locals
    ensures SafeFrom(p, entry, c, CompileStmt(c, s).value, locals, 0)
    decreases s, 1
  {
    match s {
      case Block(statements) => BlockSafe(p, entry, c, statements, locals);
      case VarDecl(_, _, _) => VarDeclSafe(p, entry, c, s, locals);
      case Assign(_, _) => AssignSafe(p, entry, c, s, locals);
      case ExprStmt(_) => ExprStmtSafe(p, entry, c, s, locals);
      case While(_, _) => WhileSafe(p, entry, c, s, locals);
      case If(_, _, _) => IfSafe(p, entry, c, s, locals);
    }
  }

  lemma {:induction false} BlockSafe(p: Program, entry: nat, c: Unit, ss: seq<Stmt>, locals: nat)
    requires CompileBlock(c, ss).Ok? && Within(p, c, CompileBlock(c, ss).value) && StartsEmpty(p, entry, c, locals)
    requires CompileBlock(c, ss).value.localCount <= locals
    ensures SafeFrom(p, entry, c, CompileBlock(c, ss).value, locals, 0)
    decreases ss, 0
  {
    if ss != [] {
      hide SafeCode, WellScoped, CompileStmt;
      var c1 := CompileStmt(c, ss[0]).value;
      var d := CompileBlock(c, ss).value;
      assert Extends(c, c1) && Extends(c1, d);
      assert Within(p, c, c1) && Within(p, c1, d);
      StmtSafe(p, entry, c, ss[0], locals);
      StmtScopes(c, ss[0]);
      BlockSafe(p, entry, c1, ss[1..], locals);
      SafeJoin(p, entry, |c.code|, |c1.code|, |d.code|, locals);
    }
  }

  lemma AssignSafe(p: Program, entry: nat, c: Unit, s: Stmt, locals: nat)
    requires s.Assign?
    requires CompileStmt(c, s).Ok? && Within(p, c, CompileStmt(c, s).value) && StartsEmpty(p, entry, c, locals)
    ensures SafeFrom(p, entry, c, CompileStmt(c, s).value, locals, 0)
  {
    hide SafeCode, CompileExpr;
    var (c1, t) := CompileExpr(c, s.value).value;
    var sym := Resolve(c, s.name).value;
    var d := CompileStmt(c, s).value;
    ExprExtends(c, s.value);
    assert Within(p, c, c1);
    ExprSafe(p, entry, c, s.value, locals);
    assert p.code[|c1.code|] == d.code[|c1.code|];
    assert OperandsOk(p, locals, p.code[|c1.code|]);
    SafeStep(p, entry, |c.code|, |c1.code|, locals);
  }

  lemma ExprStmtSafe(p: Program, entry: nat, c: Unit, s: Stmt, locals: nat)
    requires s.ExprStmt?
    requires CompileStmt(c, s).Ok? && Within(p, c, CompileStmt(c, s).value) && StartsEmpty(p, entry, c, locals)
    ensures SafeFrom(p, entry, c, CompileStmt(c, s).value, locals, 0)
  {
    if s.expr.Call? {
      CallSafe(p, entry, c, s.expr, locals);
    } else {
      hide SafeCode, CompileExpr, CompileStmt, WellScoped, Within, Placed;
      var d := CompileStmt(c, s).value;
      PlacedInOwnLayout(d);
      DiscardLayout(p, LayoutOf(d), c, s);
      var c1 := CompileExpr(c, s.expr).value.0;
      ExprSafe(p, entry, c, s.expr, locals);
      SafeStep(p, entry, |c.code|, |c1.code|, locals);
    }
  }

  lemma PlacedInOwnLayout(c: Unit)
    ensures Placed(c, LayoutOf(c))
  {
  }

  lemma VarDeclSafe(p: Program, entry: nat, c: Unit, s: Stmt, locals: nat)
    requires s.VarDecl?
    requires CompileStmt(c, s).Ok? && Within(p, c, CompileStmt(c, s).value) && StartsEmpty(p, entry, c, locals)
    requires CompileStmt(c, s).value.localCount <= locals
    ensures SafeFrom(p, entry, c, CompileStmt(c, s).value, locals, 0)
  {
    hide SafeCode, CompileExpr, CompileStmt, CompileInit, Within, Placed;
    var c0 := c.(localCount := c.localCount + 1);
    PlacedInOwnLayout(CompileStmt(c, s).value);
    VarDeclLayout(p, LayoutOf(CompileStmt(c, s).value), c, s);
    assert c0.localCount <= locals by { VarDeclCount(c, s); }
    var c1 := CompileInit(c0, s.ty, s.name, s.init).value;
    InitSafe(p, entry, c0, s, locals);
    SafeStep(p, entry, |c.code|, |c1.code|, locals);
  }

  lemma VarDeclCount(c: Unit, s: Stmt)
    requires s.VarDecl? && CompileStmt(c, s).Ok?
    ensures c.localCount + 1 <= CompileStmt(c, s).value.localCount
  {
    hide CompileInit;
  }

  lemma InitSafe(p: Program, entry: nat, c: Unit, s: Stmt, locals: nat)
    requires s.VarDecl? && CompileInit(c, s.ty, s.name, s.init).Ok?
    requires Within(p, c, CompileInit(c, s.ty, s.name, s.init).value) && Placeable(p, entry, c, locals)
    ensures SafeFrom(p, entry, c, CompileInit(c, s.ty, s.name, s.init).value, locals, 1)
  {
    hide SafeCode, CompileExpr;
    match s.init {
      case None => LastSafe(p, entry, c, CompileInit(c, s.ty, s.name, s.init).value, locals);
      case Some(e) => ExprSafe(p, entry, c, e, locals);
    }
  }

  /** A condition and the branch after it, whose target has an empty stack. */
  lemma ConditionSafe(p: Program, entry: nat, c: Unit, e: Expr, hi: nat, locals: nat)
    requires CompileCondition(c, e).Ok? && Within(p, c, CompileCondition(c, e).value) && StartsEmpty(p, entry, c, locals)
    requires |CompileCondition(c, e).value.code| < hi <= |p.code|
    requires p.code[|CompileCondition(c, e).value.code|].op == JumpIfZero
    ensures var at := |CompileCondition(c, e).value.code|;
      && |c.code| <= at && SafeCode(p, entry, |c.code|, at, locals)
      && Depth(p.code, entry, at) == 1 && Depth(p.code, entry, at + 1) == 0
  {
    hide CompileExpr;
    ExprExtends(c, e);
    ExprSafe(p, entry, c, e, locals);
  }

  /** A jump that leaves an empty stack and lands, between `lo` and `hi`, on an empty stack. */
  ghost predicate JumpFits(p: Program, entry: nat, lo: nat, hi: nat, ip: nat) {
    && entry <= lo <= ip < hi <= |p.code| && p.code[ip].op in {Jump, JumpIfZero} && lo <= p.code[ip].a <= hi
    && Depth(p.code, entry, ip) == Pops(p.code[ip]) && Depth(p.code, entry, p.code[ip].a) == 0
  }

  /** Three stretches of safe code around one or two jumps. */
  lemma JoinAroundJumps(p: Program, entry: nat, lo: nat, at: nat, mid: nat, hi: nat, locals: nat)
    requires entry <= lo <= at < mid <= hi <= |p.code|
    requires SafeCode(p, entry, lo, at, locals) && JumpFits(p, entry, lo, hi, at) && SafeCode(p, entry, at + 1, mid, locals)
    requires mid < hi ==> JumpFits(p, entry, lo, hi, mid) && SafeCode(p, entry, mid + 1, hi, locals)
    ensures SafeCode(p, entry, lo, hi, locals)
  {
    forall ip | lo <= ip < hi
      ensures SafeAt(p, entry, lo, hi, locals, ip)
    {
      if ip < at {
        assert SafeAt(p, entry, lo, at, locals, ip);
      } else if at < ip < mid {
        assert SafeAt(p, entry, at + 1, mid, locals, ip);
      } else if mid < ip {
        assert SafeAt(p, entry, mid + 1, hi, locals, ip);
      }
    }
  }

  lemma {:induction false} WhileSafe(p: Program, entry: nat, c: Unit, s: Stmt, locals: nat)
    requires s.While?
    requires CompileStmt(c, s).Ok? && Within(p, c, CompileStmt(c, s).value) && StartsEmpty(p, entry, c, locals)
    requires CompileStmt(c, s).value.localCount <= locals
    ensures SafeFrom(p, entry, c, CompileStmt(c, s).value, locals, 0)
    decreases s, 0
  {
    hide CompileExpr, CompileCondition, CompileBlock, CompileStmt, SafeCode, SafeAt, WellScoped;
    var lay := LayoutOf(CompileStmt(c, s).value);
    WhileLayout(p, lay, c, s);
    var c1 := CompileCondition(c, s.condition).value;
    var c2 := Emit(c1, JumpIfZero, 0, 0);
    var c3 := CompileBlock(c2, s.body).value;
    var d := CompileStmt(c, s).value;
    var lo, at, back, hi := |c.code|, |c1.code|, |c3.code|, |d.code|;
    assert hi == back + 1 by { WhileEnd(c, s); }
    ConditionSafe(p, entry, c, s.condition, hi, locals);
    ConditionTypes(c, s.condition);
    ScopeKept(c, c2);
    assert Extends(c2, c3) && c3.localCount <= locals by { WhileEnd(c, s); }
    BlockSafe(p, entry, c2, s.body, locals);
    assert Depth(p.code, entry, hi) == 0;
    NoCode(p, entry, hi, locals);
    JoinAroundJumps(p, entry, lo, at, back, hi, locals);
  }

  lemma NoCode(p: Program, entry: nat, at: nat, locals: nat)
    requires entry <= at <= |p.code|
    ensures SafeCode(p, entry, at, at, locals)
  {
  }

  lemma WhileEnd(c: Unit, s: Stmt)
    requires s.While? && CompileStmt(c, s).Ok?
    requires CompileCondition(c, s.condition).Ok?
    requires CompileBlock(Emit(CompileCondition(c, s.condition).value, JumpIfZero, 0, 0), s.body).Ok?
    ensures var c2 := Emit(CompileCondition(c, s.condition).value, JumpIfZero, 0, 0);
      var c3 := CompileBlock(c2, s.body).value;
      var d := CompileStmt(c, s).value;
      Extends(c2, c3) && |d.code| == |c3.code| + 1 && d.localCount == c3.localCount
  {
    hide CompileExpr, CompileCondition, CompileBlock;
  }

  /** The condition, the jump over the branch, and the branch itself. */
  lemma {:induction false} ThenSafe(p: Program, entry: nat, c: Unit, s: Stmt, locals: nat)
    requires s.If?
    requires CompileStmt(c, s).Ok? && Within(p, c, CompileStmt(c, s).value) && StartsEmpty(p, entry, c, locals)
    requires CompileStmt(c, s).value.localCount <= locals
    ensures CompileCondition(c, s.condition).Ok?
    ensures CompileBlock(Emit(CompileCondition(c, s.condition).value, JumpIfZero, 0, 0), s.thenBranch).Ok?
    ensures var c1 := CompileCondition(c, s.condition).value;
      var c3 := CompileBlock(Emit(c1, JumpIfZero, 0, 0), s.thenBranch).value;
      var at, mid := |c1.code|, |c3.code|;
      && |c.code| <= at < mid <= |p.code| && WellScoped(c3) && |c3.globalDefaults| == |p.globalDefaults|
      && SafeCode(p, entry, |c.code|, at, locals) && Depth(p.code, entry, at) == 1
      && SafeCode(p, entry, at + 1, mid, locals) && Depth(p.code, entry, mid) == 0
    decreases s, 0, 0
  {
    hide CompileExpr, CompileCondition, CompileBlock, CompileStmt, SafeCode, SafeAt, WellScoped, EnvOf, AfterBlock, LayoutOk;
    var d := CompileStmt(c, s).value;
    IfLayout(p, LayoutOf(d), c, s);
    var c1 := CompileCondition(c, s.condition).value;
    var c2 := Emit(c1, JumpIfZero, 0, 0);
    var c3 := CompileBlock(c2, s.thenBranch).value;
    ConditionSafe(p, entry, c, s.condition, |c3.code|, locals);
    ConditionTypes(c, s.condition);
    ScopeKept(c, c2);
    assert Extends(c2, c3);
    BlockScopes(c2, s.thenBranch);
    BlockSafe(p, entry, c2, s.thenBranch, locals);
  }

  lemma {:induction false} IfSafe(p: Program, entry: nat, c: Unit, s: Stmt, locals: nat)
    requires s.If?
    requires CompileStmt(c, s).Ok? && Within(p, c, CompileStmt(c, s).value) && StartsEmpty(p, entry, c, locals)
    requires CompileStmt(c, s).value.localCount <= locals
    ensures SafeFrom(p, entry, c, CompileStmt(c, s).value, locals, 0)
    decreases s, 0, 1
  {
    hide CompileExpr, CompileCondition, CompileBlock, CompileStmt, SafeCode, SafeAt, WellScoped, EnvOf, AfterBlock, LayoutOk;
    var d := CompileStmt(c, s).value;
    IfLayout(p, LayoutOf(d), c, s);
    ThenSafe(p, entry, c, s, locals);
    var c1 := CompileCondition(c, s.condition).value;
    var c3 := CompileBlock(Emit(c1, JumpIfZero, 0, 0), s.thenBranch).value;
    var lo, at, mid, hi := |c.code|, |c1.code|, |c3.code|, |d.code|;
    match s.elseBranch {
      case NoElse =>
        JoinAroundJumps(p, entry, lo, at, mid, hi, locals);
      case Else(body) =>
        ElseSafe(p, entry, c3, at, body, locals);
        JoinWithElse(p, entry, lo, at, mid, hi, locals);
    }
  }

  lemma JoinWithElse(p: Program, entry: nat, lo: nat, at: nat, mid: nat, hi: nat, locals: nat)
    requires entry <= lo <= at < mid < hi <= |p.code|
    requires p.code[at] == Instruction(JumpIfZero, mid + 1, 0) && p.code[mid] == Instruction(Jump, hi, 0)
    requires Depth(p.code, entry, at) == 1 && Depth(p.code, entry, mid) == 0
    requires Depth(p.code, entry, mid + 1) == 0 && Depth(p.code, entry, hi) == 0
    requires SafeCode(p, entry, lo, at, locals) && SafeCode(p, entry, at + 1, mid, locals) && SafeCode(p, entry, mid + 1, hi, locals)
    ensures SafeCode(p, entry, lo, hi, locals)
  {
    hide SafeCode, Depth;
    JoinAroundJumps(p, entry, lo, at, mid, hi, locals);
  }

  lemma {:induction false} ElseSafe(p: Program, entry: nat, c: Unit, at: nat, body: seq<Stmt>, locals: nat)
    requires at < |c.code|
    requires var c5 := Patch(Emit(c, Jump, 0, 0), at, |c.code| + 1);
      CompileBlock(c5, body).Ok? && Within(p, c5, CompileBlock(c5, body).value) && CompileBlock(c5, body).value.localCount <= locals
    requires WellScoped(c) && |c.globalDefaults| == |p.globalDefaults|
    requires entry <= |c.code| && Depth(p.code, entry, |c.code|) == 0 && p.code[|c.code|].op == Jump
    ensures SafeCode(p, entry, |c.code| + 1, |CompileBlock(Patch(Emit(c, Jump, 0, 0), at, |c.code| + 1), body).value.code|, locals)
    ensures Depth(p.code, entry, |CompileBlock(Patch(Emit(c, Jump, 0, 0), at, |c.code| + 1), body).value.code|) == 0
    decreases body, 1
  {
    hide CompileBlock, SafeCode;
    var c5 := Patch(Emit(c, Jump, 0, 0), at, |c.code| + 1);
    assert Extends(c5, CompileBlock(c5, body).value);
    assert Depth(p.code, entry, |c.code| + 1) == 0;
    BlockSafe(p, entry, c5, body, locals);
  }

  // ----- every reachable state -----

  /** The handler's code, from its entry to its Halt. */
  ghost predicate SafeHandler(p: Program, entry: nat, halt: nat, locals: nat) {
    && SafeCode(p, entry, entry, halt, locals) && halt < |p.code| && p.code[halt].op == Halt
    && Depth(p.code, entry, halt) == 0
  }

  /** A running machine stands inside the handler, at the depth the code dictates; a stopped
      one has left through the Halt with an empty stack, or failed a type check. */
  ghost predicate InHandler(p: Program, entry: nat, halt: nat, locals: nat, s: VmState) {
    && |s.locals| == locals && |s.globals| == |p.globalDefaults|
    && (!s.finished ==>
          entry <= s.ip <= halt && halt < |p.code| && |s.stack| == Depth(p.code, entry, s.ip) && s.error == None)
    && (s.finished && s.error == None ==> s.ip == halt + 1 && s.stack == [])
    && (s.error.Some? ==> s.finished && s.error.value in {ExpectedInteger, ExpectedStrings})
  }

  /** Only a type check can trap; otherwise the depth moves as the code says, and the next
      instruction is the following one or an empty-stack jump target. */
  ghost predicate StepsSafely(p: Program, i: Instruction, moved: VmState, r: StepResult) {
    match r
    case Next(t) =>
      && |t.locals| == |moved.locals| && |t.globals| == |moved.globals| && t.error == moved.error && !t.finished
      && |t.stack| == |moved.stack| + Pushes(i) - Pops(i)
      && (t.ip == moved.ip || ((i.op == Jump || i.op == JumpIfZero) && t.ip == i.a))
    case Trap(f, t) =>
      f in {ExpectedInteger, ExpectedStrings} && |t.locals| == |moved.locals| && |t.globals| == |moved.globals|
  }

  ghost predicate CanExecute(p: Program, i: Instruction, moved: VmState) {
    && OperandsOk(p, |moved.locals|, i) && |moved.stack| >= Pops(i) && !moved.finished
    && |moved.globals| == |p.globalDefaults| && (i.op == Jump || i.op == JumpIfZero ==> i.a >= 0)
  }

  lemma MovesSafely(p: Program, i: Instruction, moved: VmState)
    requires CanExecute(p, i, moved)
    ensures i.op in {PushConst, LoadLocal, LoadGlobal} ==> StepsSafely(p, i, moved, StepLoad(p, i, moved))
    ensures i.op in {StoreLocal, StoreGlobal, Op.Pop} ==> StepsSafely(p, i, moved, StepStore(i, moved))
  {
  }

  lemma OperatesSafely(p: Program, i: Instruction, moved: VmState)
    requires CanExecute(p, i, moved)
    ensures i.op in {AddInt, SubInt, MulInt, LessInt, GreaterInt, EqualInt} ==>
      StepsSafely(p, i, moved, StepIntegerOp(i.op, moved))
    ensures i.op == ConcatStr ==> StepsSafely(p, i, moved, StepConcat(moved))
    ensures i.op == CastIntToStr ==> StepsSafely(p, i, moved, StepCast(moved))
  {
  }

  lemma BranchesSafely(p: Program, host: Option<Host>, i: Instruction, moved: VmState)
    requires CanExecute(p, i, moved) && Silent(host)
    ensures i.op == JumpIfZero ==> StepsSafely(p, i, moved, StepBranch(i, moved))
    ensures i.op == CallHost ==> StepsSafely(p, i, moved, StepCall(p, host, i, moved))
  {
  }

  lemma ExecutesSafely(p: Program, host: Option<Host>, i: Instruction, moved: VmState)
    requires CanExecute(p, i, moved) && Silent(host)
    ensures StepsSafely(p, i, moved, Execute(p, host, i, moved))
  {
    hide StepLoad, StepStore, StepIntegerOp, StepConcat, StepCast, StepBranch, StepCall;
    MovesSafely(p, i, moved);
    OperatesSafely(p, i, moved);
    BranchesSafely(p, host, i, moved);
  }

  /** One instruction keeps a machine in its handler. */
  lemma StepStaysInHandler(p: Program, host: Option<Host>, entry: nat, halt: nat, locals: nat, s: VmState)
    requires SafeHandler(p, entry, halt, locals) && Silent(host)
    requires InHandler(p, entry, halt, locals, s) && !s.finished
    ensures InHandler(p, entry, halt, locals, Run(p, host, s, 1).state)
  {
    var i := p.code[s.ip];
    var moved := s.(ip := s.ip + 1);
    RunOne(p, host, s, i);
    if s.ip < halt {
      assert SafeAt(p, entry, entry, halt, locals, s.ip);
      ExecutesSafely(p, host, i, moved);
      assert Depth(p.code, entry, s.ip + 1) == Depth(p.code, entry, s.ip) + Pushes(i) - Pops(i);
      hide Execute, Run, OperandsOk;
    } else {
      hide Run;
      assert Execute(p, host, i, moved) == Next(moved.(finished := true));
    }
  }

  lemma {:induction false} RunStaysInHandler(p: Program, host: Option<Host>, entry: nat, halt: nat, locals: nat, s: VmState, n: nat)
    requires SafeHandler(p, entry, halt, locals) && Silent(host) && InHandler(p, entry, halt, locals, s)
    ensures InHandler(p, entry, halt, locals, Run(p, host, s, n).state)
    decreases n
  {
    hide InHandler, SafeHandler, Step, Silent;
    if n > 0 {
      if s.finished {
        assert Run(p, host, s, n).state == s;
      } else {
        StepStaysInHandler(p, host, entry, halt, locals, s);
        RunStaysInHandler(p, host, entry, halt, locals, Run(p, host, s, 1).state, n - 1);
        RunSplit(p, host, s, 1, n - 1);
      }
    }
  }

  /** Where the i-th handler begins and halts, and how many slots it has. */
  lemma HandlerIsSafe(script: Script, p: Program, i: nat) returns (entry: nat, halt: nat, locals: nat)
    requires CompileScript(script) == Ok(p) && i < |script.events|
    ensures SafeHandler(p, entry, halt, locals)
    ensures FindEvent(p.events, script.events[i].name).Some?
    ensures var e := FindEvent(p.events, script.events[i].name).value;
      e.entryIp == entry && e.localCount == locals
  {
    hide CompileScript, SafeCode, LayoutOk, WellScoped, SlotsCoverParameters, FindEvent, CompileBlock;
    var x, types := ScriptHandler(script, p, i);
    entry, halt, locals := |x.start.code|, |x.end.code|, x.end.localCount;
    assert WellScoped(x.bound) by { BoundIsScoped(x, script.events[i], types, script.globals); }
    assert StartsEmpty(p, entry, x.bound, locals);
    BlockSafe(p, entry, x.bound, script.events[i].body, locals);
  }

  lemma BoundIsScoped(x: Handler, h: EventHandler, types: seq<ValueType>, gs: seq<GlobalVar>)
    requires IsHandler(x, h, types) && GlobalsInOrder(x.start, gs) && SlotsOk(x.start.globals, Global, |gs|)
    ensures WellScoped(x.bound)
  {
    BoundScope(x, h, types);
  }

  /** In every state reachable from dispatching any handler of any compiled script: the
      instruction pointer is inside the handler, the stack has the static depth, and no
      underflow, range fault or missing-host fault has occurred. */
  lemma ReachableStatesAreSafe(script: Script, p: Program, host: Option<Host>, i: nat, args: seq<Value>, v0: VmState, n: nat)
      returns (entry: nat, halt: nat, locals: nat)
    requires CompileScript(script) == Ok(p) && Silent(host) && i < |script.events|
    requires |v0.globals| == |p.globalDefaults| && SlotsCoverParameters(p)
    requires Dispatch(p, v0, script.events[i].name, args).Ok?
    ensures SafeHandler(p, entry, halt, locals)
    ensures InHandler(p, entry, halt, locals,
                      Run(p, host, Dispatch(p, v0, script.events[i].name, args).value, n).state)
  {
    hide CompileScript, SafeHandler, Run, Silent;
    entry, halt, locals := HandlerIsSafe(script, p, i);
    var v := Dispatch(p, v0, script.events[i].name, args).value;
    FindEventSlots(p.events, script.events[i].name);
    assert InHandler(p, entry, halt, locals, v) by { EntryDepth(p, entry, halt, locals); }
    RunStaysInHandler(p, host, entry, halt, locals, v, n);
  }

  lemma EntryDepth(p: Program, entry: nat, halt: nat, locals: nat)
    requires SafeHandler(p, entry, halt, locals)
    ensures entry <= halt < |p.code| && Depth(p.code, entry, entry) == 0
  {
  }
}
