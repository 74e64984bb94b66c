/** Parsing what was printed gives back the tree. */
module ParseInverse {
  import opened Prelude
  import opened Bytecode
  import opened Ast
  import opened Lexer
  import opened SourceText
  import opened Parser
  import opened Printer

  /** The printed tokens stand at a position of the list, on whatever lines. */
  ghost predicate Here(ts: TokenList, pos: nat, piece: seq<Token>) {
    pos + |piece| < |ts| && forall i :: 0 <= i < |piece| ==> Same(ts[pos + i], piece[i])
  }

  lemma HereSplit(ts: TokenList, pos: nat, a: seq<Token>, b: seq<Token>)
    requires Here(ts, pos, a + b)
    ensures Here(ts, pos, a) && Here(ts, pos + |a|, b)
  {
    forall i | 0 <= i < |a|
      ensures Same(ts[pos + i], a[i])
    {
      assert (a + b)[i] == a[i];
    }
    forall i | 0 <= i < |b|
      ensures Same(ts[pos + |a| + i], b[i])
    {
      assert (a + b)[|a| + i] == b[i];
    }
  }

  lemma KindHere(ts: TokenList, pos: nat, piece: seq<Token>)
    requires Terminated(ts) && Here(ts, pos, piece) && piece != []
    ensures pos < |ts| && KindAt(ts, pos) == piece[0].kind
  {
    assert Same(ts[pos + 0], piece[0]);
  }

  /** What may come after an expression printed at a level. */
  ghost predicate MayFollow(ts: TokenList, pos: nat, level: int)
    requires Terminated(ts)
  {
    pos < |ts| && Precedence(KindAt(ts, pos)) <= level && KindAt(ts, pos) != LParen
  }

  /** The first token of an expression: never a type, so never mistaken for a cast. */
  lemma {:induction false} FirstOfExpr(e: Expr, level: int)
    ensures PrintExpr(e, level) != []
    ensures PrintExpr(e, level)[0].kind in {IntToken, StringToken, IdentifierToken, LParen}
    decreases e
  {
    match e
    case Binary(op, lhs, _) => FirstOfExpr(lhs, LevelOf(op));
    case _ =>
  }

  predicate Closed(e: Expr, level: int) {
    e.Binary? ==> LevelOf(e.op) < level
  }

  /** An expression that is not an open operator is read whole by the unary parser. */
  lemma {:induction false} UnaryReads(ts: TokenList, pos: nat, e: Expr, level: int)
    requires Terminated(ts) && Here(ts, pos, PrintExpr(e, level)) && Closed(e, level)
    requires MayFollow(ts, pos + |PrintExpr(e, level)|, UNARY)
    ensures ParseUnary(ts, pos) == Parsed(e, pos + |PrintExpr(e, level)|)
    decreases e, 2
  {
    match e {
      case IntLiteral(n) => assert Same(ts[pos], PrintExpr(e, level)[0]);
      case StringLiteral(s) => assert Same(ts[pos], PrintExpr(e, level)[0]);
      case VarRef(name) => assert Same(ts[pos], PrintExpr(e, level)[0]);
      case Cast(target, operand) => CastReads(ts, pos, e, level);
      case Call(callee, args) => CallReads(ts, pos, e, level);
      case Binary(op, lhs, rhs) => GroupReads(ts, pos, e, level);
    }
  }

  lemma {:induction false} CastReads(ts: TokenList, pos: nat, e: Expr, level: int)
    requires e.Cast? && Terminated(ts) && Here(ts, pos, PrintExpr(e, level))
    requires MayFollow(ts, pos + |PrintExpr(e, level)|, UNARY)
    ensures ParseUnary(ts, pos) == Parsed(e, pos + |PrintExpr(e, level)|)
    decreases e, 1
  {
    var head := [Sign(LParen), TypeWord(e.target), Sign(RParen)];
    HereSplit(ts, pos, head, PrintExpr(e.operand, UNARY));
    assert Same(ts[pos], head[0]) && Same(ts[pos + 1], head[1]) && Same(ts[pos + 2], head[2]);
    AlwaysClosed(e.operand);
    UnaryReads(ts, pos + 3, e.operand, UNARY);
    hide PrintExpr, ParsePrimary;
    assert e.target == Text || e.target == Integer;
  }

  lemma AlwaysClosed(e: Expr)
    ensures Closed(e, UNARY)
  {
  }

  /** An operator in parentheses is read by the primary parser. */
  lemma GroupShape(e: Expr, level: int)
    requires e.Binary? && Closed(e, level)
    ensures PrintExpr(e, level) == [Sign(LParen)] + (PrintExpr(e, 0) + [Sign(RParen)])
    ensures LevelOf(e.op) > 0
  {
  }

  lemma {:induction false} GroupReads(ts: TokenList, pos: nat, e: Expr, level: int)
    requires e.Binary? && Terminated(ts) && Here(ts, pos, PrintExpr(e, level)) && Closed(e, level)
    ensures ParseUnary(ts, pos) == Parsed(e, pos + |PrintExpr(e, level)|)
    decreases e, 1
  {
    hide PrintExpr, Closed, ParseExpr;
    var body := PrintExpr(e, 0);
    GroupShape(e, level);
    FirstOfExpr(e, 0);
    HereSplit(ts, pos, [Sign(LParen)], body + [Sign(RParen)]);
    HereSplit(ts, pos + 1, body, [Sign(RParen)]);
    var close := pos + 1 + |body|;
    assert Same(ts[pos], Sign(LParen)) by { assert Same(ts[pos], [Sign(LParen)][0]); }
    assert Same(ts[pos + 1], body[0]);
    assert Same(ts[close], [Sign(RParen)][0]);
    OperatorReads(ts, pos + 1, e, 0, 0);
  }

  lemma OpenShape(e: Expr, level: int)
    requires e.Binary? && LevelOf(e.op) >= level
    ensures PrintExpr(e, level) == PrintExpr(e.lhs, LevelOf(e.op)) + ([Sign(SignOf(e.op))] + PrintExpr(e.rhs, LevelOf(e.op) + 1))
    ensures Precedence(SignOf(e.op)) == LevelOf(e.op) >= 1 && OperatorOf(SignOf(e.op)) == e.op
  {
  }

  /** An open operator: its left operand is reached by the same loop, its right operand by a
      tighter one, and the loop then goes on from the whole. */
  lemma {:induction false} OperatorReads(ts: TokenList, pos: nat, e: Expr, level: int, min: int)
    requires e.Binary? && LevelOf(e.op) >= level >= min
    requires Terminated(ts) && Here(ts, pos, PrintExpr(e, level)) && MayFollow(ts, pos + |PrintExpr(e, level)|, level)
    ensures ParseExpr(ts, pos, min) == ParseOperators(ts, pos + |PrintExpr(e, level)|, e, min)
    decreases e, 0
  {
    hide PrintExpr, Here, ParseUnary, SignOf;
    var p := LevelOf(e.op);
    var left, right := PrintExpr(e.lhs, p), PrintExpr(e.rhs, p + 1);
    OpenShape(e, level);
    HereSplit(ts, pos, left, [Sign(SignOf(e.op))] + right);
    var at := pos + |left|;
    HereSplit(ts, at, [Sign(SignOf(e.op))], right);
    KindHere(ts, at, [Sign(SignOf(e.op))]);
    ExprReads(ts, pos, e.lhs, p, min);
    ExprReads(ts, at + 1, e.rhs, p + 1, p + 1);
  }

  /** Reading an expression printed at a level leaves the operator loop where it ends. */
  lemma {:induction false} ExprReads(ts: TokenList, pos: nat, e: Expr, level: int, min: int)
    requires Terminated(ts) && level >= min
    requires Here(ts, pos, PrintExpr(e, level)) && MayFollow(ts, pos + |PrintExpr(e, level)|, level)
    ensures ParseExpr(ts, pos, min) == ParseOperators(ts, pos + |PrintExpr(e, level)|, e, min)
    decreases e, 3
  {
    if Closed(e, level) {
      assert MayFollow(ts, pos + |PrintExpr(e, level)|, UNARY) by { LevelsAreBounded(ts, pos + |PrintExpr(e, level)|); }
      UnaryReads(ts, pos, e, level);
    } else {
      OperatorReads(ts, pos, e, level, min);
    }
  }

  lemma LevelsAreBounded(ts: TokenList, pos: nat)
    requires Terminated(ts)
    ensures Precedence(KindAt(ts, pos)) < UNARY
  {
  }

  lemma {:induction false} CallReads(ts: TokenList, pos: nat, e: Expr, level: int)
    requires e.Call? && Terminated(ts) && Here(ts, pos, PrintExpr(e, level))
    ensures ParseUnary(ts, pos) == Parsed(e, pos + |PrintExpr(e, level)|)
    decreases e, 1
  {
    hide PrintExpr, PrintArgs, ParseExpr, ParseArguments, Here;
    CallShape(e, level);
    var args := PrintArgs(e.args);
    var head := [Name(e.callee), Sign(LParen)];
    HereSplit(ts, pos, head, args + [Sign(RParen)]);
    HereSplit(ts, pos + 2, args, [Sign(RParen)]);
    CalleeHere(ts, pos, e.callee);
    KindHere(ts, pos + 2 + |args|, [Sign(RParen)]);
    if e.args == [] {
      assert args == [] by { NoArgs(); }
    } else {
      ArgsRead(ts, pos + 2, e.args);
      FirstOfExpr(e.args[0], 0);
      KindHere(ts, pos + 2, args);
    }
  }

  lemma CallShape(e: Expr, level: int)
    requires e.Call?
    ensures PrintExpr(e, level) == [Name(e.callee), Sign(LParen)] + (PrintArgs(e.args) + [Sign(RParen)])
  {
  }

  lemma CalleeHere(ts: TokenList, pos: nat, callee: Bytes)
    requires Terminated(ts) && Here(ts, pos, [Name(callee), Sign(LParen)])
    ensures KindAt(ts, pos) == IdentifierToken && ts[pos].text == callee && KindAt(ts, pos + 1) == LParen
  {
    var head := [Name(callee), Sign(LParen)];
    assert Same(ts[pos + 0], head[0]) && Same(ts[pos + 1], head[1]);
  }

  lemma NoArgs()
    ensures PrintArgs([]) == []
  {
  }

  lemma {:induction false} ArgsRead(ts: TokenList, pos: nat, args: seq<Expr>)
    requires args != [] && Terminated(ts) && Here(ts, pos, PrintArgs(args))
    requires KindAt(ts, pos + |PrintArgs(args)|) == RParen
    ensures ParseArguments(ts, pos) == Parsed(args, pos + |PrintArgs(args)|)
    ensures args != [] ==> PrintArgs(args) != [] && PrintArgs(args)[0] == PrintExpr(args[0], 0)[0]
    decreases args
  {
    hide PrintExpr, Precedence, Here, ParseExpr, KindAt;
    var first := PrintExpr(args[0], 0);
    FirstOfExpr(args[0], 0);
    SeparatorsEndExpressions();
    if |args| > 1 {
      var comma, rest := pos + |first|, PrintArgs(args[1..]);
      HereSplit(ts, pos, first, [Sign(Comma)] + rest);
      HereSplit(ts, comma, [Sign(Comma)], rest);
      KindHere(ts, comma, [Sign(Comma)]);
      ArgsRead(ts, comma + 1, args[1..]);
      WholeReads(ts, pos, args[0]);
      assert args == [args[0]] + args[1..];
    } else {
      WholeReads(ts, pos, args[0]);
      assert args == [args[0]];
    }
  }

  /** An expression followed by a separator is read whole. */
  lemma {:induction false} WholeReads(ts: TokenList, pos: nat, e: Expr)
    requires Terminated(ts) && Here(ts, pos, PrintExpr(e, 0))
    requires KindAt(ts, pos + |PrintExpr(e, 0)|) in {RParen, Comma, Semicolon}
    ensures ParseExpr(ts, pos, 0) == Parsed(e, pos + |PrintExpr(e, 0)|)
    decreases e, 4
  {
    hide PrintExpr, Precedence;
    SeparatorsEndExpressions();
    ExprReads(ts, pos, e, 0, 0);
  }

  lemma SeparatorsEndExpressions()
    ensures Precedence(RParen) == Precedence(Comma) == Precedence(Semicolon) == -1
  {
  }

  // ----- statements -----

  /** No expression contains `=`, so none is mistaken for an assignment. */
  lemma {:induction false} NoAssignSign(e: Expr, level: int)
    ensures forall i :: 0 <= i < |PrintExpr(e, level)| ==> PrintExpr(e, level)[i].kind != AssignSign
    decreases e, 1
  {
    match e
    case Cast(_, operand) => NoAssignSign(operand, UNARY);
    case Binary(op, lhs, rhs) =>
      NoAssignSign(lhs, LevelOf(op));
      NoAssignSign(rhs, LevelOf(op) + 1);
    case Call(_, args) => NoAssignSignArgs(args);
    case _ =>
  }

  lemma {:induction false} NoAssignSignArgs(args: seq<Expr>)
    ensures forall i :: 0 <= i < |PrintArgs(args)| ==> PrintArgs(args)[i].kind != AssignSign
    decreases args, 0
  {
    if args != [] {
      NoAssignSign(args[0], 0);
      NoAssignSignArgs(args[1..]);
    }
  }

  lemma EndedReads(ts: TokenList, pos: nat, e: Expr)
    requires Terminated(ts) && Here(ts, pos, PrintExpr(e, 0) + [Sign(Semicolon)])
    ensures ParseEnded(ts, pos) == Parsed(e, pos + |PrintExpr(e, 0)| + 1)
  {
    hide PrintExpr, ParseExpr;
    HereSplit(ts, pos, PrintExpr(e, 0), [Sign(Semicolon)]);
    assert Same(ts[pos + |PrintExpr(e, 0)|], [Sign(Semicolon)][0]);
    WholeReads(ts, pos, e);
  }

  lemma SimpleReads(ts: TokenList, pos: nat, s: Stmt)
    requires s.Assign? || s.ExprStmt?
    requires Terminated(ts) && Here(ts, pos, PrintStmt(s))
    ensures ParseStatement(ts, pos) == Parsed(s, pos + |PrintStmt(s)|)
  {
    hide PrintExpr, ParseEnded;
    match s {
      case Assign(name, value) =>
        var head := [Name(name), Sign(AssignSign)];
        HereSplit(ts, pos, head, PrintExpr(value, 0) + [Sign(Semicolon)]);
        assert Same(ts[pos], head[0]) && Same(ts[pos + 1], head[1]);
        EndedReads(ts, pos + 2, value);
      case ExprStmt(e) =>
        var piece := PrintExpr(e, 0) + [Sign(Semicolon)];
        EndedReads(ts, pos, e);
        FirstOfExpr(e, 0);
        NoAssignSign(e, 0);
        assert Same(ts[pos], piece[0]) && Same(ts[pos + 1], piece[1]);
    }
  }

  lemma BareDeclReads(ts: TokenList, pos: nat, s: Stmt)
    requires s.VarDecl? && s.init == None && Terminated(ts) && Here(ts, pos, PrintStmt(s))
    ensures ParseStatement(ts, pos) == Parsed(s, pos + |PrintStmt(s)|)
  {
    hide PrintExpr, ParseEnded;
    assert s.ty == Text || s.ty == Integer;
    assert Same(ts[pos], PrintStmt(s)[0]) && Same(ts[pos + 1], PrintStmt(s)[1]) && Same(ts[pos + 2], PrintStmt(s)[2]);
  }

  lemma VarDeclReads(ts: TokenList, pos: nat, s: Stmt)
    requires s.VarDecl? && Terminated(ts) && Here(ts, pos, PrintStmt(s))
    ensures ParseStatement(ts, pos) == Parsed(s, pos + |PrintStmt(s)|)
  {
    hide PrintExpr, ParseEnded;
    assert s.ty == Text || s.ty == Integer;
    match s.init {
      case None =>
        BareDeclReads(ts, pos, s);
      case Some(e) =>
        var head := [TypeWord(s.ty), Name(s.name), Sign(AssignSign)];
        HereSplit(ts, pos, head, PrintExpr(e, 0) + [Sign(Semicolon)]);
        assert Same(ts[pos], head[0]) && Same(ts[pos + 1], head[1]) && Same(ts[pos + 2], head[2]);
        hide Here, Same;
        EndedReads(ts, pos + 3, e);
    }
  }

  lemma ConditionReads(ts: TokenList, pos: nat, e: Expr)
    requires Terminated(ts) && Here(ts, pos, PrintCondition(e))
    ensures ParseCondition(ts, pos) == Parsed(e, pos + |PrintCondition(e)|)
  {
    hide PrintExpr, ParseExpr;
    HereSplit(ts, pos, [Sign(LParen)], PrintExpr(e, 0) + [Sign(RParen)]);
    HereSplit(ts, pos + 1, PrintExpr(e, 0), [Sign(RParen)]);
    assert Same(ts[pos], [Sign(LParen)][0]);
    assert Same(ts[pos + 1 + |PrintExpr(e, 0)|], [Sign(RParen)][0]);
    WholeReads(ts, pos + 1, e);
  }

  /** What may follow a statement: anything but `else`, which an if would take. */
  ghost predicate NoElseAt(ts: TokenList, pos: nat)
    requires Terminated(ts)
  {
    KindAt(ts, pos) != KwElse
  }

  lemma {:induction false} StmtReads(ts: TokenList, pos: nat, s: Stmt)
    requires Terminated(ts) && Here(ts, pos, PrintStmt(s)) && NoElseAt(ts, pos + |PrintStmt(s)|)
    ensures ParseStatement(ts, pos) == Parsed(s, pos + |PrintStmt(s)|)
    decreases s, 1
  {
    match s {
      case Block(statements) =>
        hide ParseBlock;
        BlockReads(ts, pos, statements);
        KindHere(ts, pos, PrintStmt(s));
      case VarDecl(_, _, _) => VarDeclReads(ts, pos, s);
      case Assign(_, _) => SimpleReads(ts, pos, s);
      case ExprStmt(_) => SimpleReads(ts, pos, s);
      case While(_, _) => WhileReads(ts, pos, s);
      case If(_, _, _) => IfReads(ts, pos, s);
    }
  }

  lemma {:induction false} WhileReads(ts: TokenList, pos: nat, s: Stmt)
    requires s.While? && Terminated(ts) && Here(ts, pos, PrintStmt(s))
    ensures ParseStatement(ts, pos) == Parsed(s, pos + |PrintStmt(s)|)
    decreases s, 0
  {
    hide ParseBlock, ParseCondition, PrintBlock, PrintCondition, Here;
    var condition, body := PrintCondition(s.condition), PrintBlock(s.body);
    HereSplit(ts, pos, [Keyword(KwWhile)], condition + body);
    HereSplit(ts, pos + 1, condition, body);
    KindHere(ts, pos, [Keyword(KwWhile)]);
    ConditionReads(ts, pos + 1, s.condition);
    BlockReads(ts, pos + 1 + |condition|, s.body);
  }

  lemma {:induction false} IfReads(ts: TokenList, pos: nat, s: Stmt)
    requires s.If? && Terminated(ts) && Here(ts, pos, PrintStmt(s)) && NoElseAt(ts, pos + |PrintStmt(s)|)
    ensures ParseStatement(ts, pos) == Parsed(s, pos + |PrintStmt(s)|)
    decreases s, 0
  {
    hide ParseBlock, ParseCondition, PrintBlock, PrintCondition;
    var head, condition, thenBranch := [Keyword(KwIf)], PrintCondition(s.condition), PrintBlock(s.thenBranch);
    var p1 := pos + 1 + |condition|;
    match s.elseBranch {
      case NoElse =>
        HereSplit(ts, pos, head, condition + thenBranch);
        HereSplit(ts, pos + 1, condition, thenBranch);
      case Else(body) =>
        var tail := [Keyword(KwElse)] + PrintBlock(body);
        HereSplit(ts, pos, head, condition + (thenBranch + tail));
        HereSplit(ts, pos + 1, condition, thenBranch + tail);
        HereSplit(ts, p1, thenBranch, tail);
        HereSplit(ts, p1 + |thenBranch|, [Keyword(KwElse)], PrintBlock(body));
        assert Same(ts[p1 + |thenBranch|], [Keyword(KwElse)][0]);
        BlockReads(ts, p1 + |thenBranch| + 1, body);
    }
    assert Same(ts[pos], head[0]);
    ConditionReads(ts, pos + 1, s.condition);
    BlockReads(ts, p1, s.thenBranch);
  }

  lemma {:induction false} BlockReads(ts: TokenList, pos: nat, ss: seq<Stmt>)
    requires Terminated(ts) && Here(ts, pos, PrintBlock(ss))
    ensures PrintBlock(ss) != [] && PrintBlock(ss)[0] == Sign(LBrace)
    ensures ParseBlock(ts, pos) == Parsed(ss, pos + |PrintBlock(ss)|)
    decreases ss, 2
  {
    hide PrintStmts, ParseStatements;
    HereSplit(ts, pos, [Sign(LBrace)], PrintStmts(ss) + [Sign(RBrace)]);
    HereSplit(ts, pos + 1, PrintStmts(ss), [Sign(RBrace)]);
    assert Same(ts[pos], [Sign(LBrace)][0]);
    assert Same(ts[pos + 1 + |PrintStmts(ss)|], [Sign(RBrace)][0]);
    StmtsRead(ts, pos + 1, ss);
  }

  /** The first token of a statement: never one that ends a block or belongs to an if. */
  lemma FirstOfStmt(s: Stmt)
    ensures PrintStmt(s) != [] && PrintStmt(s)[0].kind !in {RBrace, EndToken, KwElse}
  {
    hide PrintExpr;
    if s.ExprStmt? {
      FirstOfExpr(s.expr, 0);
    }
  }

  lemma {:induction false} StmtsRead(ts: TokenList, pos: nat, ss: seq<Stmt>)
    requires Terminated(ts) && Here(ts, pos, PrintStmts(ss)) && KindAt(ts, pos + |PrintStmts(ss)|) == RBrace
    ensures ParseStatements(ts, pos) == Parsed(ss, pos + |PrintStmts(ss)|)
    decreases ss, 1
  {
    hide PrintStmt, ParseStatement;
    if ss != [] {
      var first, rest := PrintStmt(ss[0]), PrintStmts(ss[1..]);
      HereSplit(ts, pos, first, rest);
      FirstOfStmt(ss[0]);
      assert Same(ts[pos], first[0]);
      if ss[1..] != [] {
        FirstOfStmt(ss[1]);
        assert rest[0] == PrintStmt(ss[1])[0];
        assert Same(ts[pos + |first|], rest[0]);
      }
      StmtReads(ts, pos, ss[0]);
      StmtsRead(ts, pos + |first|, ss[1..]);
      assert ss == [ss[0]] + ss[1..];
    }
  }

  // ----- scripts -----

  lemma GlobalReads(ts: TokenList, pos: nat, g: GlobalVar)
    requires Terminated(ts) && Here(ts, pos, PrintGlobal(g)) && g.Valid()
    ensures ParseGlobal(ts, pos) == Parsed(g, pos + |PrintGlobal(g)|)
  {
    var piece := PrintGlobal(g);
    assert g.ty == Text || g.ty == Integer;
    assert Same(ts[pos], piece[0]) && Same(ts[pos + 1], piece[1]) && Same(ts[pos + 2], piece[2]);
    if g.init.Some? {
      assert Same(ts[pos + 3], piece[3]) && Same(ts[pos + 4], piece[4]);
    }
  }

  lemma {:induction false} GlobalsRead(ts: TokenList, pos: nat, gs: seq<GlobalVar>)
    requires Terminated(ts) && Here(ts, pos, PrintGlobals(gs)) && (forall g :: g in gs ==> g.Valid())
    requires KindAt(ts, pos + |PrintGlobals(gs)|) == KwDefault
    ensures ParseGlobals(ts, pos) == Parsed(gs, pos + |PrintGlobals(gs)|)
    decreases |gs|
  {
    hide PrintGlobal, ParseGlobal, Here;
    if gs != [] {
      HereSplit(ts, pos, PrintGlobal(gs[0]), PrintGlobals(gs[1..]));
      GlobalStart(gs[0]);
      KindHere(ts, pos, PrintGlobal(gs[0]));
      GlobalReads(ts, pos, gs[0]);
      GlobalsRead(ts, pos + |PrintGlobal(gs[0])|, gs[1..]);
      assert gs == [gs[0]] + gs[1..];
    }
  }

  lemma GlobalStart(g: GlobalVar)
    ensures PrintGlobal(g) != [] && PrintGlobal(g)[0].kind in {KwInteger, KwString}
  {
  }

  lemma CommaHere(ts: TokenList, pos: nat, ps: seq<Param>)
    requires |ps| > 1 && Terminated(ts) && Here(ts, pos, PrintParams(ps))
    ensures |PrintParams(ps)| == 3 + |PrintParams(ps[1..])|
    ensures pos + 2 < |ts| && KindAt(ts, pos + 2) == Comma && Here(ts, pos + 3, PrintParams(ps[1..]))
  {
    hide Here, TypeWord;
    var first := [TypeWord(ps[0].ty), Name(ps[0].name)];
    var head := first + [Sign(Comma)];
    assert PrintParams(ps) == head + PrintParams(ps[1..]);
    HereSplit(ts, pos, head, PrintParams(ps[1..]));
    HereSplit(ts, pos, first, [Sign(Comma)]);
    KindHere(ts, pos + 2, [Sign(Comma)]);
  }

  lemma {:induction false} ParamsRead(ts: TokenList, pos: nat, ps: seq<Param>)
    requires ps != [] && Terminated(ts) && Here(ts, pos, PrintParams(ps))
    requires KindAt(ts, pos + |PrintParams(ps)|) == RParen
    ensures KindAt(ts, pos) in {KwInteger, KwString}
    ensures ParseParams(ts, pos) == Parsed(ps, pos + |PrintParams(ps)|)
    decreases |ps|
  {
    hide Here, ParseType, TypeWord, Name, Sign;
    var q := ps[0];
    ParamReads(ts, pos, q, PrintParams(ps));
    if |ps| > 1 {
      CommaHere(ts, pos, ps);
      ParamsRead(ts, pos + 3, ps[1..]);
      assert ps == [q] + ps[1..];
    } else {
      assert ps == [q];
    }
  }

  lemma ParamReads(ts: TokenList, pos: nat, q: Param, piece: seq<Token>)
    requires Terminated(ts) && Here(ts, pos, piece) && |piece| >= 2
    requires piece[0] == TypeWord(q.ty) && piece[1] == Name(q.name)
    ensures KindAt(ts, pos) in {KwInteger, KwString} && ParseType(ts, pos) == Parsed(q.ty, pos + 1)
    ensures pos + 1 < |ts| && KindAt(ts, pos + 1) == IdentifierToken && ts[pos + 1].text == q.name
  {
    assert q.ty == Text || q.ty == Integer;
    assert Same(ts[pos + 0], piece[0]) && Same(ts[pos + 1], piece[1]);
  }

  lemma EventReads(ts: TokenList, pos: nat, h: EventHandler)
    requires Terminated(ts) && Here(ts, pos, PrintEvent(h))
    ensures KindAt(ts, pos) == IdentifierToken
    ensures ParseEvent(ts, pos) == Parsed(h, pos + |PrintEvent(h)|)
  {
    hide PrintBlock, ParseBlock, ParseParams;
    var head, params, body := [Name(h.name), Sign(LParen)], PrintParams(h.params), PrintBlock(h.body);
    HereSplit(ts, pos, head, params + ([Sign(RParen)] + body));
    HereSplit(ts, pos + 2, params, [Sign(RParen)] + body);
    var close := pos + 2 + |params|;
    HereSplit(ts, close, [Sign(RParen)], body);
    assert Same(ts[pos], head[0]) && Same(ts[pos + 1], head[1]);
    KindHere(ts, close, [Sign(RParen)]);
    if h.params != [] {
      ParamsRead(ts, pos + 2, h.params);
    }
    BlockReads(ts, close + 1, h.body);
  }

  lemma {:induction false} EventsRead(ts: TokenList, pos: nat, hs: seq<EventHandler>)
    requires Terminated(ts) && Here(ts, pos, PrintEvents(hs)) && KindAt(ts, pos + |PrintEvents(hs)|) == RBrace
    ensures ParseEvents(ts, pos) == Parsed(hs, pos + |PrintEvents(hs)|)
    decreases |hs|
  {
    hide PrintEvent, ParseEvent, Here;
    if hs != [] {
      HereSplit(ts, pos, PrintEvent(hs[0]), PrintEvents(hs[1..]));
      EventReads(ts, pos, hs[0]);
      EventsRead(ts, pos + |PrintEvent(hs[0])|, hs[1..]);
      assert hs == [hs[0]] + hs[1..];
    }
  }

  lemma ScriptReads(ts: TokenList, script: Script)
    requires Terminated(ts) && Here(ts, 0, PrintScript(script)) && |ts| == |PrintScript(script)| + 1
    requires script.Valid() && script.events != []
    ensures ParseScript(ts) == Ok(script)
  {
    hide PrintGlobals, PrintEvents, ParseGlobals, ParseEvents, Here;
    var globals, head, events := PrintGlobals(script.globals), [Keyword(KwDefault), Sign(LBrace)], PrintEvents(script.events);
    HereSplit(ts, 0, globals, head + (events + [Sign(RBrace)]));
    HereSplit(ts, |globals|, head, events + [Sign(RBrace)]);
    assert head == [Keyword(KwDefault)] + [Sign(LBrace)];
    HereSplit(ts, |globals|, [Keyword(KwDefault)], [Sign(LBrace)]);
    KindHere(ts, |globals|, [Keyword(KwDefault)]);
    KindHere(ts, |globals| + 1, [Sign(LBrace)]);
    var inside := |globals| + 2;
    HereSplit(ts, inside, events, [Sign(RBrace)]);
    KindHere(ts, inside + |events|, [Sign(RBrace)]);
    GlobalsRead(ts, 0, script.globals);
    EventsRead(ts, inside, script.events);
  }

  // ----- every printed token can be spelled -----

  ghost predicate AllSpellable(piece: seq<Token>) {
    forall i :: 0 <= i < |piece| ==> Spellable(piece[i])
  }

  lemma SpellableJoin(a: seq<Token>, b: seq<Token>)
    ensures AllSpellable(a + b) <==> AllSpellable(a) && AllSpellable(b)
  {
    if AllSpellable(a + b) {
      forall i | 0 <= i < |a|
        ensures Spellable(a[i])
      {
        assert Spellable((a + b)[i]);
      }
      forall i | 0 <= i < |b|
        ensures Spellable(b[i])
      {
        assert Spellable((a + b)[|a| + i]);
      }
    }
  }

  lemma FixedSpellable(k: TokenKind, name: Bytes, ty: ValueType)
    ensures SpellPunctuation(k) != [] ==> Spellable(Sign(k))
    ensures Identifier(name) ==> Spellable(Name(name))
    ensures Spellable(TypeWord(ty))
    ensures Spellable(Keyword(KwWhile)) && Spellable(Keyword(KwIf)) && Spellable(Keyword(KwElse))
  {
    NameSpellable(name);
    KeywordsSpellable(ty);
    hide IsWord, Identifier;
  }

  lemma NameSpellable(name: Bytes)
    ensures Identifier(name) ==> Spellable(Name(name))
  {
  }

  lemma KeywordsSpellable(ty: ValueType)
    ensures Spellable(TypeWord(ty))
    ensures Spellable(Keyword(KwWhile)) && Spellable(Keyword(KwIf)) && Spellable(Keyword(KwElse))
  {
    KeywordsAreWords();
    hide IsWord;
  }

  lemma KeywordsAreWords()
    ensures IsWord("default") && IsWord("integer") && IsWord("string") && IsWord("while") && IsWord("if") && IsWord("else")
  {
  }

  lemma SignsSpellable()
    ensures forall k :: k in {LParen, RParen, LBrace, RBrace, Semicolon, Comma, AssignSign} ==> Spellable(Sign(k))
    ensures forall op :: Spellable(Sign(SignOf(op)))
  {
  }

  lemma {:induction false} ExprSpellable(e: Expr, level: int)
    requires PrintableExpr(e)
    ensures AllSpellable(PrintExpr(e, level))
    decreases e, 1
  {
    hide Spellable, Identifier;
    SignsSpellable();
    match e {
      case Cast(target, operand) =>
        FixedSpellable(LParen, [], target);
        ExprSpellable(operand, UNARY);
        SpellableJoin([Sign(LParen), TypeWord(target), Sign(RParen)], PrintExpr(operand, UNARY));
      case Binary(op, lhs, rhs) =>
        ExprSpellable(lhs, LevelOf(op));
        ExprSpellable(rhs, LevelOf(op) + 1);
        BinarySpellable(op, PrintExpr(lhs, LevelOf(op)), PrintExpr(rhs, LevelOf(op) + 1));
      case Call(callee, args) =>
        FixedSpellable(LParen, callee, Integer);
        ArgsSpellable(args);
        SpellableJoin(PrintArgs(args), [Sign(RParen)]);
        SpellableJoin([Name(callee), Sign(LParen)], PrintArgs(args) + [Sign(RParen)]);
      case IntLiteral(_) => AtomSpellable(e, level);
      case StringLiteral(_) => AtomSpellable(e, level);
      case VarRef(_) => AtomSpellable(e, level);
    }
  }

  lemma AtomSpellable(e: Expr, level: int)
    requires PrintableExpr(e) && (e.IntLiteral? || e.StringLiteral? || e.VarRef?)
    ensures AllSpellable(PrintExpr(e, level))
  {
    if e.VarRef? {
      hide Spellable;
      FixedSpellable(LParen, e.name, Integer);
    }
  }

  lemma BinarySpellable(op: BinaryOp, left: seq<Token>, right: seq<Token>)
    requires AllSpellable(left) && AllSpellable(right)
    ensures var body := left + ([Sign(SignOf(op))] + right);
      AllSpellable(body) && AllSpellable([Sign(LParen)] + (body + [Sign(RParen)]))
  {
    hide Spellable;
    SignsSpellable();
    SpellableJoin([Sign(SignOf(op))], right);
    SpellableJoin(left, [Sign(SignOf(op))] + right);
    var body := left + ([Sign(SignOf(op))] + right);
    SpellableJoin(body, [Sign(RParen)]);
    SpellableJoin([Sign(LParen)], body + [Sign(RParen)]);
  }

  lemma {:induction false} ArgsSpellable(args: seq<Expr>)
    requires PrintableArgs(args)
    ensures AllSpellable(PrintArgs(args))
    decreases args, 0
  {
    if args != [] {
      ExprSpellable(args[0], 0);
      ArgsSpellable(args[1..]);
    }
  }

  lemma {:induction false} StmtSpellable(s: Stmt)
    requires PrintableStmt(s)
    ensures AllSpellable(PrintStmt(s))
    decreases s, 1
  {
    hide PrintExpr, PrintableExpr, Spellable, PrintBlock, PrintableBlock;
    SignsSpellable();
    FixedSpellable(LParen, if s.VarDecl? || s.Assign? then s.name else [], if s.VarDecl? then s.ty else Integer);
    match s
    case Block(statements) => BlockSpellable(statements);
    case VarDecl(_, _, None) =>
    case VarDecl(_, _, Some(e)) => ExprSpellable(e, 0);
    case Assign(_, value) => ExprSpellable(value, 0);
    case ExprStmt(expr) => ExprSpellable(expr, 0);
    case While(condition, body) =>
      ExprSpellable(condition, 0);
      BlockSpellable(body);
    case If(condition, thenBranch, NoElse) =>
      ExprSpellable(condition, 0);
      BlockSpellable(thenBranch);
    case If(condition, thenBranch, Else(body)) =>
      ExprSpellable(condition, 0);
      BlockSpellable(thenBranch);
      BlockSpellable(body);
  }

  lemma {:induction false} BlockSpellable(ss: seq<Stmt>)
    requires PrintableBlock(ss)
    ensures AllSpellable(PrintStmts(ss)) && AllSpellable(PrintBlock(ss))
    decreases ss, 0
  {
    hide PrintStmt, PrintableStmt;
    if ss != [] {
      StmtSpellable(ss[0]);
      BlockSpellable(ss[1..]);
    }
  }

  lemma GlobalSpellable(g: GlobalVar)
    requires PrintableGlobal(g)
    ensures AllSpellable(PrintGlobal(g))
  {
    hide Identifier, TypeWord;
    SignsSpellable();
    FixedSpellable(LParen, g.name, g.ty);
  }

  lemma {:induction false} GlobalsSpellable(gs: seq<GlobalVar>)
    requires forall g :: g in gs ==> PrintableGlobal(g)
    ensures AllSpellable(PrintGlobals(gs))
    decreases |gs|
  {
    hide PrintGlobal, PrintableGlobal, AllSpellable;
    if gs == [] {
      assert AllSpellable([]) by { NothingToSpell(); }
    } else {
      GlobalSpellable(gs[0]);
      GlobalsSpellable(gs[1..]);
      SpellableJoin(PrintGlobal(gs[0]), PrintGlobals(gs[1..]));
    }
  }

  lemma NothingToSpell()
    ensures AllSpellable([])
  {
  }

  lemma {:induction false} ParamsSpellable(ps: seq<Param>)
    requires forall q :: q in ps ==> Identifier(q.name)
    ensures AllSpellable(PrintParams(ps))
    decreases |ps|
  {
    if ps != [] {
      assert Identifier(ps[0].name);
      ParamsSpellable(ps[1..]);
    }
  }

  lemma {:induction false} EventsSpellable(hs: seq<EventHandler>)
    requires forall h :: h in hs ==> PrintableEvent(h)
    ensures AllSpellable(PrintEvents(hs))
    decreases |hs|
  {
    hide PrintBlock, PrintableBlock, PrintParams;
    if hs != [] {
      assert PrintableEvent(hs[0]);
      ParamsSpellable(hs[0].params);
      BlockSpellable(hs[0].body);
      EventsSpellable(hs[1..]);
    }
  }

  lemma ScriptSpellable(script: Script)
    requires PrintableScript(script)
    ensures AllSpellable(PrintScript(script)) && script.Valid()
  {
    hide PrintGlobals, PrintEvents, PrintableEvent;
    GlobalsSpellable(script.globals);
    EventsSpellable(script.events);
    forall g | g in script.globals
      ensures g.Valid()
    {
      assert PrintableGlobal(g);
    }
  }

  // ----- the theorem -----

  datatype SourceError = Lexical(lexical: LexError) | Syntactic(syntactic: ParseError)

  function ParseSource(source: Bytes): Result<Script, SourceError> {
    match Tokens(source)
    case Err(e) => Err(Lexical(e))
    case Ok(ts) =>
      match ParseScript(ts)
      case Err(e) => Err(Syntactic(e))
      case Ok(script) => Ok(script)
  }

  /** Any tree the grammar can build, printed with parentheses only where the precedence table
      asks for them and laid out in any way that keeps its tokens apart, scans and parses back
      to that tree. */
  lemma ParseInvertsPrint(script: Script, gaps: seq<seq<Trivia>>)
    requires PrintableScript(script) && ValidLayout(PrintScript(script), gaps)
    ensures ParseSource(Render(PrintScript(script), gaps)) == Ok(script)
  {
    hide PrintScript, Tokens, Render, ParseScript, PrintableScript;
    ScriptSpellable(script);
    TokenizeInvertsRender(PrintScript(script), gaps);
    var ts := Tokens(Render(PrintScript(script), gaps)).value;
    var n := |PrintScript(script)|;
    assert Here(ts, 0, PrintScript(script)) by {
      forall i | 0 <= i < n
        ensures Same(ts[0 + i], PrintScript(script)[i])
      {
        assert Same(ts[..n][i], PrintScript(script)[i]);
      }
    }
    EventsPrinted(script);
    ScriptReads(ts, script);
  }

  lemma EventsPrinted(script: Script)
    requires PrintableScript(script)
    ensures script.events != []
  {
  }
}
