/** Printing a syntax tree with no more parentheses than the precedence table asks for. */
module Printer {
  import opened Prelude
  import opened Bytecode
  import opened Ast
  import opened Lexer
  import opened SourceText
  import opened Parser

  function Sign(k: TokenKind): Token {
    Token(k, [], 0, 0)
  }

  function Name(text: Bytes): Token {
    Token(IdentifierToken, text, 0, 0)
  }

  function Keyword(k: TokenKind): Token {
    match k
    case KwDefault => Token(k, "default", 0, 0)
    case KwInteger => Token(k, "integer", 0, 0)
    case KwString => Token(k, "string", 0, 0)
    case KwWhile => Token(k, "while", 0, 0)
    case KwIf => Token(k, "if", 0, 0)
    case _ => Token(KwElse, "else", 0, 0)
  }

  function TypeWord(t: ValueType): Token {
    Keyword(if t == Text then KwString else KwInteger)
  }

  function SignOf(op: BinaryOp): TokenKind {
    match op
    case Add => PlusSign
    case Sub => MinusSign
    case Mul => StarSign
    case Less => LessSign
    case Greater => GreaterSign
    case Equal => EqualEqual
  }

  function LevelOf(op: BinaryOp): int {
    Precedence(SignOf(op))
  }

  /** Tighter than every operator: the level of a cast's operand. */
  const UNARY: int := 5

  /** An expression at a level: a looser operator is put in parentheses. */
  function PrintExpr(e: Expr, level: int): seq<Token>
    decreases e, 1
  {
    match e
    case IntLiteral(n) => [Token(IntToken, [], n, 0)]
    case StringLiteral(s) => [Token(StringToken, s, 0, 0)]
    case VarRef(name) => [Name(name)]
    case Cast(target, operand) => [Sign(LParen), TypeWord(target), Sign(RParen)] + PrintExpr(operand, UNARY)
    case Call(callee, args) => [Name(callee), Sign(LParen)] + (PrintArgs(args) + [Sign(RParen)])
    case Binary(op, lhs, rhs) =>
      var body := PrintExpr(lhs, LevelOf(op)) + ([Sign(SignOf(op))] + PrintExpr(rhs, LevelOf(op) + 1));
      if LevelOf(op) < level then [Sign(LParen)] + (body + [Sign(RParen)]) else body
  }

  function PrintArgs(args: seq<Expr>): seq<Token>
    decreases args, 0
  {
    if args == [] then []
    else if |args| == 1 then PrintExpr(args[0], 0)
    else PrintExpr(args[0], 0) + ([Sign(Comma)] + PrintArgs(args[1..]))
  }

  function PrintStmt(s: Stmt): seq<Token>
    decreases s, 1
  {
    match s
    case Block(statements) => PrintBlock(statements)
    case VarDecl(ty, name, None) => [TypeWord(ty), Name(name), Sign(Semicolon)]
    case VarDecl(ty, name, Some(e)) =>
      [TypeWord(ty), Name(name), Sign(AssignSign)] + (PrintExpr(e, 0) + [Sign(Semicolon)])
    case Assign(name, value) => [Name(name), Sign(AssignSign)] + (PrintExpr(value, 0) + [Sign(Semicolon)])
    case ExprStmt(expr) => PrintExpr(expr, 0) + [Sign(Semicolon)]
    case While(condition, body) => [Keyword(KwWhile)] + (PrintCondition(condition) + PrintBlock(body))
    case If(condition, thenBranch, NoElse) => [Keyword(KwIf)] + (PrintCondition(condition) + PrintBlock(thenBranch))
    case If(condition, thenBranch, Else(body)) =>
      [Keyword(KwIf)] + (PrintCondition(condition) + (PrintBlock(thenBranch) + ([Keyword(KwElse)] + PrintBlock(body))))
  }

  function PrintCondition(e: Expr): seq<Token> {
    [Sign(LParen)] + (PrintExpr(e, 0) + [Sign(RParen)])
  }

  function PrintBlock(ss: seq<Stmt>): seq<Token>
    decreases ss, 1
  {
    [Sign(LBrace)] + (PrintStmts(ss) + [Sign(RBrace)])
  }

  function PrintStmts(ss: seq<Stmt>): seq<Token>
    decreases ss, 0
  {
    if ss == [] then [] else PrintStmt(ss[0]) + PrintStmts(ss[1..])
  }

  function PrintLiteral(v: Value): Token {
    match v
    case Int(n) => Token(IntToken, [], n, 0)
    case Str(s) => Token(StringToken, s, 0, 0)
  }

  function PrintGlobal(g: GlobalVar): seq<Token> {
    match g.init
    case None => [TypeWord(g.ty), Name(g.name), Sign(Semicolon)]
    case Some(v) => [TypeWord(g.ty), Name(g.name), Sign(AssignSign), PrintLiteral(v), Sign(Semicolon)]
  }

  function PrintGlobals(gs: seq<GlobalVar>): seq<Token>
    decreases |gs|
  {
    if gs == [] then [] else PrintGlobal(gs[0]) + PrintGlobals(gs[1..])
  }

  function PrintParams(ps: seq<Param>): seq<Token>
    decreases |ps|
  {
    if ps == [] then []
    else if |ps| == 1 then [TypeWord(ps[0].ty), Name(ps[0].name)]
    else [TypeWord(ps[0].ty), Name(ps[0].name), Sign(Comma)] + PrintParams(ps[1..])
  }

  function PrintEvent(h: EventHandler): seq<Token> {
    [Name(h.name), Sign(LParen)] + (PrintParams(h.params) + ([Sign(RParen)] + PrintBlock(h.body)))
  }

  function PrintEvents(hs: seq<EventHandler>): seq<Token>
    decreases |hs|
  {
    if hs == [] then [] else PrintEvent(hs[0]) + PrintEvents(hs[1..])
  }

  function PrintScript(script: Script): seq<Token> {
    PrintGlobals(script.globals) +
    ([Keyword(KwDefault), Sign(LBrace)] + (PrintEvents(script.events) + [Sign(RBrace)]))
  }

  // ----- the trees the grammar can build -----

  predicate Identifier(w: Bytes) {
    IsWord(w) && KeywordKind(w) == IdentifierToken
  }

  predicate PrintableExpr(e: Expr)
    decreases e, 1
  {
    match e
    case IntLiteral(n) => n >= 0
    case StringLiteral(_) => true
    case VarRef(name) => Identifier(name)
    case Cast(_, operand) => PrintableExpr(operand)
    case Binary(_, lhs, rhs) => PrintableExpr(lhs) && PrintableExpr(rhs)
    case Call(callee, args) => Identifier(callee) && PrintableArgs(args)
  }

  predicate PrintableArgs(args: seq<Expr>)
    decreases args, 0
  {
    args == [] || (PrintableExpr(args[0]) && PrintableArgs(args[1..]))
  }

  predicate PrintableStmt(s: Stmt)
    decreases s, 1
  {
    match s
    case Block(statements) => PrintableBlock(statements)
    case VarDecl(_, name, init) => Identifier(name) && (init.Some? ==> PrintableExpr(init.value))
    case Assign(name, value) => Identifier(name) && PrintableExpr(value)
    case ExprStmt(expr) => PrintableExpr(expr)
    case While(condition, body) => PrintableExpr(condition) && PrintableBlock(body)
    case If(condition, thenBranch, elseBranch) =>
      PrintableExpr(condition) && PrintableBlock(thenBranch)
      && (match elseBranch case NoElse => true case Else(body) => PrintableBlock(body))
  }

  predicate PrintableBlock(ss: seq<Stmt>)
    decreases ss, 0
  {
    ss == [] || (PrintableStmt(ss[0]) && PrintableBlock(ss[1..]))
  }

  predicate PrintableGlobal(g: GlobalVar) {
    Identifier(g.name) && g.Valid() && (g.init.Some? && g.init.value.Int? ==> g.init.value.integer >= 0)
  }

  predicate PrintableEvent(h: EventHandler) {
    Identifier(h.name) && (forall q :: q in h.params ==> Identifier(q.name)) && PrintableBlock(h.body)
  }

  /** At least one handler, names that are not keywords, and literals the scanner accepts. */
  predicate PrintableScript(script: Script) {
    && script.events != []
    && (forall g :: g in script.globals ==> PrintableGlobal(g))
    && forall h :: h in script.events ==> PrintableEvent(h)
  }
}
