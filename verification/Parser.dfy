/** The recursive-descent parser with its precedence-climbing expressions, as functions from
    a position in the token list to a node and the position after it. */
module Parser {
  import opened Prelude
  import opened Bytecode
  import opened Ast
  import opened Lexer

  datatype Wanted =
    | WantType | WantIdentifier | WantGlobalLiteral | WantDefault | WantStatement
    | WantPunctuation(kind: TokenKind) | WantExpression | WantEvent | WantMatchingLiteral | WantEnd

  datatype ParseError = ParseError(wanted: Wanted, line: nat)

  /** A node and the position of the next token, or an error. */
  datatype Parse<+T> = Parsed(value: T, next: nat) | Rejected(error: ParseError)

  type TokenList = seq<Token>

  /** What the scanner hands over: at least the end token, and that one last. */
  predicate Terminated(ts: TokenList) {
    ts != [] && ts[|ts| - 1].kind == EndToken
  }

  /** Looking past the end sees the end token. */
  function Peek(ts: TokenList, i: nat): Token
    requires Terminated(ts)
  {
    ts[if i >= |ts| then |ts| - 1 else i]
  }

  function KindAt(ts: TokenList, i: nat): TokenKind
    requires Terminated(ts)
  {
    Peek(ts, i).kind
  }

  /** Binding powers; higher binds tighter. */
  function Precedence(k: TokenKind): int {
    match k
    case EqualEqual => 1
    case LessSign => 2
    case GreaterSign => 2
    case PlusSign => 3
    case MinusSign => 3
    case StarSign => 4
    case _ => -1
  }

  function OperatorOf(k: TokenKind): BinaryOp
    requires Precedence(k) >= 0
  {
    match k
    case PlusSign => Add
    case MinusSign => Sub
    case StarSign => Mul
    case LessSign => Less
    case GreaterSign => Greater
    case EqualEqual => Equal
  }

  function Expect(ts: TokenList, pos: nat, kind: TokenKind, wanted: Wanted): (r: Parse<Token>)
    requires Terminated(ts) && pos < |ts|
    ensures r.Parsed? ==> r.next == pos + 1 && r.value == ts[pos] && (kind != EndToken ==> r.next < |ts|)
  {
    if KindAt(ts, pos) == kind then Parsed(ts[pos], pos + 1)
    else Rejected(ParseError(wanted, Peek(ts, pos).line))
  }

  function ParseType(ts: TokenList, pos: nat): (r: Parse<ValueType>)
    requires Terminated(ts) && pos < |ts|
    ensures r.Parsed? ==> pos < r.next < |ts|
  {
    if KindAt(ts, pos) == KwInteger then Parsed(Integer, pos + 1)
    else if KindAt(ts, pos) == KwString then Parsed(Text, pos + 1)
    else Rejected(ParseError(WantType, Peek(ts, pos).line))
  }

  // ----- expressions -----

  function ParseExpr(ts: TokenList, pos: nat, min: int): (r: Parse<Expr>)
    requires Terminated(ts) && pos < |ts|
    ensures r.Parsed? ==> pos < r.next < |ts|
    decreases |ts| - pos, 3
  {
    match ParseUnary(ts, pos)
    case Rejected(e) => Rejected(e)
    case Parsed(left, next) => ParseOperators(ts, next, left, min)
  }

  /** Operators of at least the minimum precedence, associating to the left. */
  function ParseOperators(ts: TokenList, pos: nat, left: Expr, min: int): (r: Parse<Expr>)
    requires Terminated(ts) && pos < |ts|
    ensures r.Parsed? ==> pos <= r.next < |ts|
    decreases |ts| - pos, 0
  {
    var k := KindAt(ts, pos);
    if Precedence(k) < 0 || Precedence(k) < min then Parsed(left, pos)
    else
      match ParseExpr(ts, pos + 1, Precedence(k) + 1)
      case Rejected(e) => Rejected(e)
      case Parsed(right, next) => ParseOperators(ts, next, Binary(OperatorOf(k), left, right), min)
  }

  predicate IsCast(ts: TokenList, pos: nat)
    requires Terminated(ts)
  {
    KindAt(ts, pos) == LParen && KindAt(ts, pos + 1) in {KwInteger, KwString} && KindAt(ts, pos + 2) == RParen
  }

  function ParseUnary(ts: TokenList, pos: nat): (r: Parse<Expr>)
    requires Terminated(ts) && pos < |ts|
    ensures r.Parsed? ==> pos < r.next < |ts|
    decreases |ts| - pos, 2
  {
    if IsCast(ts, pos) then
      match ParseUnary(ts, pos + 3)
      case Rejected(e) => Rejected(e)
      case Parsed(operand, next) => Parsed(Cast(if KindAt(ts, pos + 1) == KwString then Text else Integer, operand), next)
    else ParsePrimary(ts, pos)
  }

  function ParsePrimary(ts: TokenList, pos: nat): (r: Parse<Expr>)
    requires Terminated(ts) && pos < |ts|
    ensures r.Parsed? ==> pos < r.next < |ts|
    decreases |ts| - pos, 1
  {
    match KindAt(ts, pos)
    case IntToken => Parsed(Expr.IntLiteral(ts[pos].integer), pos + 1)
    case StringToken => Parsed(Expr.StringLiteral(ts[pos].text), pos + 1)
    case IdentifierToken =>
      if KindAt(ts, pos + 1) != LParen then Parsed(VarRef(ts[pos].text), pos + 1)
      else if KindAt(ts, pos + 2) == RParen then Parsed(Call(ts[pos].text, []), pos + 3)
      else
        (match ParseArguments(ts, pos + 2)
         case Rejected(e) => Rejected(e)
         case Parsed(args, next) =>
           match Expect(ts, next, RParen, WantPunctuation(RParen))
           case Rejected(e) => Rejected(e)
           case Parsed(_, end) => Parsed(Call(ts[pos].text, args), end))
    case LParen =>
      (match ParseExpr(ts, pos + 1, 0)
       case Rejected(e) => Rejected(e)
       case Parsed(inner, next) =>
         match Expect(ts, next, RParen, WantPunctuation(RParen))
         case Rejected(e) => Rejected(e)
         case Parsed(_, end) => Parsed(inner, end))
    case _ => Rejected(ParseError(WantExpression, Peek(ts, pos).line))
  }

  /** One argument, and another after each comma. */
  function ParseArguments(ts: TokenList, pos: nat): (r: Parse<seq<Expr>>)
    requires Terminated(ts) && pos < |ts|
    ensures r.Parsed? ==> pos < r.next < |ts|
    decreases |ts| - pos, 4
  {
    match ParseExpr(ts, pos, 0)
    case Rejected(e) => Rejected(e)
    case Parsed(arg, next) =>
      if KindAt(ts, next) != Comma then Parsed([arg], next)
      else
        match ParseArguments(ts, next + 1)
        case Rejected(e) => Rejected(e)
        case Parsed(rest, end) => Parsed([arg] + rest, end)
  }

  // ----- statements -----

  function ParseStatement(ts: TokenList, pos: nat): (r: Parse<Stmt>)
    requires Terminated(ts) && pos < |ts|
    ensures r.Parsed? ==> pos < r.next < |ts|
    decreases |ts| - pos, 1
  {
    match KindAt(ts, pos)
    case KwInteger => ParseVarDecl(ts, pos)
    case KwString => ParseVarDecl(ts, pos)
    case KwWhile => ParseWhile(ts, pos)
    case KwIf => ParseIf(ts, pos)
    case LBrace =>
      (match ParseBlock(ts, pos)
       case Rejected(e) => Rejected(e)
       case Parsed(body, next) => Parsed(Block(body), next))
    case _ => ParseSimple(ts, pos)
  }

  /** An assignment when a name is followed by `=`, an expression statement otherwise. */
  function ParseSimple(ts: TokenList, pos: nat): (r: Parse<Stmt>)
    requires Terminated(ts) && pos < |ts|
    ensures r.Parsed? ==> pos < r.next < |ts|
  {
    if KindAt(ts, pos) == IdentifierToken && KindAt(ts, pos + 1) == AssignSign then
      match ParseEnded(ts, pos + 2)
      case Rejected(e) => Rejected(e)
      case Parsed(value, next) => Parsed(Assign(ts[pos].text, value), next)
    else
      match ParseEnded(ts, pos)
      case Rejected(e) => Rejected(e)
      case Parsed(expr, next) => Parsed(ExprStmt(expr), next)
  }

  /** An expression and the semicolon after it. */
  function ParseEnded(ts: TokenList, pos: nat): (r: Parse<Expr>)
    requires Terminated(ts) && pos < |ts|
    ensures r.Parsed? ==> pos < r.next < |ts|
  {
    match ParseExpr(ts, pos, 0)
    case Rejected(e) => Rejected(e)
    case Parsed(expr, next) =>
      match Expect(ts, next, Semicolon, WantPunctuation(Semicolon))
      case Rejected(e) => Rejected(e)
      case Parsed(_, end) => Parsed(expr, end)
  }

  function ParseVarDecl(ts: TokenList, pos: nat): (r: Parse<Stmt>)
    requires Terminated(ts) && pos < |ts|
    ensures r.Parsed? ==> pos < r.next < |ts|
  {
    match ParseType(ts, pos)
    case Rejected(e) => Rejected(e)
    case Parsed(ty, p1) =>
      match Expect(ts, p1, IdentifierToken, WantIdentifier)
      case Rejected(e) => Rejected(e)
      case Parsed(name, p2) =>
        if KindAt(ts, p2) == AssignSign then
          match ParseEnded(ts, p2 + 1)
          case Rejected(e) => Rejected(e)
          case Parsed(init, next) => Parsed(VarDecl(ty, name.text, Some(init)), next)
        else
          match Expect(ts, p2, Semicolon, WantPunctuation(Semicolon))
          case Rejected(e) => Rejected(e)
          case Parsed(_, next) => Parsed(VarDecl(ty, name.text, None), next)
  }

  /** A parenthesized condition. */
  function ParseCondition(ts: TokenList, pos: nat): (r: Parse<Expr>)
    requires Terminated(ts) && pos < |ts|
    ensures r.Parsed? ==> pos < r.next < |ts|
  {
    match Expect(ts, pos, LParen, WantPunctuation(LParen))
    case Rejected(e) => Rejected(e)
    case Parsed(_, p1) =>
      match ParseExpr(ts, p1, 0)
      case Rejected(e) => Rejected(e)
      case Parsed(condition, p2) =>
        match Expect(ts, p2, RParen, WantPunctuation(RParen))
        case Rejected(e) => Rejected(e)
        case Parsed(_, next) => Parsed(condition, next)
  }

  function ParseWhile(ts: TokenList, pos: nat): (r: Parse<Stmt>)
    requires Terminated(ts) && pos < |ts| && KindAt(ts, pos) == KwWhile
    ensures r.Parsed? ==> pos < r.next < |ts|
    decreases |ts| - pos, 0
  {
    match ParseCondition(ts, pos + 1)
    case Rejected(e) => Rejected(e)
    case Parsed(condition, p1) =>
      match ParseBlock(ts, p1)
      case Rejected(e) => Rejected(e)
      case Parsed(body, next) => Parsed(While(condition, body), next)
  }

  function ParseIf(ts: TokenList, pos: nat): (r: Parse<Stmt>)
    requires Terminated(ts) && pos < |ts| && KindAt(ts, pos) == KwIf
    ensures r.Parsed? ==> pos < r.next < |ts|
    decreases |ts| - pos, 0
  {
    match ParseCondition(ts, pos + 1)
    case Rejected(e) => Rejected(e)
    case Parsed(condition, p1) =>
      match ParseBlock(ts, p1)
      case Rejected(e) => Rejected(e)
      case Parsed(thenBranch, p2) =>
        if KindAt(ts, p2) != KwElse then Parsed(If(condition, thenBranch, NoElse), p2)
        else
          match ParseBlock(ts, p2 + 1)
          case Rejected(e) => Rejected(e)
          case Parsed(elseBranch, next) => Parsed(If(condition, thenBranch, Else(elseBranch)), next)
  }

  function ParseBlock(ts: TokenList, pos: nat): (r: Parse<seq<Stmt>>)
    requires Terminated(ts) && pos < |ts|
    ensures r.Parsed? ==> pos < r.next < |ts|
    decreases |ts| - pos, 0
  {
    match Expect(ts, pos, LBrace, WantPunctuation(LBrace))
    case Rejected(e) => Rejected(e)
    case Parsed(_, p1) =>
      match ParseStatements(ts, p1)
      case Rejected(e) => Rejected(e)
      case Parsed(body, p2) =>
        match Expect(ts, p2, RBrace, WantPunctuation(RBrace))
        case Rejected(e) => Rejected(e)
        case Parsed(_, next) => Parsed(body, next)
  }

  /** Statements up to a closing brace or the end. */
  function ParseStatements(ts: TokenList, pos: nat): (r: Parse<seq<Stmt>>)
    requires Terminated(ts) && pos < |ts|
    ensures r.Parsed? ==> pos <= r.next < |ts|
    decreases |ts| - pos, 2
  {
    if KindAt(ts, pos) == RBrace || KindAt(ts, pos) == EndToken then Parsed([], pos)
    else
      match ParseStatement(ts, pos)
      case Rejected(e) => Rejected(e)
      case Parsed(s, p1) =>
        match ParseStatements(ts, p1)
        case Rejected(e) => Rejected(e)
        case Parsed(rest, next) => Parsed([s] + rest, next)
  }

  // ----- scripts -----

  /** A literal of the global's own type. */
  function ParseLiteral(ts: TokenList, pos: nat, ty: ValueType): (r: Parse<Value>)
    requires Terminated(ts) && pos < |ts|
    ensures r.Parsed? ==> pos < r.next < |ts|
  {
    match KindAt(ts, pos)
    case IntToken =>
      if ty != Integer then Rejected(ParseError(WantMatchingLiteral, 0)) else Parsed(Int(ts[pos].integer), pos + 1)
    case StringToken =>
      if ty != Text then Rejected(ParseError(WantMatchingLiteral, 0)) else Parsed(Str(ts[pos].text), pos + 1)
    case _ => Rejected(ParseError(WantGlobalLiteral, 0))
  }

  function ParseGlobal(ts: TokenList, pos: nat): (r: Parse<GlobalVar>)
    requires Terminated(ts) && pos < |ts|
    ensures r.Parsed? ==> pos < r.next < |ts|
  {
    match ParseType(ts, pos)
    case Rejected(e) => Rejected(e)
    case Parsed(ty, p1) =>
      match Expect(ts, p1, IdentifierToken, WantIdentifier)
      case Rejected(e) => Rejected(e)
      case Parsed(name, p2) =>
        if KindAt(ts, p2) == AssignSign then
          match ParseLiteral(ts, p2 + 1, ty)
          case Rejected(e) => Rejected(e)
          case Parsed(v, p3) =>
            match Expect(ts, p3, Semicolon, WantPunctuation(Semicolon))
            case Rejected(e) => Rejected(e)
            case Parsed(_, next) => Parsed(GlobalVar(ty, name.text, Some(v)), next)
        else
          match Expect(ts, p2, Semicolon, WantPunctuation(Semicolon))
          case Rejected(e) => Rejected(e)
          case Parsed(_, next) => Parsed(GlobalVar(ty, name.text, None), next)
  }

  function ParseGlobals(ts: TokenList, pos: nat): (r: Parse<seq<GlobalVar>>)
    requires Terminated(ts) && pos < |ts|
    ensures r.Parsed? ==> pos <= r.next < |ts|
    decreases |ts| - pos
  {
    if KindAt(ts, pos) != KwInteger && KindAt(ts, pos) != KwString then Parsed([], pos)
    else
      match ParseGlobal(ts, pos)
      case Rejected(e) => Rejected(e)
      case Parsed(g, p1) =>
        match ParseGlobals(ts, p1)
        case Rejected(e) => Rejected(e)
        case Parsed(rest, next) => Parsed([g] + rest, next)
  }

  function ParseParams(ts: TokenList, pos: nat): (r: Parse<seq<Param>>)
    requires Terminated(ts) && pos < |ts|
    ensures r.Parsed? ==> pos < r.next < |ts|
    decreases |ts| - pos
  {
    match ParseType(ts, pos)
    case Rejected(e) => Rejected(e)
    case Parsed(ty, p1) =>
      match Expect(ts, p1, IdentifierToken, WantIdentifier)
      case Rejected(e) => Rejected(e)
      case Parsed(name, p2) =>
        if KindAt(ts, p2) != Comma then Parsed([Param(ty, name.text)], p2)
        else
          match ParseParams(ts, p2 + 1)
          case Rejected(e) => Rejected(e)
          case Parsed(rest, next) => Parsed([Param(ty, name.text)] + rest, next)
  }

  function ParseEvent(ts: TokenList, pos: nat): (r: Parse<EventHandler>)
    requires Terminated(ts) && pos < |ts|
    ensures r.Parsed? ==> pos < r.next < |ts|
  {
    match Expect(ts, pos, IdentifierToken, WantEvent)
    case Rejected(e) => Rejected(e)
    case Parsed(name, p1) =>
      match Expect(ts, p1, LParen, WantPunctuation(LParen))
      case Rejected(e) => Rejected(e)
      case Parsed(_, p2) =>
        match if KindAt(ts, p2) == RParen then Parsed([], p2) else ParseParams(ts, p2)
        case Rejected(e) => Rejected(e)
        case Parsed(params, p3) =>
          match Expect(ts, p3, RParen, WantPunctuation(RParen))
          case Rejected(e) => Rejected(e)
          case Parsed(_, p4) =>
            match ParseBlock(ts, p4)
            case Rejected(e) => Rejected(e)
            case Parsed(body, next) => Parsed(EventHandler(name.text, params, body), next)
  }

  function ParseEvents(ts: TokenList, pos: nat): (r: Parse<seq<EventHandler>>)
    requires Terminated(ts) && pos < |ts|
    ensures r.Parsed? ==> pos <= r.next < |ts|
    decreases |ts| - pos
  {
    if KindAt(ts, pos) == RBrace || KindAt(ts, pos) == EndToken then Parsed([], pos)
    else
      match ParseEvent(ts, pos)
      case Rejected(e) => Rejected(e)
      case Parsed(h, p1) =>
        match ParseEvents(ts, p1)
        case Rejected(e) => Rejected(e)
        case Parsed(rest, next) => Parsed([h] + rest, next)
  }

  function ParseScript(ts: TokenList): Result<Script, ParseError>
    requires Terminated(ts)
  {
    match ParseGlobals(ts, 0)
    case Rejected(e) => Err(e)
    case Parsed(globals, p1) =>
      match Expect(ts, p1, KwDefault, WantDefault)
      case Rejected(e) => Err(e)
      case Parsed(_, p2) =>
        match Expect(ts, p2, LBrace, WantPunctuation(LBrace))
        case Rejected(e) => Err(e)
        case Parsed(_, p3) =>
          match ParseEvents(ts, p3)
          case Rejected(e) => Err(e)
          case Parsed(events, p4) =>
            match Expect(ts, p4, RBrace, WantPunctuation(RBrace))
            case Rejected(e) => Err(e)
            case Parsed(_, p5) =>
              match Expect(ts, p5, EndToken, WantEnd)
              case Rejected(e) => Err(e)
              case Parsed(_, _) =>
                if events == [] then Err(ParseError(WantEvent, 0)) else Ok(Script(globals, events))
  }
}
