/** The parser as the source writes it: an object whose methods advance a position through
    the tokens and build nodes in loops. Each method reads what module Parser's function does. */
module ParserObject {
  import opened Prelude
  import opened Bytecode
  import opened Ast
  import opened Lexer
  import opened Parser

  /** The method returned the node and stopped where the function says, or threw its error. */
  ghost predicate Reads<T(!new)>(spec: Parse<T>, r: Result<T, ParseError>, pos: nat) {
    match spec
    case Parsed(value, next) => r == Ok(value) && pos == next
    case Rejected(e) => r == Err(e)
  }

  /** Items already read, in front of what the rest of the loop reads. */
  function Ahead<T>(front: seq<T>, r: Parse<seq<T>>): Parse<seq<T>> {
    if r.Parsed? then Parsed(front + r.value, r.next) else r
  }

  lemma AheadNothing<T>(r: Parse<seq<T>>)
    ensures Ahead([], r) == r
  {
    if r.Parsed? {
      assert [] + r.value == r.value;
    }
  }

  lemma AheadOne<T>(front: seq<T>, x: T, r: Parse<seq<T>>)
    ensures Ahead(front, Ahead([x], r)) == Ahead(front + [x], r)
  {
    if r.Parsed? {
      assert front + ([x] + r.value) == (front + [x]) + r.value;
    }
  }

  class TokenParser {
    const tokens: TokenList
    var pos: nat

    constructor (tokens: TokenList)
      ensures this.tokens == tokens && pos == 0
    {
      this.tokens := tokens;
      pos := 0;
    }

    ghost predicate Valid()
      reads this
    {
      Terminated(tokens) && pos < |tokens|
    }

    method Check(kind: TokenKind) returns (b: bool)
      requires Valid()
      ensures b == (KindAt(tokens, pos) == kind)
    {
      b := Peek(tokens, pos).kind == kind;
    }

    method Match(kind: TokenKind) returns (b: bool)
      requires Valid() && kind != EndToken
      modifies this`pos
      ensures b == (KindAt(tokens, old(pos)) == kind) && pos == (if b then old(pos) + 1 else old(pos)) && Valid()
    {
      b := Check(kind);
      if b {
        pos := pos + 1;
      }
    }

    method ExpectToken(kind: TokenKind, wanted: Wanted) returns (r: Result<Token, ParseError>)
      requires Valid()
      modifies this`pos
      ensures Reads(Expect(tokens, old(pos), kind, wanted), r, pos)
    {
      var found := Check(kind);
      if !found {
        return Err(ParseError(wanted, Peek(tokens, pos).line));
      }
      r := Ok(tokens[pos]);
      pos := pos + 1;
    }

    method TypeKeyword() returns (r: Result<ValueType, ParseError>)
      requires Valid()
      modifies this`pos
      ensures Reads(ParseType(tokens, old(pos)), r, pos)
    {
      var integer := Match(KwInteger);
      if integer {
        return Ok(Integer);
      }
      var text := Match(KwString);
      if text {
        return Ok(Text);
      }
      return Err(ParseError(WantType, Peek(tokens, pos).line));
    }

    /** Climbs from a unary expression through operators of at least `min`. */
    method Expression(min: int) returns (r: Result<Expr, ParseError>)
      requires Valid()
      modifies this`pos
      ensures Reads(ParseExpr(tokens, old(pos), min), r, pos)
      decreases |tokens| - pos, 3
    {
      hide ParseUnary, Precedence, OperatorOf;
      var first := Unary();
      if first.Err? {
        return first;
      }
      var left := first.value;
      var prec := Precedence(Peek(tokens, pos).kind);
      while prec >= 0 && prec >= min
        invariant old(pos) < pos < |tokens| && prec == Precedence(KindAt(tokens, pos))
        invariant ParseExpr(tokens, old(pos), min) == ParseOperators(tokens, pos, left, min)
        decreases |tokens| - pos
      {
        var op := OperatorOf(Peek(tokens, pos).kind);
        assert KindAt(tokens, pos) != EndToken by { EndIsNoOperator(); }
        pos := pos + 1;
        var right := Expression(prec + 1);
        if right.Err? {
          return right;
        }
        left := Binary(op, left, right.value);
        prec := Precedence(Peek(tokens, pos).kind);
      }
      return Ok(left);
    }

    static lemma EndIsNoOperator()
      ensures Precedence(EndToken) == -1
    {
    }

    /** A cast is told from a group by the type keyword and the parenthesis after it. */
    method Unary() returns (r: Result<Expr, ParseError>)
      requires Valid()
      modifies this`pos
      ensures Reads(ParseUnary(tokens, old(pos)), r, pos)
      decreases |tokens| - pos, 2
    {
      hide ParsePrimary;
      if Peek(tokens, pos).kind == LParen &&
         (Peek(tokens, pos + 1).kind == KwInteger || Peek(tokens, pos + 1).kind == KwString) &&
         Peek(tokens, pos + 2).kind == RParen {
        var target: ValueType := if Peek(tokens, pos + 1).kind == KwString then Text else Integer;
        pos := pos + 3;
        var operand := Unary();
        if operand.Err? {
          return operand;
        }
        return Ok(Cast(target, operand.value));
      }
      r := Primary();
    }

    method Primary() returns (r: Result<Expr, ParseError>)
      requires Valid()
      modifies this`pos
      ensures Reads(ParsePrimary(tokens, old(pos)), r, pos)
      decreases |tokens| - pos, 1
    {
      hide ParseExpr, ParseArguments;
      var token := tokens[pos];
      match token.kind {
        case IntToken =>
          pos := pos + 1;
          return Ok(Expr.IntLiteral(token.integer));
        case StringToken =>
          pos := pos + 1;
          return Ok(Expr.StringLiteral(token.text));
        case IdentifierToken =>
          r := NameOrCall();
        case LParen =>
          pos := pos + 1;
          var inner := Expression(0);
          if inner.Err? {
            return inner;
          }
          var close := ExpectToken(RParen, WantPunctuation(RParen));
          return if close.Err? then Err(close.error) else inner;
        case _ =>
          return Err(ParseError(WantExpression, Peek(tokens, pos).line));
      }
    }

    method NameOrCall() returns (r: Result<Expr, ParseError>)
      requires Valid() && KindAt(tokens, pos) == IdentifierToken
      modifies this`pos
      ensures Reads(ParsePrimary(tokens, old(pos)), r, pos)
      decreases |tokens| - pos, 0
    {
      hide ParseExpr, ParseArguments;
      var name := tokens[pos].text;
      pos := pos + 1;
      var called := Match(LParen);
      if !called {
        return Ok(VarRef(name));
      }
      var args := [];
      var none := Check(RParen);
      if !none {
        var parsed := Arguments();
        if parsed.Err? {
          return Err(parsed.error);
        }
        args := parsed.value;
      }
      var close := ExpectToken(RParen, WantPunctuation(RParen));
      return if close.Err? then Err(close.error) else Ok(Call(name, args));
    }

    method Arguments() returns (r: Result<seq<Expr>, ParseError>)
      requires Valid()
      modifies this`pos
      ensures Reads(ParseArguments(tokens, old(pos)), r, pos)
      decreases |tokens| - pos, 4
    {
      hide ParseExpr;
      var first := Expression(0);
      if first.Err? {
        return Err(first.error);
      }
      var args := [first.value];
      var more := Match(Comma);
      while more
        invariant Valid() && old(pos) < pos
        invariant ParseArguments(tokens, old(pos)) ==
          if more then Ahead(args, ParseArguments(tokens, pos)) else Parsed(args, pos)
        decreases |tokens| - pos, more
      {
        var arg := Expression(0);
        if arg.Err? {
          return Err(arg.error);
        }
        AheadOne(args, arg.value, ParseArguments(tokens, if pos + 1 < |tokens| then pos + 1 else pos));
        args := args + [arg.value];
        more := Match(Comma);
      }
      return Ok(args);
    }

    method Statement() returns (r: Result<Stmt, ParseError>)
      requires Valid()
      modifies this`pos
      ensures Reads(ParseStatement(tokens, old(pos)), r, pos)
      decreases |tokens| - pos, 1
    {
      hide ParseVarDecl, ParseWhile, ParseIf, ParseBlock, ParseSimple;
      match Peek(tokens, pos).kind {
        case KwInteger | KwString =>
          r := Declaration();
        case KwWhile =>
          r := WhileLoop();
        case KwIf =>
          r := Conditional();
        case LBrace =>
          var body := BlockOf();
          return if body.Err? then Err(body.error) else Ok(Block(body.value));
        case _ =>
          r := Simple();
      }
    }

    method Simple() returns (r: Result<Stmt, ParseError>)
      requires Valid()
      modifies this`pos
      ensures Reads(ParseSimple(tokens, old(pos)), r, pos)
    {
      hide ParseEnded;
      if Peek(tokens, pos).kind == IdentifierToken && Peek(tokens, pos + 1).kind == AssignSign {
        var name := tokens[pos].text;
        pos := pos + 2;
        var value := Ended();
        return if value.Err? then Err(value.error) else Ok(Assign(name, value.value));
      }
      var expr := Ended();
      return if expr.Err? then Err(expr.error) else Ok(ExprStmt(expr.value));
    }

    method Ended() returns (r: Result<Expr, ParseError>)
      requires Valid()
      modifies this`pos
      ensures Reads(ParseEnded(tokens, old(pos)), r, pos)
    {
      hide ParseExpr;
      r := Expression(0);
      if r.Ok? {
        var end := ExpectToken(Semicolon, WantPunctuation(Semicolon));
        if end.Err? {
          return Err(end.error);
        }
      }
    }

    method Declaration() returns (r: Result<Stmt, ParseError>)
      requires Valid()
      modifies this`pos
      ensures Reads(ParseVarDecl(tokens, old(pos)), r, pos)
    {
      hide ParseEnded, ParseType;
      var ty := TypeKeyword();
      if ty.Err? {
        return Err(ty.error);
      }
      var name := ExpectToken(IdentifierToken, WantIdentifier);
      if name.Err? {
        return Err(name.error);
      }
      var initialized := Match(AssignSign);
      if initialized {
        var init := Ended();
        return if init.Err? then Err(init.error) else Ok(VarDecl(ty.value, name.value.text, Some(init.value)));
      }
      var end := ExpectToken(Semicolon, WantPunctuation(Semicolon));
      return if end.Err? then Err(end.error) else Ok(VarDecl(ty.value, name.value.text, None));
    }

    method Condition() returns (r: Result<Expr, ParseError>)
      requires Valid()
      modifies this`pos
      ensures Reads(ParseCondition(tokens, old(pos)), r, pos)
    {
      hide ParseExpr;
      var open := ExpectToken(LParen, WantPunctuation(LParen));
      if open.Err? {
        return Err(open.error);
      }
      r := Expression(0);
      if r.Ok? {
        var close := ExpectToken(RParen, WantPunctuation(RParen));
        if close.Err? {
          return Err(close.error);
        }
      }
    }

    method WhileLoop() returns (r: Result<Stmt, ParseError>)
      requires Valid() && KindAt(tokens, pos) == KwWhile
      modifies this`pos
      ensures Reads(ParseWhile(tokens, old(pos)), r, pos)
      decreases |tokens| - pos, 0
    {
      hide ParseCondition, ParseBlock;
      pos := pos + 1;
      var condition := Condition();
      if condition.Err? {
        return Err(condition.error);
      }
      var body := BlockOf();
      return if body.Err? then Err(body.error) else Ok(While(condition.value, body.value));
    }

    method Conditional() returns (r: Result<Stmt, ParseError>)
      requires Valid() && KindAt(tokens, pos) == KwIf
      modifies this`pos
      ensures Reads(ParseIf(tokens, old(pos)), r, pos)
      decreases |tokens| - pos, 0
    {
      hide ParseCondition, ParseBlock;
      pos := pos + 1;
      var condition := Condition();
      if condition.Err? {
        return Err(condition.error);
      }
      var thenBranch := BlockOf();
      if thenBranch.Err? {
        return Err(thenBranch.error);
      }
      var otherwise := Match(KwElse);
      if !otherwise {
        return Ok(If(condition.value, thenBranch.value, NoElse));
      }
      var elseBranch := BlockOf();
      return if elseBranch.Err? then Err(elseBranch.error)
             else Ok(If(condition.value, thenBranch.value, Else(elseBranch.value)));
    }

    method BlockOf() returns (r: Result<seq<Stmt>, ParseError>)
      requires Valid()
      modifies this`pos
      ensures Reads(ParseBlock(tokens, old(pos)), r, pos)
      decreases |tokens| - pos, 0
    {
      hide ParseStatement;
      var open := ExpectToken(LBrace, WantPunctuation(LBrace));
      if open.Err? {
        return Err(open.error);
      }
      ghost var start := pos;
      var body := [];
      AheadNothing(ParseStatements(tokens, start));
      while Peek(tokens, pos).kind != RBrace && Peek(tokens, pos).kind != EndToken
        invariant Valid() && old(pos) < pos
        invariant ParseStatements(tokens, start) == Ahead(body, ParseStatements(tokens, pos))
        decreases |tokens| - pos
      {
        var s := Statement();
        if s.Err? {
          return Err(s.error);
        }
        AheadOne(body, s.value, ParseStatements(tokens, pos));
        body := body + [s.value];
      }
      assert body + [] == body;
      var close := ExpectToken(RBrace, WantPunctuation(RBrace));
      return if close.Err? then Err(close.error) else Ok(body);
    }

    method Global() returns (r: Result<GlobalVar, ParseError>)
      requires Valid()
      modifies this`pos
      ensures Reads(ParseGlobal(tokens, old(pos)), r, pos)
    {
      hide ParseType, ParseLiteral;
      var ty := TypeKeyword();
      if ty.Err? {
        return Err(ty.error);
      }
      var name := ExpectToken(IdentifierToken, WantIdentifier);
      if name.Err? {
        return Err(name.error);
      }
      var init := None;
      var initialized := Match(AssignSign);
      if initialized {
        var literal := Literal(ty.value);
        if literal.Err? {
          return Err(literal.error);
        }
        init := Some(literal.value);
      }
      var end := ExpectToken(Semicolon, WantPunctuation(Semicolon));
      return if end.Err? then Err(end.error) else Ok(GlobalVar(ty.value, name.value.text, init));
    }

    method Literal(ty: ValueType) returns (r: Result<Value, ParseError>)
      requires Valid()
      modifies this`pos
      ensures Reads(ParseLiteral(tokens, old(pos), ty), r, pos)
    {
      var token := tokens[pos];
      var isInteger := Check(IntToken);
      if isInteger {
        if ty != Integer {
          return Err(ParseError(WantMatchingLiteral, 0));
        }
        pos := pos + 1;
        return Ok(Int(token.integer));
      }
      var isText := Check(StringToken);
      if isText {
        if ty != Text {
          return Err(ParseError(WantMatchingLiteral, 0));
        }
        pos := pos + 1;
        return Ok(Str(token.text));
      }
      return Err(ParseError(WantGlobalLiteral, 0));
    }

    method Params() returns (r: Result<seq<Param>, ParseError>)
      requires Valid()
      modifies this`pos
      ensures Reads(ParseParams(tokens, old(pos)), r, pos)
    {
      hide ParseType;
      var params := [];
      var more := true;
      AheadNothing(ParseParams(tokens, pos));
      while more
        invariant Valid() && old(pos) <= pos
        invariant ParseParams(tokens, old(pos)) ==
          if more then Ahead(params, ParseParams(tokens, pos)) else Parsed(params, pos)
        invariant !more ==> old(pos) < pos
        decreases |tokens| - pos, more
      {
        var ty := TypeKeyword();
        if ty.Err? {
          return Err(ty.error);
        }
        var name := ExpectToken(IdentifierToken, WantIdentifier);
        if name.Err? {
          return Err(name.error);
        }
        var param := Param(ty.value, name.value.text);
        AheadOne(params, param, ParseParams(tokens, if pos + 1 < |tokens| then pos + 1 else pos));
        params := params + [param];
        more := Match(Comma);
      }
      return Ok(params);
    }

    method Event() returns (r: Result<EventHandler, ParseError>)
      requires Valid()
      modifies this`pos
      ensures Reads(ParseEvent(tokens, old(pos)), r, pos)
    {
      hide ParseParams, ParseBlock;
      var name := ExpectToken(IdentifierToken, WantEvent);
      if name.Err? {
        return Err(name.error);
      }
      var open := ExpectToken(LParen, WantPunctuation(LParen));
      if open.Err? {
        return Err(open.error);
      }
      var params := [];
      var none := Check(RParen);
      if !none {
        var parsed := Params();
        if parsed.Err? {
          return Err(parsed.error);
        }
        params := parsed.value;
      }
      var close := ExpectToken(RParen, WantPunctuation(RParen));
      if close.Err? {
        return Err(close.error);
      }
      var body := BlockOf();
      return if body.Err? then Err(body.error) else Ok(EventHandler(name.value.text, params, body.value));
    }

    method Globals() returns (r: Result<seq<GlobalVar>, ParseError>)
      requires Valid()
      modifies this`pos
      ensures Reads(ParseGlobals(tokens, old(pos)), r, pos)
    {
      hide ParseGlobal;
      var globals := [];
      AheadNothing(ParseGlobals(tokens, pos));
      while Peek(tokens, pos).kind == KwInteger || Peek(tokens, pos).kind == KwString
        invariant Valid()
        invariant ParseGlobals(tokens, old(pos)) == Ahead(globals, ParseGlobals(tokens, pos))
        decreases |tokens| - pos
      {
        var g := Global();
        if g.Err? {
          return Err(g.error);
        }
        AheadOne(globals, g.value, ParseGlobals(tokens, pos));
        globals := globals + [g.value];
      }
      assert globals + [] == globals;
      return Ok(globals);
    }

    method Events() returns (r: Result<seq<EventHandler>, ParseError>)
      requires Valid()
      modifies this`pos
      ensures Reads(ParseEvents(tokens, old(pos)), r, pos)
    {
      hide ParseEvent;
      var events := [];
      AheadNothing(ParseEvents(tokens, pos));
      while Peek(tokens, pos).kind != RBrace && Peek(tokens, pos).kind != EndToken
        invariant Valid()
        invariant ParseEvents(tokens, old(pos)) == Ahead(events, ParseEvents(tokens, pos))
        decreases |tokens| - pos
      {
        var h := Event();
        if h.Err? {
          return Err(h.error);
        }
        AheadOne(events, h.value, ParseEvents(tokens, pos));
        events := events + [h.value];
      }
      assert events + [] == events;
      return Ok(events);
    }

    method Script() returns (r: Result<Ast.Script, ParseError>)
      requires Valid() && pos == 0
      modifies this`pos
      ensures r == ParseScript(tokens)
    {
      hide ParseGlobals, ParseEvents;
      var globals := Globals();
      if globals.Err? {
        return Err(globals.error);
      }
      var word := ExpectToken(KwDefault, WantDefault);
      if word.Err? {
        return Err(word.error);
      }
      var open := ExpectToken(LBrace, WantPunctuation(LBrace));
      if open.Err? {
        return Err(open.error);
      }
      var events := Events();
      if events.Err? {
        return Err(events.error);
      }
      var close := ExpectToken(RBrace, WantPunctuation(RBrace));
      if close.Err? {
        return Err(close.error);
      }
      var end := ExpectToken(EndToken, WantEnd);
      if end.Err? {
        return Err(end.error);
      }
      if events.value == [] {
        return Err(ParseError(WantEvent, 0));
      }
      return Ok(Ast.Script.Script(globals.value, events.value));
    }
  }
}
