/** What the parser can build, and that it builds nothing else: every tree it returns has at least one
    handler, names that are words and no keywords, literals the scanner accepts, and globals with
    literals of their own type. With the inverse this makes printing a way to reformat a source, and
    a source may end in a line comment that no newline ends. The lemmas follow the parser, function
    by function: what each one builds can be printed when every token it reads could be scanned. */
module ParseRange {
  import opened Prelude
  import opened Ast
  import opened Lexer
  import opened SourceText
  import opened Parser
  import opened Printer
  import opened ParseInverse

  // ----- tokens -----

  /** An identifier's text is a word that is no keyword, and no number is negative. */
  predicate Scannable(t: Token) {
    (t.kind == IdentifierToken ==> Identifier(t.text)) && (t.kind == IntToken ==> t.integer >= 0)
  }

  ghost predicate AllScannable(ts: seq<Token>) {
    forall i :: 0 <= i < |ts| ==> Scannable(ts[i])
  }

  lemma {:induction false} WordsAreWords(s: Bytes, i: nat)
    requires i <= |s|
    ensures forall k :: i <= k < WordEnd(s, i) ==> IsIdentChar(s[k])
    decreases |s| - i
  {
    if i < |s| && IsIdentChar(s[i]) {
      WordsAreWords(s, i + 1);
    }
  }

  lemma ScannedIsScannable(s: Bytes, at: Place)
    requires at.i < |s| && at.lineStart <= at.i
    ensures ScanAt(s, at).Scanned? ==> Scannable(ScanAt(s, at).token)
  {
    hide WordEnd, Number, Quoted, CommentEnd, LineEnd;
    if IsIdentStart(s[at.i]) {
      WordsAreWords(s, at.i);
      assert WordEnd(s, at.i) > at.i by { ScanAdvances(s, at); }
      var word := s[at.i..WordEnd(s, at.i)];
      assert word[0] == s[at.i] && IsWord(word);
    }
  }

  lemma ScanAdvances(s: Bytes, at: Place)
    requires at.i < |s| && IsIdentStart(s[at.i])
    ensures WordEnd(s, at.i) > at.i
  {
    assert WordEnd(s, at.i) == WordEnd(s, at.i + 1);
  }

  lemma {:induction false} TokensScannable(s: Bytes, at: Place)
    requires at.lineStart <= at.i
    ensures TokensFrom(s, at).Ok? ==> AllScannable(TokensFrom(s, at).value)
    decreases |s| - at.i
  {
    hide ScanAt, Scannable;
    if at.i < |s| {
      ScannedIsScannable(s, at);
      match ScanAt(s, at)
      case Failed(_) =>
      case Skipped(next) => TokensScannable(s, next);
      case Scanned(token, next) => TokensScannable(s, next);
    } else {
      EndIsScannable(at.line);
    }
  }

  lemma EndIsScannable(line: nat)
    ensures Scannable(Token(EndToken, [], 0, line))
  {
  }

  // ----- expressions -----

  lemma {:induction false} BuiltExpr(ts: TokenList, pos: nat, min: int)
    requires Terminated(ts) && pos < |ts| && AllScannable(ts)
    ensures ParseExpr(ts, pos, min).Parsed? ==> PrintableExpr(ParseExpr(ts, pos, min).value)
    decreases |ts| - pos, 3
  {
    BuiltUnary(ts, pos);
    match ParseUnary(ts, pos)
    case Rejected(_) =>
    case Parsed(left, next) => BuiltOperators(ts, next, left, min);
  }

  lemma {:induction false} BuiltOperators(ts: TokenList, pos: nat, left: Expr, min: int)
    requires Terminated(ts) && pos < |ts| && AllScannable(ts) && PrintableExpr(left)
    ensures ParseOperators(ts, pos, left, min).Parsed? ==> PrintableExpr(ParseOperators(ts, pos, left, min).value)
    decreases |ts| - pos, 0
  {
    var k := KindAt(ts, pos);
    if Precedence(k) >= 0 && Precedence(k) >= min {
      BuiltExpr(ts, pos + 1, Precedence(k) + 1);
      match ParseExpr(ts, pos + 1, Precedence(k) + 1)
      case Rejected(_) =>
      case Parsed(right, next) => BuiltOperators(ts, next, Binary(OperatorOf(k), left, right), min);
    }
  }

  lemma {:induction false} BuiltUnary(ts: TokenList, pos: nat)
    requires Terminated(ts) && pos < |ts| && AllScannable(ts)
    ensures ParseUnary(ts, pos).Parsed? ==> PrintableExpr(ParseUnary(ts, pos).value)
    decreases |ts| - pos, 2
  {
    if IsCast(ts, pos) {
      BuiltUnary(ts, pos + 3);
    } else {
      BuiltPrimary(ts, pos);
    }
  }

  lemma {:induction false} BuiltPrimary(ts: TokenList, pos: nat)
    requires Terminated(ts) && pos < |ts| && AllScannable(ts)
    ensures ParsePrimary(ts, pos).Parsed? ==> PrintableExpr(ParsePrimary(ts, pos).value)
    decreases |ts| - pos, 1
  {
    assert Scannable(ts[pos]);
    match KindAt(ts, pos) {
      case IdentifierToken =>
        if KindAt(ts, pos + 1) == LParen && KindAt(ts, pos + 2) != RParen {
          BuiltArguments(ts, pos + 2);
        }
      case LParen => BuiltExpr(ts, pos + 1, 0);
      case _ =>
    }
  }

  lemma {:induction false} BuiltArguments(ts: TokenList, pos: nat)
    requires Terminated(ts) && pos < |ts| && AllScannable(ts)
    ensures ParseArguments(ts, pos).Parsed? ==> PrintableArgs(ParseArguments(ts, pos).value)
    decreases |ts| - pos, 4
  {
    BuiltExpr(ts, pos, 0);
    match ParseExpr(ts, pos, 0)
    case Rejected(_) =>
    case Parsed(arg, next) =>
      if KindAt(ts, next) == Comma {
        BuiltArguments(ts, next + 1);
        if ParseArguments(ts, next + 1).Parsed? {
          var rest := ParseArguments(ts, next + 1).value;
          assert ([arg] + rest)[1..] == rest;
        }
      }
  }

  // ----- statements -----

  lemma BuiltEnded(ts: TokenList, pos: nat)
    requires Terminated(ts) && pos < |ts| && AllScannable(ts)
    ensures ParseEnded(ts, pos).Parsed? ==> PrintableExpr(ParseEnded(ts, pos).value)
  {
    hide ParseExpr, PrintableExpr;
    BuiltExpr(ts, pos, 0);
  }

  lemma BuiltCondition(ts: TokenList, pos: nat)
    requires Terminated(ts) && pos < |ts| && AllScannable(ts)
    ensures ParseCondition(ts, pos).Parsed? ==> PrintableExpr(ParseCondition(ts, pos).value)
  {
    hide ParseExpr, PrintableExpr;
    if pos + 1 < |ts| {
      BuiltExpr(ts, pos + 1, 0);
    }
  }

  lemma BuiltSimple(ts: TokenList, pos: nat)
    requires Terminated(ts) && pos < |ts| && AllScannable(ts)
    ensures ParseSimple(ts, pos).Parsed? ==> PrintableStmt(ParseSimple(ts, pos).value)
  {
    hide ParseEnded, PrintableExpr;
    assert Scannable(ts[pos]);
    BuiltEnded(ts, pos);
    if pos + 2 < |ts| {
      BuiltEnded(ts, pos + 2);
    }
  }

  lemma BuiltVarDecl(ts: TokenList, pos: nat)
    requires Terminated(ts) && pos < |ts| && AllScannable(ts)
    ensures ParseVarDecl(ts, pos).Parsed? ==> PrintableStmt(ParseVarDecl(ts, pos).value)
  {
    hide ParseEnded, PrintableExpr;
    if pos + 1 < |ts| {
      assert Scannable(ts[pos + 1]);
    }
    if pos + 3 < |ts| {
      BuiltEnded(ts, pos + 3);
    }
  }

  lemma {:induction false} BuiltStatement(ts: TokenList, pos: nat)
    requires Terminated(ts) && pos < |ts| && AllScannable(ts)
    ensures ParseStatement(ts, pos).Parsed? ==> PrintableStmt(ParseStatement(ts, pos).value)
    decreases |ts| - pos, 1
  {
    hide ParseVarDecl, ParseSimple;
    match KindAt(ts, pos) {
      case KwInteger => BuiltVarDecl(ts, pos);
      case KwString => BuiltVarDecl(ts, pos);
      case KwWhile => BuiltWhile(ts, pos);
      case KwIf => BuiltIf(ts, pos);
      case LBrace => BuiltBlock(ts, pos);
      case _ => BuiltSimple(ts, pos);
    }
  }

  lemma {:induction false} BuiltWhile(ts: TokenList, pos: nat)
    requires Terminated(ts) && pos < |ts| && AllScannable(ts) && KindAt(ts, pos) == KwWhile
    ensures ParseWhile(ts, pos).Parsed? ==> PrintableStmt(ParseWhile(ts, pos).value)
    decreases |ts| - pos, 0
  {
    hide ParseCondition, ParseBlock;
    BuiltCondition(ts, pos + 1);
    match ParseCondition(ts, pos + 1)
    case Rejected(_) =>
    case Parsed(_, p1) => BuiltBlock(ts, p1);
  }

  lemma {:induction false} BuiltIf(ts: TokenList, pos: nat)
    requires Terminated(ts) && pos < |ts| && AllScannable(ts) && KindAt(ts, pos) == KwIf
    ensures ParseIf(ts, pos).Parsed? ==> PrintableStmt(ParseIf(ts, pos).value)
    decreases |ts| - pos, 0
  {
    hide ParseCondition, ParseBlock;
    BuiltCondition(ts, pos + 1);
    match ParseCondition(ts, pos + 1)
    case Rejected(_) =>
    case Parsed(_, p1) =>
      BuiltBlock(ts, p1);
      if ParseBlock(ts, p1).Parsed? && KindAt(ts, ParseBlock(ts, p1).next) == KwElse {
        BuiltBlock(ts, ParseBlock(ts, p1).next + 1);
      }
  }

  lemma {:induction false} BuiltBlock(ts: TokenList, pos: nat)
    requires Terminated(ts) && pos < |ts| && AllScannable(ts)
    ensures ParseBlock(ts, pos).Parsed? ==> PrintableBlock(ParseBlock(ts, pos).value)
    decreases |ts| - pos, 0
  {
    if pos + 1 < |ts| {
      BuiltStatements(ts, pos + 1);
    }
  }

  lemma {:induction false} BuiltStatements(ts: TokenList, pos: nat)
    requires Terminated(ts) && pos < |ts| && AllScannable(ts)
    ensures ParseStatements(ts, pos).Parsed? ==> PrintableBlock(ParseStatements(ts, pos).value)
    decreases |ts| - pos, 2
  {
    hide ParseStatement;
    if KindAt(ts, pos) != RBrace && KindAt(ts, pos) != EndToken {
      BuiltStatement(ts, pos);
      match ParseStatement(ts, pos)
      case Rejected(_) =>
      case Parsed(s, p1) =>
        BuiltStatements(ts, p1);
        if ParseStatements(ts, p1).Parsed? {
          var rest := ParseStatements(ts, p1).value;
          assert ([s] + rest)[1..] == rest;
        }
    }
  }

  // ----- scripts -----

  lemma BuiltGlobal(ts: TokenList, pos: nat)
    requires Terminated(ts) && pos < |ts| && AllScannable(ts)
    ensures ParseGlobal(ts, pos).Parsed? ==> PrintableGlobal(ParseGlobal(ts, pos).value)
  {
    if pos + 1 < |ts| {
      assert Scannable(ts[pos + 1]);
    }
    if pos + 3 < |ts| {
      assert Scannable(ts[pos + 3]);
    }
  }

  lemma {:induction false} BuiltGlobals(ts: TokenList, pos: nat)
    requires Terminated(ts) && pos < |ts| && AllScannable(ts)
    ensures ParseGlobals(ts, pos).Parsed? ==> forall g :: g in ParseGlobals(ts, pos).value ==> PrintableGlobal(g)
    decreases |ts| - pos
  {
    hide ParseGlobal, PrintableGlobal;
    if KindAt(ts, pos) == KwInteger || KindAt(ts, pos) == KwString {
      BuiltGlobal(ts, pos);
      match ParseGlobal(ts, pos)
      case Rejected(_) =>
      case Parsed(_, p1) => BuiltGlobals(ts, p1);
    }
  }

  lemma {:induction false} BuiltParams(ts: TokenList, pos: nat)
    requires Terminated(ts) && pos < |ts| && AllScannable(ts)
    ensures ParseParams(ts, pos).Parsed? ==> forall q :: q in ParseParams(ts, pos).value ==> Identifier(q.name)
    decreases |ts| - pos
  {
    hide Identifier;
    assert ParseType(ts, pos).Parsed? ==> ParseType(ts, pos).next == pos + 1;
    hide ParseType;
    if ParseType(ts, pos).Parsed? && ts[pos + 1].kind == IdentifierToken {
      assert Scannable(ts[pos + 1]) && Expect(ts, pos + 1, IdentifierToken, WantIdentifier) == Parsed(ts[pos + 1], pos + 2);
      if KindAt(ts, pos + 2) == Comma {
        BuiltParams(ts, pos + 3);
      }
    }
  }

  lemma BuiltEvent(ts: TokenList, pos: nat)
    requires Terminated(ts) && pos < |ts| && AllScannable(ts)
    ensures ParseEvent(ts, pos).Parsed? ==> PrintableEvent(ParseEvent(ts, pos).value)
  {
    hide ParseParams, ParseBlock, Identifier, PrintableBlock;
    assert Scannable(ts[pos]);
    if pos + 2 < |ts| {
      BuiltParams(ts, pos + 2);
      var p3 := if KindAt(ts, pos + 2) == RParen then pos + 2
                else if ParseParams(ts, pos + 2).Parsed? then ParseParams(ts, pos + 2).next else pos;
      if p3 + 1 < |ts| {
        BuiltBlock(ts, p3 + 1);
      }
    }
  }

  lemma {:induction false} BuiltEvents(ts: TokenList, pos: nat)
    requires Terminated(ts) && pos < |ts| && AllScannable(ts)
    ensures ParseEvents(ts, pos).Parsed? ==> forall h :: h in ParseEvents(ts, pos).value ==> PrintableEvent(h)
    decreases |ts| - pos
  {
    hide ParseEvent, PrintableEvent;
    if KindAt(ts, pos) != RBrace && KindAt(ts, pos) != EndToken {
      BuiltEvent(ts, pos);
      match ParseEvent(ts, pos)
      case Rejected(_) =>
      case Parsed(_, p1) => BuiltEvents(ts, p1);
    }
  }

  lemma BuiltScript(ts: TokenList)
    requires Terminated(ts) && AllScannable(ts)
    ensures ParseScript(ts).Ok? ==> PrintableScript(ParseScript(ts).value)
  {
    hide ParseGlobals, ParseEvents, PrintableGlobal, PrintableEvent;
    BuiltGlobals(ts, 0);
    match ParseGlobals(ts, 0)
    case Rejected(_) =>
    case Parsed(_, p1) =>
      if p1 + 2 < |ts| {
        BuiltEvents(ts, p1 + 2);
      }
  }

  // ----- the range of the parser -----

  lemma ParsedIsPrintable(source: Bytes)
    requires ParseSource(source).Ok?
    ensures PrintableScript(ParseSource(source).value)
  {
    hide ParseScript, PrintableScript, TokensFrom;
    TokensScannable(source, START);
    BuiltScript(Tokens(source).value);
  }

  lemma PrintableIsValid(script: Script)
    requires PrintableScript(script)
    ensures script.Valid()
  {
  }

  /** The parser can build a tree exactly when the tree has a handler, valid names and literals
      the scanner accepts. */
  lemma ParsableExactlyWhenPrintable(script: Script)
    ensures (exists source :: ParseSource(source) == Ok(script)) <==> PrintableScript(script)
  {
    hide ParseSource, PrintableScript, PrintScript, Render;
    if source :| ParseSource(source) == Ok(script) {
      ParsedIsPrintable(source);
    }
    if PrintableScript(script) {
      var gaps := Spaced(|PrintScript(script)| + 1);
      ParseInvertsPrint(script, gaps);
    }
  }

  function Spaced(n: nat): (gaps: seq<seq<Trivia>>)
    ensures |gaps| == n && forall i :: 0 <= i < n ==> gaps[i] == [Blank(' ')]
  {
    if n == 0 then [] else Spaced(n - 1) + [[Blank(' ')]]
  }

  /** Printing what was parsed, under any layout, reformats the source: it parses to the same tree. */
  lemma ReformattedSource(source: Bytes, gaps: seq<seq<Trivia>>)
    requires ParseSource(source).Ok? && ValidLayout(PrintScript(ParseSource(source).value), gaps)
    ensures ParseSource(Render(PrintScript(ParseSource(source).value), gaps)) == ParseSource(source)
  {
    hide ParseSource, PrintableScript, PrintScript, Render;
    ParsedIsPrintable(source);
    ParseInvertsPrint(ParseSource(source).value, gaps);
  }

  // ----- the last line -----

  const NL: Bytes := ['\n']

  lemma {:induction false} LineEndsAlike(s: Bytes, i: nat)
    requires i <= |s|
    ensures LineEnd(s + NL, i) == LineEnd(s, i)
    decreases |s| - i
  {
    if i < |s| {
      LineEndsAlike(s, i + 1);
    }
  }

  lemma {:induction false} WordsAlike(s: Bytes, i: nat)
    requires i <= |s|
    ensures WordEnd(s + NL, i) == WordEnd(s, i)
    decreases |s| - i
  {
    if i < |s| {
      WordsAlike(s, i + 1);
    }
  }

  lemma {:induction false} NumbersAlike(s: Bytes, i: nat, value: nat)
    requires i <= |s| && value <= MAX_INTEGER
    ensures Number(s + NL, i, value) == Number(s, i, value)
    decreases |s| - i
  {
    if i < |s| && IsDigit(s[i]) {
      var next := value * 10 + (s[i] as int - '0' as int);
      if next <= MAX_INTEGER {
        NumbersAlike(s, i + 1, next);
      }
    }
  }

  lemma {:induction false} QuotedAlike(s: Bytes, i: nat)
    requires i <= |s|
    ensures Quoted(s + NL, i) == Quoted(s, i)
    decreases |s| - i
  {
    if i + 1 < |s| && s[i] == '\\' {
      QuotedAlike(s, i + 2);
    } else if i < |s| {
      QuotedAlike(s, i + 1);
    }
  }

  lemma {:induction false} CommentsAlike(s: Bytes, at: Place)
    requires at.i <= |s|
    ensures CommentEnd(s + NL, at) == CommentEnd(s, at)
    decreases |s| - at.i
  {
    if at.i < |s| {
      CommentsAlike(s, if s[at.i] == '\n' then Place(at.i + 1, at.line + 1, at.i + 1) else at.(i := at.i + 1));
    }
  }

  /** A newline after the end is never taken into a token or a comment. */
  lemma ScansAlike(s: Bytes, at: Place)
    requires at.i < |s| && at.lineStart <= at.i
    ensures ScanAt(s + NL, at) == ScanAt(s, at)
  {
    hide WordEnd, Number, Quoted, CommentEnd, LineEnd, KeywordKind;
    var t := s + NL;
    assert t[at.i] == s[at.i] && (at.i + 1 < |s| ==> t[at.i + 1] == s[at.i + 1]);
    if at.i + 1 < |s| {
      LineEndsAlike(s, at.i + 2);
      CommentsAlike(s, at.(i := at.i + 2));
    }
    WordsAlike(s, at.i);
    assert t[at.i..WordEnd(s, at.i)] == s[at.i..WordEnd(s, at.i)];
    NumbersAlike(s, at.i, 0);
    QuotedAlike(s, at.i + 1);
  }

  /** Missing the newline after its last line, a source has the same tokens, the end on an
      earlier line. */
  lemma {:induction false} LastLineScans(s: Bytes, at: Place)
    requires at.lineStart <= at.i <= |s|
    ensures match TokensFrom(s, at)
      case Ok(ts) => TokensFrom(s + NL, at).Ok? && SameAll(ts, TokensFrom(s + NL, at).value)
      case Err(e) => TokensFrom(s + NL, at) == Err(e)
    decreases |s| - at.i
  {
    hide ScanAt;
    if at.i < |s| {
      ScansAlike(s, at);
      match ScanAt(s, at)
      case Failed(_) =>
      case Skipped(next) => LastLineScans(s, next);
      case Scanned(_, next) => LastLineScans(s, next);
    } else {
      assert ScanAt(s + NL, at) == Skipped(Place(at.i + 1, at.line + 1, at.i + 1)) by { ScansNewline(s, at); }
      assert TokensFrom(s + NL, at) == TokensFrom(s + NL, Place(at.i + 1, at.line + 1, at.i + 1));
    }
  }

  lemma ScansNewline(s: Bytes, at: Place)
    requires at.i == |s| && at.lineStart <= at.i
    ensures ScanAt(s + NL, at) == Skipped(Place(at.i + 1, at.line + 1, at.i + 1))
  {
  }

  /** So a comment on the last line needs no newline after it. */
  lemma LastLineParses(source: Bytes, script: Script, gaps: seq<seq<Trivia>>)
    requires PrintableScript(script) && ValidLayout(PrintScript(script), gaps)
    requires source + NL == Render(PrintScript(script), gaps)
    ensures ParseSource(source) == Ok(script)
  {
    hide PrintScript, Render, TokensFrom, ParseScript, PrintableScript;
    ScriptSpellable(script);
    TokenizeInvertsRender(PrintScript(script), gaps);
    LastLineScans(source, START);
    var ts, printed := Tokens(source).value, PrintScript(script);
    var us := Tokens(source + NL).value;
    assert Here(ts, 0, printed) by {
      forall i | 0 <= i < |printed|
        ensures Same(ts[0 + i], printed[i])
      {
        assert Same(us[..|printed|][i], printed[i]) && Same(ts[i], us[i]);
      }
    }
    EventsPrinted(script);
    ScriptReads(ts, script);
  }
}
