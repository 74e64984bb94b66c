/** Writing tokens out as source text, under any layout, and scanning them back. */
module SourceText {
  import opened Prelude
  import opened Bytecode
  import opened Lexer

  // ----- spelling -----

  predicate IsWordKind(k: TokenKind) {
    k in {IdentifierToken, KwDefault, KwInteger, KwString, KwWhile, KwIf, KwElse}
  }

  predicate IsWord(w: Bytes) {
    w != [] && IsIdentStart(w[0]) && forall i :: 0 <= i < |w| ==> IsIdentChar(w[i])
  }

  function SpellPunctuation(k: TokenKind): Bytes {
    match k
    case LParen => "("
    case RParen => ")"
    case LBrace => "{"
    case RBrace => "}"
    case Semicolon => ";"
    case Comma => ","
    case PlusSign => "+"
    case MinusSign => "-"
    case StarSign => "*"
    case LessSign => "<"
    case GreaterSign => ">"
    case AssignSign => "="
    case EqualEqual => "=="
    case _ => ""
  }

  /** A quote, a backslash and a line break need a backslash; any other byte stands for itself. */
  function Escape(text: Bytes): Bytes {
    if text == [] then []
    else
      var c := text[0];
      (if c == '\n' then ['\\', 'n'] else if c == '"' || c == '\\' then ['\\', c] else [c]) + Escape(text[1..])
  }

  function Spell(t: Token): Bytes {
    if IsWordKind(t.kind) then t.text
    else if t.kind == IntToken then (if t.integer >= 0 then Digits(t.integer) else [])
    else if t.kind == StringToken then ['"'] + (Escape(t.text) + ['"'])
    else SpellPunctuation(t.kind)
  }

  /** The tokens a scanner can produce, the end of the source aside. */
  predicate Spellable(t: Token) {
    match t.kind
    case EndToken => false
    case IntToken => t.integer >= 0 && t.text == []
    case StringToken => t.integer == 0
    case _ =>
      if IsWordKind(t.kind) then IsWord(t.text) && KeywordKind(t.text) == t.kind && t.integer == 0
      else t.text == [] && t.integer == 0
  }

  /** Equal but for the line they stand on. */
  predicate Same(a: Token, b: Token) {
    a.kind == b.kind && a.text == b.text && a.integer == b.integer
  }

  ghost predicate SameAll(a: seq<Token>, b: seq<Token>) {
    |a| == |b| && forall i :: 0 <= i < |a| ==> Same(a[i], b[i])
  }

  // ----- layout -----

  datatype Trivia = Blank(c: Byte) | LineComment(text: Bytes) | BlockComment(text: Bytes)

  predicate ValidTrivia(t: Trivia) {
    match t
    case Blank(c) => IsSpace(c)
    case LineComment(text) => '\n' !in text
    case BlockComment(text) => forall i :: 0 <= i < |text| ==>
      !(text[i] == '*' && (text + ['*', '/'])[i + 1] == '/')
  }

  function TriviaText(t: Trivia): Bytes {
    match t
    case Blank(c) => [c]
    case LineComment(text) => ['/', '/'] + (text + ['\n'])
    case BlockComment(text) => ['/', '*'] + (text + ['*', '/'])
  }

  function GapText(gap: seq<Trivia>): Bytes {
    if gap == [] then [] else TriviaText(gap[0]) + GapText(gap[1..])
  }

  /** The tokens in order, with the i-th gap before the i-th token and the last one after all. */
  function Render(ts: seq<Token>, gaps: seq<seq<Trivia>>): Bytes
    requires |gaps| == |ts| + 1
    decreases |ts|
  {
    if ts == [] then GapText(gaps[0])
    else GapText(gaps[0]) + (Spell(ts[0]) + Render(ts[1..], gaps[1..]))
  }

  /** A character that would be taken into the token standing before it. */
  predicate Continues(t: Token, c: Byte) {
    if IsWordKind(t.kind) then IsIdentChar(c)
    else if t.kind == IntToken then IsDigit(c)
    else t.kind == AssignSign && c == '='
  }

  /** Any layout will do, as long as two tokens that would merge are kept apart. */
  ghost predicate ValidLayout(ts: seq<Token>, gaps: seq<seq<Trivia>>) {
    && |gaps| == |ts| + 1
    && (forall i, j :: 0 <= i < |gaps| && 0 <= j < |gaps[i]| ==> ValidTrivia(gaps[i][j]))
    && forall i :: 0 < i < |ts| && gaps[i] == [] && Spell(ts[i]) != [] ==> !Continues(ts[i - 1], Spell(ts[i])[0])
  }

  // ----- scanning what was spelled -----

  lemma {:induction false} WordScans(s: Bytes, i: nat, w: Bytes)
    requires At(s, i, w) && (forall k :: 0 <= k < |w| ==> IsIdentChar(w[k]))
    requires i + |w| == |s| || !IsIdentChar(s[i + |w|])
    ensures WordEnd(s, i) == i + |w|
    decreases |w|
  {
    if w != [] {
      assert s[i] == s[i..i + |w|][0];
      AtSplit(s, i, [w[0]], w[1..]);
      assert w == [w[0]] + w[1..];
      WordScans(s, i + 1, w[1..]);
    }
  }

  /** Scanning a prefix of digits from the left accumulates the number they spell. */
  lemma {:induction false} DigitsScan(s: Bytes, i: nat, n: nat)
    requires At(s, i, Digits(n)) && n <= MAX_INTEGER
    ensures Number(s, i, 0) == Number(s, i + |Digits(n)|, n)
    decreases n
  {
    var d: Byte := (48 + n % 10) as char;
    if n < 10 {
      assert s[i..i + 1] == [d];
      assert s[i] == d;
    } else {
      AtSplit(s, i, Digits(n / 10), [d]);
      DigitsScan(s, i, n / 10);
      var j := i + |Digits(n / 10)|;
      assert s[j..j + 1] == [d];
      assert s[j] == d;
      assert Number(s, j, n / 10) == Number(s, j + 1, n) by {
        OneDigit(s, j, n);
      }
    }
  }

  lemma OneDigit(s: Bytes, j: nat, n: nat)
    requires j < |s| && s[j] == (48 + n % 10) as char && n <= MAX_INTEGER
    ensures Number(s, j, n / 10) == Number(s, j + 1, n)
  {
  }

  lemma {:induction false} DigitsStart(n: nat)
    ensures |Digits(n)| > 0 && IsDigit(Digits(n)[0])
  {
    if n >= 10 {
      DigitsStart(n / 10);
    }
  }

  lemma {:induction false} EscapeScans(s: Bytes, i: nat, text: Bytes)
    requires At(s, i, Escape(text) + ['"'])
    ensures Quoted(s, i) == Some((text, i + |Escape(text)|))
    decreases |text|
  {
    if text == [] {
      assert Escape(text) + ['"'] == ['"'];
      assert s[i..i + 1] == ['"'];
      assert s[i] == '"';
    } else {
      var c := text[0];
      var head := if c == '\n' then ['\\', 'n'] else if c == '"' || c == '\\' then ['\\', c] else [c];
      assert Escape(text) + ['"'] == head + (Escape(text[1..]) + ['"']);
      AtSplit(s, i, head, Escape(text[1..]) + ['"']);
      EscapeScans(s, i + |head|, text[1..]);
      assert s[i] == s[i..i + |head|][0] == head[0];
      if |head| == 2 {
        assert s[i + 1] == s[i..i + 2][1] == head[1];
      }
      assert text == [c] + text[1..];
    }
  }

  /** A spelled token followed by nothing that continues it scans back to itself. */
  lemma TokenScans(s: Bytes, at: Place, t: Token)
    requires Spellable(t) && at.lineStart <= at.i && At(s, at.i, Spell(t))
    requires at.i + |Spell(t)| == |s| || !Continues(t, s[at.i + |Spell(t)|])
    ensures Spell(t) != [] && at.i < |s|
    ensures ScanAt(s, at) == Scanned(t.(line := at.line), at.(i := at.i + |Spell(t)|))
  {
    hide Spell, Spellable, Continues, ScanAt;
    if IsWordKind(t.kind) {
      WordTokenScans(s, at, t);
    } else if t.kind == IntToken {
      NumberTokenScans(s, at, t);
    } else if t.kind == StringToken {
      StringTokenScans(s, at, t);
    } else {
      PunctuationScans(s, at, t);
    }
  }

  lemma WordTokenScans(s: Bytes, at: Place, t: Token)
    requires Spellable(t) && IsWordKind(t.kind)
    requires at.lineStart <= at.i && At(s, at.i, Spell(t))
    requires at.i + |Spell(t)| == |s| || !Continues(t, s[at.i + |Spell(t)|])
    ensures Spell(t) != [] && at.i < |s|
    ensures ScanAt(s, at) == Scanned(t.(line := at.line), at.(i := at.i + |Spell(t)|))
  {
    hide WordEnd;
    var w := Spell(t);
    assert s[at.i..at.i + |w|] == w;
    WordScans(s, at.i, w);
    assert s[at.i] == w[0];
  }

  lemma NumberTokenScans(s: Bytes, at: Place, t: Token)
    requires Spellable(t) && t.kind == IntToken
    requires at.lineStart <= at.i && At(s, at.i, Spell(t))
    requires at.i + |Spell(t)| == |s| || !Continues(t, s[at.i + |Spell(t)|])
    ensures Spell(t) != [] && at.i < |s|
    ensures ScanAt(s, at) == Scanned(t.(line := at.line), at.(i := at.i + |Spell(t)|))
  {
    DigitsStart(t.integer);
    assert s[at.i] == Spell(t)[0];
    DigitsScan(s, at.i, t.integer);
  }

  lemma StringTokenScans(s: Bytes, at: Place, t: Token)
    requires Spellable(t) && t.kind == StringToken
    requires at.lineStart <= at.i && At(s, at.i, Spell(t))
    ensures Spell(t) != [] && at.i < |s|
    ensures ScanAt(s, at) == Scanned(t.(line := at.line), at.(i := at.i + |Spell(t)|))
  {
    AtSplit(s, at.i, ['"'], Escape(t.text) + ['"']);
    assert s[at.i] == Spell(t)[0] == '"';
    EscapeScans(s, at.i + 1, t.text);
  }

  lemma PunctuationScans(s: Bytes, at: Place, t: Token)
    requires Spellable(t) && !IsWordKind(t.kind) && t.kind != IntToken && t.kind != StringToken
    requires at.lineStart <= at.i && At(s, at.i, Spell(t))
    requires at.i + |Spell(t)| == |s| || !Continues(t, s[at.i + |Spell(t)|])
    ensures Spell(t) != [] && at.i < |s|
    ensures ScanAt(s, at) == Scanned(t.(line := at.line), at.(i := at.i + |Spell(t)|))
  {
    var w := Spell(t);
    assert s[at.i] == s[at.i..at.i + |w|][0];
    if t.kind == EqualEqual {
      assert s[at.i + 1] == s[at.i..at.i + |w|][1];
    }
  }

  lemma {:induction false} LineScans(s: Bytes, i: nat, text: Bytes)
    requires At(s, i, text + ['\n']) && '\n' !in text
    ensures LineEnd(s, i) == i + |text| < |s| && s[i + |text|] == '\n'
    decreases |text|
  {
    var whole := text + ['\n'];
    assert s[i] == s[i..i + |whole|][0] == whole[0];
    if text != [] {
      assert whole == [text[0]] + (text[1..] + ['\n']);
      AtSplit(s, i, [text[0]], text[1..] + ['\n']);
      LineScans(s, i + 1, text[1..]);
    }
  }

  lemma {:induction false} CommentScans(s: Bytes, at: Place, text: Bytes)
    requires At(s, at.i, text + ['*', '/']) && ValidTrivia(BlockComment(text))
    ensures CommentEnd(s, at).Some? && CommentEnd(s, at).value.i == at.i + |text| + 2
    decreases |text|
  {
    var whole := text + ['*', '/'];
    assert s[at.i] == s[at.i..at.i + |whole|][0] == whole[0];
    assert s[at.i + 1] == s[at.i..at.i + |whole|][1] == whole[1];
    if text != [] {
      assert !(text[0] == '*' && whole[1] == '/');
      assert whole == [text[0]] + (text[1..] + ['*', '/']);
      AtSplit(s, at.i, [text[0]], text[1..] + ['*', '/']);
      forall i | 0 <= i < |text[1..]|
        ensures !(text[1..][i] == '*' && (text[1..] + ['*', '/'])[i + 1] == '/')
      {
        assert !(text[i + 1] == '*' && whole[i + 2] == '/');
        assert whole[1..] == text[1..] + ['*', '/'];
      }
      CommentScans(s, if s[at.i] == '\n' then Place(at.i + 1, at.line + 1, at.i + 1) else at.(i := at.i + 1), text[1..]);
    }
  }

  /** Layout is skipped, wherever its lines break. */
  lemma TriviaScans(s: Bytes, at: Place, t: Trivia) returns (next: Place)
    requires at.lineStart <= at.i && At(s, at.i, TriviaText(t)) && ValidTrivia(t)
    ensures next.i == at.i + |TriviaText(t)| && next.lineStart <= next.i
    ensures TokensFrom(s, at) == TokensFrom(s, next)
  {
    hide ScanNumber, ScanString, ScanPunctuation, KeywordKind, WordEnd, CommentEnd, LineEnd;
    var w := TriviaText(t);
    assert s[at.i] == s[at.i..at.i + |w|][0] == w[0];
    match t {
      case Blank(c) =>
        next := ScanAt(s, at).next;
      case LineComment(text) =>
        assert s[at.i + 1] == s[at.i..at.i + |w|][1] == w[1];
        AtSplit(s, at.i, ['/', '/'], text + ['\n']);
        LineScans(s, at.i + 2, text);
        var lineEnd := ScanAt(s, at).next;
        next := ScanAt(s, lineEnd).next;
      case BlockComment(text) =>
        assert s[at.i + 1] == s[at.i..at.i + |w|][1] == w[1];
        AtSplit(s, at.i, ['/', '*'], text + ['*', '/']);
        CommentScans(s, at.(i := at.i + 2), text);
        next := ScanAt(s, at).next;
    }
  }

  lemma {:induction false} GapScans(s: Bytes, at: Place, gap: seq<Trivia>) returns (next: Place)
    requires at.lineStart <= at.i && At(s, at.i, GapText(gap))
    requires forall j :: 0 <= j < |gap| ==> ValidTrivia(gap[j])
    ensures next.i == at.i + |GapText(gap)| && next.lineStart <= next.i
    ensures TokensFrom(s, at) == TokensFrom(s, next)
    decreases |gap|
  {
    hide TokensFrom, ValidTrivia;
    if gap == [] {
      next := at;
    } else {
      AtSplit(s, at.i, TriviaText(gap[0]), GapText(gap[1..]));
      next := TriviaScans(s, at, gap[0]);
      next := GapScans(s, next, gap[1..]);
    }
  }

  /** What follows a token in the rendering never continues it. */
  lemma NothingContinues(ts: seq<Token>, gaps: seq<seq<Trivia>>)
    requires ts != [] && ValidLayout(ts, gaps) && (forall i :: 0 <= i < |ts| ==> Spellable(ts[i]))
    ensures var rest := Render(ts[1..], gaps[1..]);
      rest != [] ==> !Continues(ts[0], rest[0])
  {
    if gaps[1] != [] {
      assert ValidTrivia(gaps[1][0]);
      assert gaps[1..][0] == gaps[1];
    } else if |ts| > 1 {
      assert gaps[1..][0] == gaps[1] && ts[1..][0] == ts[1];
      SpelledNonempty(ts[1]);
      assert Render(ts[1..], gaps[1..])[0] == Spell(ts[1])[0];
    }
  }

  lemma SpelledNonempty(t: Token)
    requires Spellable(t)
    ensures Spell(t) != []
  {
    if t.kind == IntToken {
      DigitsStart(t.integer);
    }
  }

  /** The gap before the first token is skipped and the token is scanned. */
  lemma HeadScans(s: Bytes, at: Place, ts: seq<Token>, gaps: seq<seq<Trivia>>) returns (here: Place, after: Place)
    requires ts != [] && ValidLayout(ts, gaps) && (forall i :: 0 <= i < |ts| ==> Spellable(ts[i]))
    requires at.lineStart <= at.i && At(s, at.i, Render(ts, gaps)) && at.i + |Render(ts, gaps)| == |s|
    ensures here.i < |s| && here.lineStart <= here.i && TokensFrom(s, at) == TokensFrom(s, here)
    ensures ScanAt(s, here) == Scanned(ts[0].(line := here.line), after) && after.lineStart <= after.i
    ensures At(s, after.i, Render(ts[1..], gaps[1..])) && after.i + |Render(ts[1..], gaps[1..])| == |s|
  {
    hide ScanAt, Spell, GapText, Spellable, TokensFrom;
    var rest := Render(ts[1..], gaps[1..]);
    AtSplit(s, at.i, GapText(gaps[0]), Spell(ts[0]) + rest);
    here := GapScans(s, at, gaps[0]);
    AtSplit(s, here.i, Spell(ts[0]), rest);
    NothingContinues(ts, gaps);
    after := here.(i := here.i + |Spell(ts[0])|);
    if rest != [] {
      assert s[after.i] == s[after.i..after.i + |rest|][0];
    }
    TokenScans(s, here, ts[0]);
  }

  lemma {:induction false} RenderScans(s: Bytes, at: Place, ts: seq<Token>, gaps: seq<seq<Trivia>>)
    requires ValidLayout(ts, gaps) && (forall i :: 0 <= i < |ts| ==> Spellable(ts[i]))
    requires at.lineStart <= at.i && At(s, at.i, Render(ts, gaps)) && at.i + |Render(ts, gaps)| == |s|
    ensures TokensFrom(s, at).Ok?
    ensures var out := TokensFrom(s, at).value;
      |out| == |ts| + 1 && SameAll(out[..|ts|], ts) && out[|ts|].kind == EndToken
    decreases |ts|
  {
    hide ScanAt, Spell, GapText, Spellable, ValidTrivia, Continues;
    if ts == [] {
      var next := GapScans(s, at, gaps[0]);
    } else {
      var here, after := HeadScans(s, at, ts, gaps);
      RestOfLayout(ts, gaps);
      hide Render, ValidLayout;
      RenderScans(s, after, ts[1..], gaps[1..]);
      var rest := TokensFrom(s, after).value;
      assert TokensFrom(s, here) == Ok([ts[0].(line := here.line)] + rest);
      forall i | 0 < i < |ts|
        ensures Same(rest[i - 1], ts[i])
      {
        assert Same(rest[..|ts| - 1][i - 1], ts[1..][i - 1]);
      }
    }
  }

  lemma RestOfLayout(ts: seq<Token>, gaps: seq<seq<Trivia>>)
    requires ts != [] && ValidLayout(ts, gaps)
    ensures ValidLayout(ts[1..], gaps[1..])
  {
    forall i, j | 0 <= i < |gaps[1..]| && 0 <= j < |gaps[1..][i]|
      ensures ValidTrivia(gaps[1..][i][j])
    {
      assert ValidTrivia(gaps[i + 1][j]);
    }
    forall i | 0 < i < |ts[1..]| && gaps[1..][i] == [] && Spell(ts[1..][i]) != []
      ensures !Continues(ts[1..][i - 1], Spell(ts[1..][i])[0])
    {
      assert gaps[i + 1] == [] && ts[1..][i] == ts[i + 1] && ts[1..][i - 1] == ts[i];
    }
  }

  /** Whatever the layout, scanning a rendering gives back its tokens and the end token. */
  lemma TokenizeInvertsRender(ts: seq<Token>, gaps: seq<seq<Trivia>>)
    requires ValidLayout(ts, gaps) && (forall i :: 0 <= i < |ts| ==> Spellable(ts[i]))
    ensures Tokens(Render(ts, gaps)).Ok?
    ensures var out := Tokens(Render(ts, gaps)).value;
      |out| == |ts| + 1 && SameAll(out[..|ts|], ts) && out[|ts|].kind == EndToken
  {
    RenderScans(Render(ts, gaps), START, ts, gaps);
  }
}
