/** The lines and columns the scanner reports, and the characters it tells apart. */
module LexerPlaces {
  import opened Prelude
  import opened Lexer
  import opened SourceText

  // ----- characters -----

  /** By ASCII number: white space, digits, and what a word may hold. */
  lemma CharacterClasses(c: Byte)
    ensures var n := c as int;
      && (IsSpace(c) <==> 9 <= n <= 13 || n == 32) && (IsDigit(c) <==> 48 <= n <= 57)
      && (IsIdentStart(c) <==> 65 <= n <= 90 || 97 <= n <= 122 || n == 95)
      && (IsIdentChar(c) <==> 48 <= n <= 57 || 65 <= n <= 90 || 97 <= n <= 122 || n == 95)
  {
  }

  /** Backslash n is a newline and backslash t a tab; any other character stands for itself. */
  lemma EscapesMean(c: Byte)
    ensures EscapeMeaning(c) as int == if c as int == 110 then 10 else if c as int == 116 then 9 else c as int
  {
  }

  /** The signs as they are written. */
  lemma SignsAreWritten()
    ensures SpellPunctuation(LParen) == ['('] && SpellPunctuation(RParen) == [')'] && SpellPunctuation(LBrace) == ['{']
    ensures SpellPunctuation(RBrace) == ['}'] && SpellPunctuation(Semicolon) == [';'] && SpellPunctuation(Comma) == [',']
    ensures SpellPunctuation(PlusSign) == ['+'] && SpellPunctuation(MinusSign) == ['-'] && SpellPunctuation(StarSign) == ['*']
    ensures SpellPunctuation(LessSign) == ['<'] && SpellPunctuation(GreaterSign) == ['>']
    ensures SpellPunctuation(AssignSign) == ['='] && SpellPunctuation(EqualEqual) == ['=', '=']
  {
  }

  /** The six keywords. */
  lemma KeywordsAreWritten(w: Bytes)
    ensures KeywordKind(w) == KwDefault <==> w == "default"
    ensures KeywordKind(w) == KwInteger <==> w == "integer"
    ensures KeywordKind(w) == KwString <==> w == "string"
    ensures KeywordKind(w) == KwWhile <==> w == "while"
    ensures KeywordKind(w) == KwIf <==> w == "if"
    ensures KeywordKind(w) == KwElse <==> w == "else"
  {
  }

  // ----- lines -----

  function Newlines(s: Bytes, a: nat, b: nat): nat
    requires a <= b <= |s|
    decreases b
  {
    if a == b then 0 else Newlines(s, a, b - 1) + (if s[b - 1] == '\n' then 1 else 0)
  }

  /** The line an index is on, and where that line starts. */
  function LineOf(s: Bytes, i: nat): nat
    requires i <= |s|
  {
    1 + Newlines(s, 0, i)
  }

  function StartOf(s: Bytes, i: nat): (r: nat)
    requires i <= |s|
    ensures r <= i
  {
    if i == 0 then 0 else if s[i - 1] == '\n' then i else StartOf(s, i - 1)
  }

  lemma {:induction false} NewlinesJoin(s: Bytes, a: nat, b: nat, c: nat)
    requires a <= b <= c <= |s|
    ensures Newlines(s, a, c) == Newlines(s, a, b) + Newlines(s, b, c)
    decreases c
  {
    if b < c {
      NewlinesJoin(s, a, b, c - 1);
    }
  }

  lemma {:induction false} NoNewlines(s: Bytes, a: nat, b: nat)
    requires a <= b <= |s| && forall i :: a <= i < b ==> s[i] != '\n'
    ensures Newlines(s, a, b) == 0 && StartOf(s, b) == (if a == b then StartOf(s, a) else StartOf(s, b))
    ensures StartOf(s, b) == StartOf(s, a)
    decreases b
  {
    if a < b {
      NoNewlines(s, a, b - 1);
    }
  }

  lemma {:induction false} LineEndStops(s: Bytes, i: nat)
    requires i <= |s|
    ensures forall k :: i <= k < LineEnd(s, i) ==> s[k] != '\n'
    decreases |s| - i
  {
    if i < |s| && s[i] != '\n' {
      LineEndStops(s, i + 1);
    }
  }

  lemma {:induction false} WordHasNone(s: Bytes, i: nat)
    requires i <= |s|
    ensures forall k :: i <= k < WordEnd(s, i) ==> s[k] != '\n'
    decreases |s| - i
  {
    if i < |s| && IsIdentChar(s[i]) {
      WordHasNone(s, i + 1);
    }
  }

  lemma {:induction false} NumberHasNone(s: Bytes, i: nat, value: nat)
    requires i <= |s| && value <= MAX_INTEGER
    ensures Number(s, i, value).Some? ==> forall k :: i <= k < Number(s, i, value).value.1 ==> s[k] != '\n'
    decreases |s| - i
  {
    if i < |s| && IsDigit(s[i]) {
      var next := value * 10 + (s[i] as int - '0' as int);
      if next <= MAX_INTEGER {
        NumberHasNone(s, i + 1, next);
      }
    }
  }

  /** The place is where its index is: on its line, and that line's start known. */
  predicate Placed(s: Bytes, at: Place) {
    at.i <= |s| && at.line == LineOf(s, at.i) && at.lineStart == StartOf(s, at.i)
  }

  /** Skipping from one place to another counted every newline between. */
  predicate Counted(s: Bytes, at: Place, next: Place) {
    && at.i <= next.i <= |s| && next.line == at.line + Newlines(s, at.i, next.i)
    && (at.lineStart == StartOf(s, at.i) ==> next.lineStart == StartOf(s, next.i))
  }

  lemma PlainStep(s: Bytes, at: Place, j: nat)
    requires at.i <= j <= |s| && forall k :: at.i <= k < j ==> s[k] != '\n'
    ensures Counted(s, at, at.(i := j))
  {
    NoNewlines(s, at.i, j);
  }

  lemma NewlineStep(s: Bytes, at: Place)
    requires at.i < |s| && s[at.i] == '\n'
    ensures Counted(s, at, Place(at.i + 1, at.line + 1, at.i + 1))
  {
    assert Newlines(s, at.i, at.i) == 0;
    assert Newlines(s, at.i, at.i + 1) == 1;
  }

  lemma CountedTwice(s: Bytes, a: Place, b: Place, c: Place)
    requires Counted(s, a, b) && Counted(s, b, c)
    ensures Counted(s, a, c)
  {
    hide Newlines, StartOf;
    NewlinesJoin(s, a.i, b.i, c.i);
  }

  lemma {:induction false} CommentCounts(s: Bytes, at: Place)
    requires at.i <= |s|
    ensures CommentEnd(s, at).Some? ==> Counted(s, at, CommentEnd(s, at).value)
    decreases |s| - at.i
  {
    hide Counted;
    if at.i + 1 < |s| {
      if s[at.i] == '*' && s[at.i + 1] == '/' {
        PlainStep(s, at, at.i + 2);
      } else {
        var next := if s[at.i] == '\n' then Place(at.i + 1, at.line + 1, at.i + 1) else at.(i := at.i + 1);
        if s[at.i] == '\n' {
          NewlineStep(s, at);
        } else {
          PlainStep(s, at, at.i + 1);
        }
        CommentCounts(s, next);
        if CommentEnd(s, next).Some? {
          CountedTwice(s, at, next, CommentEnd(s, next).value);
        }
      }
    }
  }

  /** One step of the scan counts its newlines, unless it took a string. */
  lemma ScanCounts(s: Bytes, at: Place)
    requires at.i < |s| && at.lineStart <= at.i
    ensures var r := ScanAt(s, at);
      && (r.Skipped? ==> Counted(s, at, r.next))
      && (r.Scanned? && r.token.kind != StringToken ==> Counted(s, at, r.next))
      && (r.Scanned? ==> r.token.line == at.line && (r.token.kind == StringToken ==> r.next == at.(i := r.next.i)))
  {
    hide Counted, WordEnd, Number, Quoted, CommentEnd, LineEnd, KeywordKind;
    var c := s[at.i];
    if c == '\n' {
      NewlineStep(s, at);
    } else if IsSpace(c) {
      PlainStep(s, at, at.i + 1);
    } else if c == '/' && at.i + 1 < |s| && s[at.i + 1] == '/' {
      LineEndStops(s, at.i + 2);
      PlainStep(s, at, LineEnd(s, at.i + 2));
    } else if c == '/' && at.i + 1 < |s| && s[at.i + 1] == '*' {
      BlockCounts(s, at);
    } else if IsIdentStart(c) {
      WordHasNone(s, at.i);
      PlainStep(s, at, WordEnd(s, at.i));
    } else if IsDigit(c) {
      NumberHasNone(s, at.i, 0);
      if Number(s, at.i, 0).Some? {
        PlainStep(s, at, Number(s, at.i, 0).value.1);
      }
    } else if c != '"' {
      SignCounts(s, at);
    }
  }

  lemma BlockCounts(s: Bytes, at: Place)
    requires at.i + 1 < |s| && at.lineStart <= at.i && s[at.i] == '/' && s[at.i + 1] == '*'
    ensures ScanComment(s, at).Skipped? ==> Counted(s, at, ScanComment(s, at).next)
    ensures !ScanComment(s, at).Scanned?
  {
    hide Counted, CommentEnd;
    PlainStep(s, at, at.i + 2);
    CommentCounts(s, at.(i := at.i + 2));
    if CommentEnd(s, at.(i := at.i + 2)).Some? {
      CountedTwice(s, at, at.(i := at.i + 2), CommentEnd(s, at.(i := at.i + 2)).value);
    }
  }

  lemma SignCounts(s: Bytes, at: Place)
    requires at.i < |s| && at.lineStart <= at.i && s[at.i] != '\n'
    ensures var r := ScanPunctuation(s, at);
      r.Scanned? ==> Counted(s, at, r.next) && r.token.line == at.line && r.token.kind != StringToken
    ensures !ScanPunctuation(s, at).Skipped?
  {
    hide Counted;
    PlainStep(s, at, at.i + 1);
    if s[at.i] == '=' && at.i + 1 < |s| && s[at.i + 1] == '=' {
      PlainStep(s, at, at.i + 2);
    }
  }

  // ----- the whole source -----

  /** Where each token starts, and the end for the last. */
  function Starts(s: Bytes, at: Place): seq<nat>
    requires at.lineStart <= at.i
    decreases |s| - at.i
  {
    if at.i >= |s| then [|s|]
    else
      match ScanAt(s, at)
      case Failed(_) => []
      case Skipped(next) => Starts(s, next)
      case Scanned(_, next) => [at.i] + Starts(s, next)
  }

  /** How many newlines the string literals hold, each after a backslash, up to the end or the
      first error. */
  function Hidden(s: Bytes, at: Place): nat
    requires at.lineStart <= at.i <= |s|
    decreases |s| - at.i
  {
    if at.i == |s| then 0
    else
      match ScanAt(s, at)
      case Failed(_) => 0
      case Skipped(next) => Hidden(s, next)
      case Scanned(token, next) =>
        (if token.kind == StringToken then Newlines(s, at.i, next.i) else 0) + Hidden(s, next)
  }

  ghost predicate LinesRight(s: Bytes, ts: seq<Token>, starts: seq<nat>) {
    |starts| == |ts| && forall k :: 0 <= k < |ts| ==> starts[k] <= |s| && ts[k].line == LineOf(s, starts[k])
  }

  lemma {:induction false} TokensCount(s: Bytes, at: Place, missed: nat)
    requires at.lineStart <= at.i <= |s| && at.line + missed == LineOf(s, at.i) && TokensFrom(s, at).Ok?
    ensures var ts := TokensFrom(s, at).value; var starts := Starts(s, at);
      && |starts| == |ts| && (missed == 0 && Hidden(s, at) == 0 ==> LinesRight(s, ts, starts))
      && starts[|ts| - 1] == |s| && ts[|ts| - 1].line + missed + Hidden(s, at) == LineOf(s, |s|)
    decreases |s| - at.i
  {
    hide ScanAt, Newlines;
    if at.i < |s| {
      ScanCounts(s, at);
      var next := ScanAt(s, at).next;
      NewlinesJoin(s, 0, at.i, next.i);
      var more := if ScanAt(s, at).Scanned? && ScanAt(s, at).token.kind == StringToken then Newlines(s, at.i, next.i) else 0;
      TokensCount(s, next, missed + more);
      if ScanAt(s, at).Scanned? && missed == 0 && Hidden(s, at) == 0 {
        OneMoreRight(s, ScanAt(s, at).token, at.i, TokensFrom(s, next).value, Starts(s, next));
      }
    }
  }

  lemma OneMoreRight(s: Bytes, t: Token, start: nat, ts: seq<Token>, starts: seq<nat>)
    requires start <= |s| && t.line == LineOf(s, start) && LinesRight(s, ts, starts)
    ensures LinesRight(s, [t] + ts, [start] + starts)
  {
    hide LineOf;
  }

  /** Every token carries the line it starts on exactly when no string literal holds a newline after a
      backslash: those are taken into the text and not counted. */
  lemma TokensAreOnTheirLines(s: Bytes)
    requires Tokens(s).Ok?
    ensures LinesRight(s, Tokens(s).value, Starts(s, START)) <==> Hidden(s, START) == 0
  {
    hide LineOf, Starts, Hidden, TokensFrom;
    assert LineOf(s, 0) == 1 by { FirstLine(s); }
    TokensCount(s, START, 0);
  }

  lemma FirstLine(s: Bytes)
    ensures LineOf(s, 0) == 1 && StartOf(s, 0) == 0
  {
  }

  /** Where the scan fails. */
  function FailsAt(s: Bytes, at: Place): nat
    requires at.lineStart <= at.i <= |s| && TokensFrom(s, at).Err?
    decreases |s| - at.i
  {
    match ScanAt(s, at)
    case Failed(_) => at.i
    case Skipped(next) => FailsAt(s, next)
    case Scanned(_, next) => FailsAt(s, next)
  }

  lemma {:induction false} FailureIsPlaced(s: Bytes, at: Place)
    requires Placed(s, at) && TokensFrom(s, at).Err? && Hidden(s, at) == 0
    ensures at.i <= FailsAt(s, at) < |s|
    ensures var e := TokensFrom(s, at).error; var i := FailsAt(s, at);
      e.line == LineOf(s, i) && e.column == i - StartOf(s, i) + 1
    decreases |s| - at.i
  {
    hide ScanAt, Newlines, StartOf;
    ScanCounts(s, at);
    match ScanAt(s, at) {
      case Failed(e) => FailedHere(s, at);
      case Skipped(next) =>
        NewlinesJoin(s, 0, at.i, next.i);
        FailureIsPlaced(s, next);
      case Scanned(token, next) =>
        NewlinesJoin(s, 0, at.i, next.i);
        if token.kind == StringToken {
          NothingHidden(s, at.i, next.i);
        }
        FailureIsPlaced(s, next);
    }
  }

  lemma FailedHere(s: Bytes, at: Place)
    requires at.i < |s| && at.lineStart <= at.i && ScanAt(s, at).Failed?
    ensures ScanAt(s, at).error.line == at.line && ScanAt(s, at).error.column == at.i - at.lineStart + 1
  {
    hide WordEnd, Number, Quoted, CommentEnd, LineEnd, KeywordKind;
  }

  lemma {:induction false} NothingHidden(s: Bytes, a: nat, b: nat)
    requires a <= b <= |s| && Newlines(s, a, b) == 0
    ensures StartOf(s, b) == StartOf(s, a)
    decreases b
  {
    if a < b {
      NothingHidden(s, a, b - 1);
    }
  }

  /** A lexical error carries the line and the column, counted from one, of where the scan failed,
      when no string before it holds a newline. */
  lemma ErrorsArePlaced(s: Bytes)
    requires Tokens(s).Err? && Hidden(s, START) == 0
    ensures var e := Tokens(s).error; var i := FailsAt(s, START);
      i < |s| && e.line == LineOf(s, i) && e.column == i - StartOf(s, i) + 1
  {
    FirstLine(s);
    FailureIsPlaced(s, START);
  }

  /** A string with a newline after a backslash, and a character that no token begins with: the error
      is on the second line and is reported on the first. */
  const ESCAPED: Bytes := ['"', '\\', '\n', '"', '?']

  lemma EscapedNewlineIsNotCounted()
    ensures Tokens(ESCAPED).Err? && Tokens(ESCAPED).error.line == 1 && LineOf(ESCAPED, 4) == 2
  {
    var s := ESCAPED;
    assert Quoted(s, 3) == Some(([], 3));
    assert EscapeMeaning('\n') == '\n' && ['\n'] + [] == ['\n'];
    assert Quoted(s, 1) == Prefix('\n', Quoted(s, 3));
    assert ScanAt(s, START) == Scanned(Token(StringToken, ['\n'], 0, 1), Place(4, 1, 0));
    assert ScanAt(s, Place(4, 1, 0)).Failed?;
    assert Newlines(s, 0, 2) == 0;
  }
}
