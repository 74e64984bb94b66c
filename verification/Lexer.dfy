/** The scanner: what it recognizes, and the loop that does it. */
module Lexer {
  import opened Prelude

  datatype TokenKind =
    | EndToken | IdentifierToken | IntToken | StringToken
    | KwDefault | KwInteger | KwString | KwWhile | KwIf | KwElse
    | LParen | RParen | LBrace | RBrace | Semicolon | Comma
    | PlusSign | MinusSign | StarSign | LessSign | GreaterSign | AssignSign | EqualEqual

  datatype Token = Token(kind: TokenKind, text: Bytes, integer: int32, line: nat)

  /** Lexical errors carry the line and column a script editor shows. */
  datatype LexError =
    | UnterminatedComment(line: nat, column: nat)
    | IntegerOutOfRange(line: nat, column: nat)
    | UnterminatedString(line: nat, column: nat)
    | UnexpectedCharacter(c: Byte, line: nat, column: nat)

  /** A place in the source: the index, its line, and where that line starts. */
  datatype Place = Place(i: nat, line: nat, lineStart: nat) {
    function Column(): int {
      i - lineStart + 1
    }
  }

  const MAX_INTEGER: int := 0x7fff_ffff

  predicate IsSpace(c: Byte) {
    c == ' ' || '\t' as int <= c as int <= '\r' as int
  }

  predicate IsDigit(c: Byte) {
    '0' <= c <= '9'
  }

  predicate IsIdentStart(c: Byte) {
    'a' <= c <= 'z' || 'A' <= c <= 'Z' || c == '_'
  }

  predicate IsIdentChar(c: Byte) {
    IsIdentStart(c) || IsDigit(c)
  }

  function KeywordKind(word: Bytes): TokenKind {
    if word == "default" then KwDefault
    else if word == "integer" then KwInteger
    else if word == "string" then KwString
    else if word == "while" then KwWhile
    else if word == "if" then KwIf
    else if word == "else" then KwElse
    else IdentifierToken
  }

  function EscapeMeaning(c: Byte): Byte {
    match c
    case 'n' => '\n'
    case 't' => '\t'
    case _ => c
  }

  function Punctuation(c: Byte): Option<TokenKind> {
    match c
    case '(' => Some(LParen)
    case ')' => Some(RParen)
    case '{' => Some(LBrace)
    case '}' => Some(RBrace)
    case ';' => Some(Semicolon)
    case ',' => Some(Comma)
    case '+' => Some(PlusSign)
    case '-' => Some(MinusSign)
    case '*' => Some(StarSign)
    case '<' => Some(LessSign)
    case '>' => Some(GreaterSign)
    case '=' => Some(AssignSign)
    case _ => None
  }

  // ----- runs of characters -----

  /** The end of the line `i` is on. */
  function LineEnd(s: Bytes, i: nat): (j: nat)
    requires i <= |s|
    ensures i <= j <= |s|
    decreases |s| - i
  {
    if i == |s| || s[i] == '\n' then i else LineEnd(s, i + 1)
  }

  /** Just past the end of a block comment, or nothing when it has none. */
  function CommentEnd(s: Bytes, at: Place): (r: Option<Place>)
    requires at.i <= |s|
    ensures r.Some? ==> at.i < r.value.i <= |s|
    decreases |s| - at.i
  {
    if at.i + 1 >= |s| then None
    else if s[at.i] == '*' && s[at.i + 1] == '/' then Some(at.(i := at.i + 2))
    else CommentEnd(s, if s[at.i] == '\n' then Place(at.i + 1, at.line + 1, at.i + 1) else at.(i := at.i + 1))
  }

  function WordEnd(s: Bytes, i: nat): (j: nat)
    requires i <= |s|
    ensures i <= j <= |s|
    decreases |s| - i
  {
    if i == |s| || !IsIdentChar(s[i]) then i else WordEnd(s, i + 1)
  }

  /** A number's value and its end; nothing once it exceeds a 32-bit integer. */
  function Number(s: Bytes, i: nat, value: nat): (r: Option<(int32, nat)>)
    requires i <= |s| && value <= MAX_INTEGER
    ensures r.Some? ==> i <= r.value.1 <= |s| && r.value.0 >= 0
    decreases |s| - i
  {
    if i == |s| || !IsDigit(s[i]) then Some((value, i))
    else
      var next := value * 10 + (s[i] as int - '0' as int);
      if next > MAX_INTEGER then None else Number(s, i + 1, next)
  }

  /** The text between quotes, and the place of the closing quote. */
  function Quoted(s: Bytes, i: nat): (r: Option<(Bytes, nat)>)
    requires i <= |s|
    ensures r.Some? ==> i <= r.value.1 < |s|
    decreases |s| - i
  {
    if i == |s| then None
    else if s[i] == '"' then Some(([], i))
    else if s[i] == '\\' && i + 1 < |s| then Prefix(EscapeMeaning(s[i + 1]), Quoted(s, i + 2))
    else if s[i] == '\n' then None
    else Prefix(s[i], Quoted(s, i + 1))
  }

  function Prefix(c: Byte, r: Option<(Bytes, nat)>): Option<(Bytes, nat)> {
    if r.Some? then Some(([c] + r.value.0, r.value.1)) else None
  }

  // ----- one token -----

  datatype Scanned = Skipped(next: Place) | Scanned(token: Token, next: Place) | Failed(error: LexError)

  /** What stands at a place: something to skip, a token, or an error. */
  function ScanAt(s: Bytes, at: Place): (r: Scanned)
    requires at.i < |s| && at.lineStart <= at.i
    ensures !r.Failed? ==> at.i < r.next.i <= |s| && r.next.lineStart <= r.next.i
  {
    var c := s[at.i];
    if c == '\n' then Skipped(Place(at.i + 1, at.line + 1, at.i + 1))
    else if IsSpace(c) then Skipped(at.(i := at.i + 1))
    else if c == '/' && at.i + 1 < |s| && s[at.i + 1] == '/' then Skipped(at.(i := LineEnd(s, at.i + 2)))
    else if c == '/' && at.i + 1 < |s| && s[at.i + 1] == '*' then ScanComment(s, at)
    else if IsIdentStart(c) then
      var end := WordEnd(s, at.i);
      var word := s[at.i..end];
      assert end > at.i by { assert WordEnd(s, at.i) == WordEnd(s, at.i + 1); }
      Scanned(Token(KeywordKind(word), word, 0, at.line), at.(i := end))
    else if IsDigit(c) then ScanNumber(s, at)
    else if c == '"' then ScanString(s, at)
    else ScanPunctuation(s, at)
  }

  function ScanComment(s: Bytes, at: Place): (r: Scanned)
    requires at.i + 1 < |s| && at.lineStart <= at.i
    ensures !r.Failed? ==> at.i < r.next.i <= |s| && r.next.lineStart <= r.next.i
  {
    CommentKeepsLine(s, at.(i := at.i + 2));
    match CommentEnd(s, at.(i := at.i + 2))
    case None => Failed(UnterminatedComment(at.line, at.Column()))
    case Some(next) => Skipped(next)
  }

  lemma {:induction false} CommentKeepsLine(s: Bytes, at: Place)
    requires at.lineStart <= at.i <= |s|
    ensures CommentEnd(s, at).Some? ==> CommentEnd(s, at).value.lineStart <= CommentEnd(s, at).value.i
    decreases |s| - at.i
  {
    if at.i + 1 < |s| {
      CommentKeepsLine(s, if s[at.i] == '\n' then Place(at.i + 1, at.line + 1, at.i + 1) else at.(i := at.i + 1));
    }
  }

  function ScanNumber(s: Bytes, at: Place): (r: Scanned)
    requires at.i < |s| && at.lineStart <= at.i && IsDigit(s[at.i])
    ensures !r.Failed? ==> at.i < r.next.i <= |s| && r.next.lineStart <= r.next.i
  {
    match Number(s, at.i, 0)
    case None => Failed(IntegerOutOfRange(at.line, at.Column()))
    case Some((value, end)) =>
      assert Number(s, at.i, 0) == Number(s, at.i + 1, s[at.i] as int - '0' as int);
      Scanned(Token(IntToken, [], value, at.line), at.(i := end))
  }

  function ScanString(s: Bytes, at: Place): (r: Scanned)
    requires at.i < |s| && at.lineStart <= at.i
    ensures !r.Failed? ==> at.i < r.next.i <= |s| && r.next.lineStart <= r.next.i
  {
    match Quoted(s, at.i + 1)
    case None => Failed(UnterminatedString(at.line, at.Column()))
    case Some((text, end)) => Scanned(Token(StringToken, text, 0, at.line), at.(i := end + 1))
  }

  function ScanPunctuation(s: Bytes, at: Place): (r: Scanned)
    requires at.i < |s| && at.lineStart <= at.i
    ensures !r.Failed? ==> at.i < r.next.i <= |s| && r.next.lineStart <= r.next.i
  {
    var c := s[at.i];
    if c == '=' && at.i + 1 < |s| && s[at.i + 1] == '=' then
      Scanned(Token(EqualEqual, [], 0, at.line), at.(i := at.i + 2))
    else
      match Punctuation(c)
      case None => Failed(UnexpectedCharacter(c, at.line, at.Column()))
      case Some(kind) => Scanned(Token(kind, [], 0, at.line), at.(i := at.i + 1))
  }

  // ----- the whole source -----

  function TokensFrom(s: Bytes, at: Place): (r: Result<seq<Token>, LexError>)
    requires at.lineStart <= at.i
    ensures r.Ok? ==> r.value != [] && r.value[|r.value| - 1].kind == EndToken
    decreases |s| - at.i
  {
    if at.i >= |s| then Ok([Token(EndToken, [], 0, at.line)])
    else
      match ScanAt(s, at)
      case Failed(e) => Err(e)
      case Skipped(next) => TokensFrom(s, next)
      case Scanned(token, next) =>
        match TokensFrom(s, next)
        case Err(e) => Err(e)
        case Ok(rest) => Ok([token] + rest)
  }

  const START: Place := Place(0, 1, 0)

  function Tokens(s: Bytes): (r: Result<seq<Token>, LexError>)
    ensures r.Ok? ==> r.value != [] && r.value[|r.value| - 1].kind == EndToken
  {
    TokensFrom(s, START)
  }

  // ----- the scanner's loops -----

  function After(front: seq<Token>, r: Result<seq<Token>, LexError>): Result<seq<Token>, LexError> {
    if r.Ok? then Ok(front + r.value) else r
  }

  lemma AfterToken(front: seq<Token>, t: Token, r: Result<seq<Token>, LexError>)
    ensures After(front, if r.Ok? then Ok([t] + r.value) else r) == After(front + [t], r)
  {
    if r.Ok? {
      assert front + ([t] + r.value) == (front + [t]) + r.value;
    }
  }

  lemma AfterNothing(r: Result<seq<Token>, LexError>)
    ensures After([], r) == r
  {
    if r.Ok? {
      assert [] + r.value == r.value;
    }
  }

  /** The source's single pass: skip or push until the end, then push the end token. */
  method Tokenize(s: Bytes) returns (r: Result<seq<Token>, LexError>)
    ensures r == Tokens(s)
  {
    hide ScanAt;
    var tokens := [];
    var at := START;
    AfterNothing(Tokens(s));
    while at.i < |s|
      invariant at.lineStart <= at.i
      invariant Tokens(s) == After(tokens, TokensFrom(s, at))
      decreases |s| - at.i
    {
      var scanned := Scan(s, at);
      match scanned {
        case Failed(e) =>
          return Err(e);
        case Skipped(next) =>
          at := next;
        case Scanned(token, next) =>
          AfterToken(tokens, token, TokensFrom(s, next));
          tokens := tokens + [token];
          at := next;
      }
    }
    tokens := tokens + [Token(EndToken, [], 0, at.line)];
    return Ok(tokens);
  }

  method Scan(s: Bytes, at: Place) returns (r: Scanned)
    requires at.i < |s| && at.lineStart <= at.i
    ensures r == ScanAt(s, at)
  {
    hide LineEnd, WordEnd, ScanComment, ScanNumber, ScanString, ScanPunctuation, KeywordKind;
    var c := s[at.i];
    if c == '\n' {
      return Skipped(Place(at.i + 1, at.line + 1, at.i + 1));
    }
    if IsSpace(c) {
      return Skipped(at.(i := at.i + 1));
    }
    if c == '/' && at.i + 1 < |s| && s[at.i + 1] == '/' {
      var end := SkipLine(s, at.i + 2);
      return Skipped(at.(i := end));
    }
    if c == '/' && at.i + 1 < |s| && s[at.i + 1] == '*' {
      r := SkipComment(s, at);
      return;
    }
    if IsIdentStart(c) {
      var end := SkipWord(s, at.i);
      var word := s[at.i..end];
      return Scanned(Token(KeywordKind(word), word, 0, at.line), at.(i := end));
    }
    if IsDigit(c) {
      r := TakeNumber(s, at);
      return;
    }
    if c == '"' {
      r := TakeString(s, at);
      return;
    }
    return ScanPunctuation(s, at);
  }

  method SkipLine(s: Bytes, from: nat) returns (i: nat)
    requires from <= |s|
    ensures i == LineEnd(s, from)
  {
    i := from;
    while i < |s| && s[i] != '\n'
      invariant from <= i <= |s| && LineEnd(s, from) == LineEnd(s, i)
    {
      i := i + 1;
    }
  }

  method SkipWord(s: Bytes, from: nat) returns (i: nat)
    requires from <= |s|
    ensures i == WordEnd(s, from)
  {
    i := from;
    while i < |s| && IsIdentChar(s[i])
      invariant from <= i <= |s| && WordEnd(s, from) == WordEnd(s, i)
    {
      i := i + 1;
    }
  }

  method SkipComment(s: Bytes, at: Place) returns (r: Scanned)
    requires at.i + 1 < |s| && at.lineStart <= at.i
    ensures r == ScanComment(s, at)
  {
    var i: nat, line: nat, lineStart: nat := at.i + 2, at.line, at.lineStart;
    while i + 1 < |s| && !(s[i] == '*' && s[i + 1] == '/')
      invariant i <= |s|
      invariant CommentEnd(s, at.(i := at.i + 2)) == CommentEnd(s, Place(i, line, lineStart))
    {
      if s[i] == '\n' {
        line := line + 1;
        lineStart := i + 1;
      }
      i := i + 1;
    }
    if i + 1 >= |s| {
      return Failed(UnterminatedComment(at.line, at.Column()));
    }
    return Skipped(Place(i + 2, line, lineStart));
  }

  method TakeNumber(s: Bytes, at: Place) returns (r: Scanned)
    requires at.i < |s| && at.lineStart <= at.i && IsDigit(s[at.i])
    ensures r == ScanNumber(s, at)
  {
    var value: int := 0;
    var i := at.i;
    while i < |s| && IsDigit(s[i])
      invariant at.i <= i <= |s| && 0 <= value <= MAX_INTEGER
      invariant Number(s, at.i, 0) == Number(s, i, value)
    {
      value := value * 10 + (s[i] as int - '0' as int);
      if value > MAX_INTEGER {
        return Failed(IntegerOutOfRange(at.line, at.Column()));
      }
      i := i + 1;
    }
    return Scanned(Token(IntToken, [], value, at.line), at.(i := i));
  }

  function PrefixAll(front: Bytes, r: Option<(Bytes, nat)>): Option<(Bytes, nat)> {
    if r.Some? then Some((front + r.value.0, r.value.1)) else None
  }

  lemma PrefixMore(front: Bytes, c: Byte, r: Option<(Bytes, nat)>)
    ensures PrefixAll(front, Prefix(c, r)) == PrefixAll(front + [c], r)
  {
    if r.Some? {
      assert front + ([c] + r.value.0) == (front + [c]) + r.value.0;
    }
  }

  lemma PrefixNothing(r: Option<(Bytes, nat)>)
    ensures PrefixAll([], r) == r
  {
    if r.Some? {
      assert [] + r.value.0 == r.value.0;
    }
  }

  method TakeString(s: Bytes, at: Place) returns (r: Scanned)
    requires at.i < |s| && at.lineStart <= at.i
    ensures r == ScanString(s, at)
  {
    var i := at.i + 1;
    var text: Bytes := [];
    PrefixNothing(Quoted(s, i));
    while i < |s| && s[i] != '"'
      invariant at.i < i <= |s|
      invariant Quoted(s, at.i + 1) == PrefixAll(text, Quoted(s, i))
    {
      if s[i] == '\\' && i + 1 < |s| {
        PrefixMore(text, EscapeMeaning(s[i + 1]), Quoted(s, i + 2));
        text := text + [EscapeMeaning(s[i + 1])];
        i := i + 2;
      } else if s[i] == '\n' {
        return Failed(UnterminatedString(at.line, at.Column()));
      } else {
        PrefixMore(text, s[i], Quoted(s, i + 1));
        text := text + [s[i]];
        i := i + 1;
      }
    }
    if i >= |s| {
      return Failed(UnterminatedString(at.line, at.Column()));
    }
    assert text + [] == text;
    return Scanned(Token(StringToken, text, 0, at.line), at.(i := i + 1));
  }
}
