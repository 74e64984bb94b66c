/** The session envelope: written by concatenation, read by scanning for its fields,
    with strings and nesting respected. */
module SessionEnvelope {
  import opened Prelude
  import opened JsonText

  // ----- scanning -----

  predicate Blank(c: Byte) {
    c == ' ' || c == '\t'
  }

  function SkipBlanks(o: Bytes, pos: nat): (r: nat)
    ensures pos <= r && (pos <= |o| ==> r <= |o|)
    decreases |o| - pos
  {
    if pos < |o| && Blank(o[pos]) then SkipBlanks(o, pos + 1) else pos
  }

  predicate Matches(o: Bytes, pos: nat, marker: Bytes) {
    pos + |marker| <= |o| && o[pos..pos + |marker|] == marker
  }

  function Marker(name: Bytes): Bytes {
    ['"'] + name + ['"']
  }

  /** Where a field's value starts, from a state of the scan: the depth, and whether inside a
      string and just past a backslash. */
  function Scan(o: Bytes, name: Bytes, pos: nat, depth: nat, quoted: bool, escaped: bool): Option<nat>
    decreases |o| - pos
  {
    if pos >= |o| then None
    else
      var c := o[pos];
      if quoted then
        if escaped then Scan(o, name, pos + 1, depth, true, false)
        else if c == '\\' then Scan(o, name, pos + 1, depth, true, true)
        else Scan(o, name, pos + 1, depth, c != '"', false)
      else if c == '{' || c == '[' then Scan(o, name, pos + 1, depth + 1, false, false)
      else if c == '}' || c == ']' then Scan(o, name, pos + 1, if depth > 0 then depth - 1 else 0, false, false)
      else if c == '"' then
        var cursor := SkipBlanks(o, pos + |Marker(name)|);
        if depth == 1 && Matches(o, pos, Marker(name)) && cursor < |o| && o[cursor] == ':' then Some(SkipBlanks(o, cursor + 1))
        else Scan(o, name, pos + 1, depth, true, false)
      else Scan(o, name, pos + 1, depth, false, false)
  }

  /** A top-level field's value. */
  function FindField(o: Bytes, name: Bytes): Option<nat> {
    Scan(o, name, 0, 0, false, false)
  }

  /** One past the brace that closes the object, counting braces outside strings. */
  function Extent(o: Bytes, pos: nat, depth: nat, quoted: bool, escaped: bool): (r: Option<nat>)
    ensures r.Some? ==> pos < r.value <= |o|
    decreases |o| - pos
  {
    if pos >= |o| then None
    else
      var c := o[pos];
      if quoted then
        if escaped then Extent(o, pos + 1, depth, true, false)
        else if c == '\\' then Extent(o, pos + 1, depth, true, true)
        else Extent(o, pos + 1, depth, c != '"', false)
      else if c == '"' then Extent(o, pos + 1, depth, true, false)
      else if c == '{' then Extent(o, pos + 1, depth + 1, false, false)
      else if c == '}' && depth == 1 then Some(pos + 1)
      else if c == '}' then Extent(o, pos + 1, if depth > 0 then depth - 1 else 0, false, false)
      else Extent(o, pos + 1, depth, false, false)
  }

  function ObjectExtent(o: Bytes, pos: nat): Option<Bytes> {
    if pos >= |o| || o[pos] != '{' then None
    else
      match Extent(o, pos, 0, false, false)
      case None => None
      case Some(end) => Some(o[pos..end])
  }

  function StringAt(o: Bytes, pos: nat): Option<Bytes> {
    if pos >= |o| || o[pos] != '"' then None
    else
      match SessionText(o, pos + 1)
      case Text(t, _) => Some(t)
      case Refused => None
  }

  // ----- envelopes -----

  datatype Envelope = Envelope(kind: Bytes, version: int32, correlation: Bytes, payload: Bytes)

  datatype ParseError = WrongEncoding | Malformed

  const VERSION: int32 := 1
  const TYPE_KEY: Bytes := "type"
  const VERSION_KEY: Bytes := "version"
  const CORRELATION_KEY: Bytes := "correlationId"
  const PAYLOAD_KEY: Bytes := "payload"

  function DigitRun(o: Bytes, pos: nat, value: nat): nat
    decreases |o| - pos
  {
    if pos < |o| && '0' <= o[pos] <= '9' then DigitRun(o, pos + 1, value * 10 + (o[pos] as int - '0' as int)) else value
  }

  /** A decimal number: a sign, at least one digit, in range; what follows is left alone. */
  function NumberAt(o: Bytes, pos: nat): Option<int32> {
    var negative := pos < |o| && o[pos] == '-';
    var at := if negative then pos + 1 else pos;
    if at >= |o| || !('0' <= o[at] <= '9') then None
    else
      var n: int := (if negative then -1 else 1) * DigitRun(o, at, 0);
      if -0x8000_0000 <= n < 0x8000_0000 then Some(n) else None
  }

  function ReadVersion(o: Bytes): Result<int32, ParseError> {
    match FindField(o, VERSION_KEY)
    case None => Ok(0)
    case Some(at) => (match NumberAt(o, at) case Some(n) => Ok(n) case None => Err(Malformed))
  }

  function ReadCorrelation(o: Bytes): Result<Bytes, ParseError> {
    match FindField(o, CORRELATION_KEY)
    case None => Ok([])
    case Some(at) => (match StringAt(o, at) case Some(t) => Ok(t) case None => Err(Malformed))
  }

  function ReadPayload(o: Bytes): Result<Bytes, ParseError> {
    match FindField(o, PAYLOAD_KEY)
    case None => Ok([])
    case Some(at) => (match ObjectExtent(o, at) case Some(t) => Ok(t) case None => Err(Malformed))
  }

  function ReadKind(o: Bytes): Result<Bytes, ParseError> {
    match FindField(o, TYPE_KEY)
    case None => Err(Malformed)
    case Some(at) =>
      match StringAt(o, at)
      case Some(t) => if t == [] then Err(Malformed) else Ok(t)
      case None => Err(Malformed)
  }

  function ParseEnvelope(o: Bytes): Result<Envelope, ParseError> {
    if o == [] || o[0] != '{' then Err(WrongEncoding)
    else
      var kind :- ReadKind(o);
      var version :- ReadVersion(o);
      var correlation :- ReadCorrelation(o);
      var payload :- ReadPayload(o);
      Ok(Envelope(kind, version, correlation, payload))
  }

  /** A field after others, left out when its value is empty. */
  function Optional(key: Bytes, value: Bytes): Bytes {
    if value == [] then [] else [','] + (Marker(key) + ([':'] + value))
  }

  function EncodeEnvelope(kind: Bytes, correlation: Bytes, payload: Bytes): Bytes {
    var encoded := if correlation == [] then [] else JsonString(correlation);
    var tail := Optional(CORRELATION_KEY, encoded) + (Optional(PAYLOAD_KEY, payload) + ['}']);
    ['{'] + (Marker(TYPE_KEY) + ([':'] + (JsonString(kind) + ([','] + (Marker(VERSION_KEY) + ([':'] + (['1'] + tail)))))))
  }

  // ----- balanced text -----

  /** Text that balances its brackets outside strings; every JSON value is spelled by pieces. */
  datatype Piece = Filler(c: Byte) | Quoted(body: Bytes) | Braced(inner: seq<Piece>) | Bracketed(inner: seq<Piece>)

  /** The inside of a string: no bare quote, and no backslash left over. */
  predicate StringBody(b: Bytes) {
    if b == [] then true
    else if b[0] == '\\' then |b| >= 2 && StringBody(b[2..])
    else b[0] != '"' && StringBody(b[1..])
  }

  predicate ValidPiece(p: Piece)
    decreases p, 1
  {
    match p
    case Filler(c) => c != '"' && c != '{' && c != '}' && c != '[' && c != ']'
    case Quoted(body) => StringBody(body)
    case Braced(inner) => ValidPieces(inner)
    case Bracketed(inner) => ValidPieces(inner)
  }

  predicate ValidPieces(ps: seq<Piece>)
    decreases ps, 0
  {
    ps == [] || (ValidPiece(ps[0]) && ValidPieces(ps[1..]))
  }

  function Spell(p: Piece): (r: Bytes)
    ensures r != []
    decreases p, 1
  {
    match p
    case Filler(c) => [c]
    case Quoted(body) => ['"'] + (body + ['"'])
    case Braced(inner) => ['{'] + (SpellAll(inner) + ['}'])
    case Bracketed(inner) => ['['] + (SpellAll(inner) + [']'])
  }

  function SpellAll(ps: seq<Piece>): Bytes
    decreases ps, 0
  {
    if ps == [] then [] else Spell(ps[0]) + SpellAll(ps[1..])
  }

  // ----- scanning over pieces -----

  lemma {:induction false} BodySkips(o: Bytes, name: Bytes, pos: nat, depth: nat, body: Bytes)
    requires StringBody(body) && At(o, pos, body)
    ensures Scan(o, name, pos, depth, true, false) == Scan(o, name, pos + |body|, depth, true, false)
    ensures Extent(o, pos, depth, true, false) == Extent(o, pos + |body|, depth, true, false)
    decreases |body|
  {
    if body != [] {
      var step := if body[0] == '\\' then 2 else 1;
      assert body == body[..step] + body[step..];
      AtSplit(o, pos, body[..step], body[step..]);
      assert o[pos] == o[pos..pos + step][0] && (step == 2 ==> o[pos + 1] == o[pos..pos + step][1]);
      BodySkips(o, name, pos + step, depth, body[step..]);
    }
  }

  /** One unquoted character of the extent's scan. */
  lemma ExtentStep(o: Bytes, pos: nat, depth: nat)
    requires pos < |o| && depth >= 1
    ensures Extent(o, pos, depth, false, false) ==
      if o[pos] == '"' then Extent(o, pos + 1, depth, true, false)
      else if o[pos] == '{' then Extent(o, pos + 1, depth + 1, false, false)
      else if o[pos] == '}' then if depth == 1 then Some(pos + 1) else Extent(o, pos + 1, depth - 1, false, false)
      else Extent(o, pos + 1, depth, false, false)
    ensures o[pos] == '"' ==> Extent(o, pos, depth, true, false) == Extent(o, pos + 1, depth, false, false)
  {
  }

  /** One unquoted character of the field scan, where no field matches. */
  lemma ScanStep(o: Bytes, name: Bytes, pos: nat, depth: nat)
    requires pos < |o| && depth >= 1 && (depth == 1 ==> o[pos] != '"')
    ensures Scan(o, name, pos, depth, false, false) ==
      if o[pos] == '{' || o[pos] == '[' then Scan(o, name, pos + 1, depth + 1, false, false)
      else if o[pos] == '}' || o[pos] == ']' then Scan(o, name, pos + 1, depth - 1, false, false)
      else Scan(o, name, pos + 1, depth, o[pos] == '"', false)
  {
  }

  lemma QuoteEnds(o: Bytes, name: Bytes, pos: nat, depth: nat)
    requires pos < |o| && o[pos] == '"'
    ensures Scan(o, name, pos, depth, true, false) == Scan(o, name, pos + 1, depth, false, false)
  {
  }

  /** At depths where no field can match, a piece leaves the scan as it was. */
  lemma {:induction false} PieceSkips(o: Bytes, name: Bytes, pos: nat, depth: nat, p: Piece)
    requires ValidPiece(p) && At(o, pos, Spell(p)) && depth >= 2
    ensures Scan(o, name, pos, depth, false, false) == Scan(o, name, pos + |Spell(p)|, depth, false, false)
    decreases p, 1
  {
    hide Scan;
    match p {
      case Filler(c) =>
        assert o[pos] == o[pos..pos + 1][0];
        ScanStep(o, name, pos, depth);
      case Quoted(body) =>
        Wrapped(o, pos, '"', body, '"');
        ScanStep(o, name, pos, depth);
        BodySkips(o, name, pos + 1, depth, body);
        QuoteEnds(o, name, pos + 1 + |body|, depth);
      case Braced(inner) =>
        Wrapped(o, pos, '{', SpellAll(inner), '}');
        ScanStep(o, name, pos, depth);
        PiecesSkip(o, name, pos + 1, depth + 1, inner);
        ScanStep(o, name, pos + 1 + |SpellAll(inner)|, depth + 1);
      case Bracketed(inner) =>
        Wrapped(o, pos, '[', SpellAll(inner), ']');
        ScanStep(o, name, pos, depth);
        PiecesSkip(o, name, pos + 1, depth + 1, inner);
        ScanStep(o, name, pos + 1 + |SpellAll(inner)|, depth + 1);
    }
  }

  lemma Wrapped(o: Bytes, pos: nat, open: Byte, body: Bytes, close: Byte)
    requires At(o, pos, [open] + (body + [close]))
    ensures o[pos] == open && At(o, pos + 1, body) && o[pos + 1 + |body|] == close
  {
    AtSplit(o, pos, [open], body + [close]);
    AtSplit(o, pos + 1, body, [close]);
    assert o[pos] == o[pos..pos + 1][0];
    var at := pos + 1 + |body|;
    assert o[at] == o[at..at + 1][0];
  }

  lemma {:induction false} PiecesSkip(o: Bytes, name: Bytes, pos: nat, depth: nat, ps: seq<Piece>)
    requires ValidPieces(ps) && At(o, pos, SpellAll(ps)) && depth >= 2
    ensures Scan(o, name, pos, depth, false, false) == Scan(o, name, pos + |SpellAll(ps)|, depth, false, false)
    decreases ps, 0
  {
    if ps != [] {
      AtSplit(o, pos, Spell(ps[0]), SpellAll(ps[1..]));
      PieceSkips(o, name, pos, depth, ps[0]);
      PiecesSkip(o, name, pos + |Spell(ps[0])|, depth, ps[1..]);
    }
  }

  lemma {:induction false} PieceExtends(o: Bytes, pos: nat, depth: nat, p: Piece)
    requires ValidPiece(p) && At(o, pos, Spell(p)) && depth >= 1
    ensures Extent(o, pos, depth, false, false) == Extent(o, pos + |Spell(p)|, depth, false, false)
    decreases p, 1
  {
    hide Extent;
    match p {
      case Filler(c) =>
        assert o[pos] == o[pos..pos + 1][0];
        ExtentStep(o, pos, depth);
      case Quoted(body) =>
        Wrapped(o, pos, '"', body, '"');
        ExtentStep(o, pos, depth);
        BodySkips(o, [], pos + 1, depth, body);
        ExtentStep(o, pos + 1 + |body|, depth);
      case Braced(inner) =>
        Wrapped(o, pos, '{', SpellAll(inner), '}');
        ExtentStep(o, pos, depth);
        PiecesExtend(o, pos + 1, depth + 1, inner);
        ExtentStep(o, pos + 1 + |SpellAll(inner)|, depth + 1);
      case Bracketed(inner) =>
        Wrapped(o, pos, '[', SpellAll(inner), ']');
        ExtentStep(o, pos, depth);
        PiecesExtend(o, pos + 1, depth, inner);
        ExtentStep(o, pos + 1 + |SpellAll(inner)|, depth);
    }
  }

  lemma {:induction false} PiecesExtend(o: Bytes, pos: nat, depth: nat, ps: seq<Piece>)
    requires ValidPieces(ps) && At(o, pos, SpellAll(ps)) && depth >= 1
    ensures Extent(o, pos, depth, false, false) == Extent(o, pos + |SpellAll(ps)|, depth, false, false)
    decreases ps, 0
  {
    if ps != [] {
      AtSplit(o, pos, Spell(ps[0]), SpellAll(ps[1..]));
      PieceExtends(o, pos, depth, ps[0]);
      PiecesExtend(o, pos + |Spell(ps[0])|, depth, ps[1..]);
    }
  }

  /** An object's extent is the object, whatever follows it. */
  lemma ObjectIsItsExtent(o: Bytes, pos: nat, inner: seq<Piece>)
    requires ValidPieces(inner) && At(o, pos, Spell(Braced(inner)))
    ensures ObjectExtent(o, pos) == Some(Spell(Braced(inner)))
  {
    Wrapped(o, pos, '{', SpellAll(inner), '}');
    PiecesExtend(o, pos + 1, 1, inner);
  }

  // ----- the top level -----

  /** A name with nothing a string would escape. */
  predicate PlainName(name: Bytes) {
    forall i :: 0 <= i < |name| ==> name[i] != '"' && name[i] != '\\'
  }

  lemma {:induction false} NoBareQuote(body: Bytes, i: nat)
    requires StringBody(body) && i < |body| && PlainName(body[..i])
    ensures body[i] != '"'
    decreases |body|
  {
    if i > 0 {
      assert body[..i][0] == body[0];
      assert body[1..][..i - 1] == body[..i][1..];
      NoBareQuote(body[1..], i - 1);
    }
  }

  /** A string that is not the wanted key, or is no key, is passed over. */
  lemma StringSkips(o: Bytes, name: Bytes, pos: nat, body: Bytes)
    requires PlainName(name) && StringBody(body) && At(o, pos, ['"'] + (body + ['"'])) && pos + |body| + 2 < |o|
    requires body != name || (o[pos + |body| + 2] != ':' && !Blank(o[pos + |body| + 2]))
    ensures Scan(o, name, pos, 1, false, false) == Scan(o, name, pos + |body| + 2, 1, false, false)
  {
    Wrapped(o, pos, '"', body, '"');
    if Matches(o, pos, Marker(name)) {
      MatchedBody(o, name, pos, body);
      assert SkipBlanks(o, pos + |Marker(name)|) == pos + |body| + 2;
    }
    BodySkips(o, name, pos + 1, 1, body);
  }

  lemma MatchedBody(o: Bytes, name: Bytes, pos: nat, body: Bytes)
    requires PlainName(name) && StringBody(body) && At(o, pos, ['"'] + (body + ['"'])) && Matches(o, pos, Marker(name))
    ensures body == name
  {
    Wrapped(o, pos, '"', body, '"');
    assert Marker(name) == ['"'] + (name + ['"']);
    Wrapped(o, pos, '"', name, '"');
    assert forall i :: 0 <= i < |body| ==> body[i] == o[pos + 1..pos + 1 + |body|][i] == o[pos + 1 + i];
    assert forall i :: 0 <= i < |name| ==> name[i] == o[pos + 1..pos + 1 + |name|][i] == o[pos + 1 + i];
    if |name| < |body| {
      assert body[..|name|] == name;
      NoBareQuote(body, |name|);
    }
  }

  datatype Field = Field(key: Bytes, value: Piece)

  /** Fields as the encoder writes them, without a blank anywhere between. */
  function FieldsText(fs: seq<Field>): Bytes
    decreases |fs|, 0
  {
    if fs == [] then [] else Marker(fs[0].key) + ([':'] + (Spell(fs[0].value) + MoreFields(fs[1..])))
  }

  function MoreFields(fs: seq<Field>): Bytes
    decreases |fs|, 1
  {
    if fs == [] then [] else [','] + FieldsText(fs)
  }

  /** Where a key's value starts in the fields' text. */
  function ValueOffset(fs: seq<Field>, name: Bytes): Option<nat> {
    if fs == [] then None
    else if fs[0].key == name then Some(|fs[0].key| + 3)
    else
      match ValueOffset(fs[1..], name)
      case None => None
      case Some(n) => Some(|fs[0].key| + 3 + |Spell(fs[0].value)| + 1 + n)
  }

  predicate ValidField(f: Field) {
    PlainName(f.key) && ValidPiece(f.value) && (f.value.Filler? ==> !Blank(f.value.c))
  }

  lemma {:induction false} PlainIsBody(name: Bytes)
    requires PlainName(name)
    ensures StringBody(name)
    decreases |name|
  {
    if name != [] {
      PlainIsBody(name[1..]);
    }
  }

  lemma FirstByte(p: Piece)
    requires ValidPiece(p) && (p.Filler? ==> !Blank(p.c))
    ensures !Blank(Spell(p)[0])
  {
  }

  /** A top-level value is passed over, whatever it is. */
  lemma ValueSkips(o: Bytes, name: Bytes, pos: nat, p: Piece)
    requires PlainName(name) && ValidPiece(p) && At(o, pos, Spell(p)) && pos + |Spell(p)| < |o|
    requires o[pos + |Spell(p)|] == ',' || o[pos + |Spell(p)|] == '}'
    ensures Scan(o, name, pos, 1, false, false) == Scan(o, name, pos + |Spell(p)|, 1, false, false)
  {
    hide Scan;
    match p {
      case Filler(c) =>
        assert o[pos] == o[pos..pos + 1][0];
        ScanStep(o, name, pos, 1);
      case Quoted(body) => StringSkips(o, name, pos, body);
      case Braced(inner) =>
        Wrapped(o, pos, '{', SpellAll(inner), '}');
        ScanStep(o, name, pos, 1);
        PiecesSkip(o, name, pos + 1, 2, inner);
        ScanStep(o, name, pos + 1 + |SpellAll(inner)|, 2);
      case Bracketed(inner) =>
        Wrapped(o, pos, '[', SpellAll(inner), ']');
        ScanStep(o, name, pos, 1);
        PiecesSkip(o, name, pos + 1, 2, inner);
        ScanStep(o, name, pos + 1 + |SpellAll(inner)|, 2);
    }
  }

  /** The wanted key, with its colon right after it. */
  lemma KeyFound(o: Bytes, name: Bytes, pos: nat)
    requires PlainName(name) && At(o, pos, Marker(name) + [':']) && pos + |name| + 3 < |o| && !Blank(o[pos + |name| + 3])
    ensures Scan(o, name, pos, 1, false, false) == Some(pos + |name| + 3)
  {
    AtSplit(o, pos, Marker(name), [':']);
    var at := pos + |name| + 2;
    assert o[at] == o[at..at + 1][0];
    assert o[pos] == o[pos..pos + |name| + 2][0];
  }

  /** What follows the first field's value. */
  function AfterFirst(fs: seq<Field>): Bytes
    requires fs != []
  {
    if |fs| > 1 then [','] + (FieldsText(fs[1..]) + ['}']) else ['}']
  }

  lemma FieldShape(fs: seq<Field>)
    requires fs != []
    ensures FieldsText(fs) + ['}'] == (Marker(fs[0].key) + [':']) + (Spell(fs[0].value) + AfterFirst(fs))
    ensures |FieldsText(fs)| + 1 == |fs[0].key| + 3 + |Spell(fs[0].value)| + |AfterFirst(fs)|
  {
    hide Spell, Marker;
    MarkerSize(fs[0].key);
    Regroup(Marker(fs[0].key), [':'], Spell(fs[0].value), MoreFields(fs[1..]), ['}']);
    if |fs| > 1 {
      assert [','] + FieldsText(fs[1..]) + ['}'] == [','] + (FieldsText(fs[1..]) + ['}']);
    } else {
      assert [] + ['}'] == ['}'];
    }
  }

  lemma Regroup(a: Bytes, b: Bytes, c: Bytes, d: Bytes, e: Bytes)
    ensures (a + (b + (c + d))) + e == (a + b) + (c + (d + e))
  {
  }

  lemma MarkerSize(name: Bytes)
    ensures |Marker(name)| == |name| + 2
  {
  }

  lemma FieldAt(o: Bytes, pos: nat, key: Bytes, v: Bytes, rest: Bytes)
    requires At(o, pos, (key + [':']) + (v + rest)) && rest != []
    ensures var at := pos + |key| + 1; var end := at + |v|;
      && At(o, pos, key) && At(o, pos, key + [':']) && o[at - 1] == ':' && At(o, at, v)
      && end < |o| && o[end] == rest[0] && At(o, end, rest)
  {
    AtSplit(o, pos, key + [':'], v + rest);
    AtSplit(o, pos, key, [':']);
    var at := pos + |key| + 1;
    assert o[at - 1] == o[at - 1..at][0];
    AtSplit(o, at, v, rest);
    var end := at + |v|;
    assert o[end] == o[end..end + |rest|][0];
  }

  lemma FieldParts(o: Bytes, pos: nat, fs: seq<Field>)
    requires fs != [] && At(o, pos, FieldsText(fs) + ['}'])
    ensures var at := pos + |fs[0].key| + 3; var end := at + |Spell(fs[0].value)|;
      && At(o, pos, Marker(fs[0].key)) && At(o, pos, Marker(fs[0].key) + [':']) && o[at - 1] == ':' && At(o, at, Spell(fs[0].value))
      && end < |o| && o[end] == (if |fs| > 1 then ',' else '}')
      && (|fs| > 1 ==> At(o, end + 1, FieldsText(fs[1..]) + ['}']))
      && |FieldsText(fs)| == |fs[0].key| + 3 + |Spell(fs[0].value)| + (if |fs| > 1 then 1 + |FieldsText(fs[1..])| else 0)
  {
    hide Spell, FieldsText, Marker, AfterFirst;
    FieldShape(fs);
    MarkerSize(fs[0].key);
    AfterFirstIs(fs);
    FieldAt(o, pos, Marker(fs[0].key), Spell(fs[0].value), AfterFirst(fs));
    if |fs| > 1 {
      AtSplit(o, pos + |fs[0].key| + 3 + |Spell(fs[0].value)|, [','], FieldsText(fs[1..]) + ['}']);
    }
  }

  lemma AfterFirstIs(fs: seq<Field>)
    requires fs != []
    ensures AfterFirst(fs) != [] && AfterFirst(fs)[0] == (if |fs| > 1 then ',' else '}')
    ensures |AfterFirst(fs)| == if |fs| > 1 then |FieldsText(fs[1..])| + 2 else 1
    ensures |fs| > 1 ==> AfterFirst(fs) == [','] + (FieldsText(fs[1..]) + ['}'])
  {
    hide FieldsText;
  }

  /** The scan finds a field exactly when there is one, at its value. */
  lemma {:induction false} FieldsScan(o: Bytes, name: Bytes, pos: nat, fs: seq<Field>)
    requires fs != [] && PlainName(name) && (forall f :: f in fs ==> ValidField(f))
    requires At(o, pos, FieldsText(fs) + ['}']) && pos + |FieldsText(fs)| + 1 == |o|
    ensures Scan(o, name, pos, 1, false, false) ==
      match ValueOffset(fs, name) case None => None case Some(n) => Some(pos + n)
    decreases |fs|
  {
    hide Scan, Spell, FieldsText, ValidPiece, Marker, PlainName;
    var f := fs[0];
    assert f in fs;
    MarkerSize(f.key);
    FieldParts(o, pos, fs);
    var at := pos + |f.key| + 3;
    var end := at + |Spell(f.value)|;
    FirstByte(f.value);
    assert o[at] == o[at..end][0];
    if f.key == name {
      KeyFound(o, name, pos);
    } else {
      PlainIsBody(f.key);
      MarkerIsString(f.key);
      StringSkips(o, name, pos, f.key);
      OtherByte(o, name, at - 1, 1);
      ValueSkips(o, name, at, f.value);
      if |fs| > 1 {
        OtherByte(o, name, end, 1);
        assert forall g :: g in fs[1..] ==> g in fs;
        FieldsScan(o, name, end + 1, fs[1..]);
      } else {
        LastBrace(o, name, end);
        assert ValueOffset(fs[1..], name) == None;
      }
    }
  }

  lemma MarkerIsString(name: Bytes)
    ensures Marker(name) == ['"'] + (name + ['"'])
  {
  }

  lemma OtherByte(o: Bytes, name: Bytes, pos: nat, depth: nat)
    requires pos < |o| && (o[pos] == ':' || o[pos] == ',')
    ensures Scan(o, name, pos, depth, false, false) == Scan(o, name, pos + 1, depth, false, false)
  {
  }

  lemma LastBrace(o: Bytes, name: Bytes, pos: nat)
    requires pos + 1 == |o| && o[pos] == '}'
    ensures Scan(o, name, pos, 1, false, false) == None
  {
  }

  // ----- the theorem -----

  lemma {:induction false} EscapedIsBody(s: Bytes, at: nat)
    requires at <= |s|
    ensures StringBody(EscapeFrom(s, at))
    decreases |s| - at
  {
    hide SequenceLength, EscapeAt;
    if at < |s| {
      EscapedIsBody(s, at + Consumed(s, at));
      OneEscapeIsBody(s, at, EscapeFrom(s, at + Consumed(s, at)));
    }
  }

  lemma OneEscapeIsBody(s: Bytes, at: nat, rest: Bytes)
    requires at < |s| && StringBody(rest)
    ensures StringBody(EscapeAt(s, at) + rest)
  {
    hide SequenceLength;
    Ascii(s, at);
    var e := EscapeAt(s, at);
    if e[0] == '\\' {
      assert (e + rest)[2..] == e[2..] + rest;
      PlainPrefix(e[2..], rest);
    } else {
      SequenceIsPlain(s, at);
      PlainPrefix(e, rest);
    }
  }

  lemma {:induction false} PlainPrefix(a: Bytes, rest: Bytes)
    requires PlainName(a) && StringBody(rest)
    ensures StringBody(a + rest)
    decreases |a|
  {
    if a == [] {
      assert a + rest == rest;
    } else {
      assert (a + rest)[1..] == a[1..] + rest;
      PlainPrefix(a[1..], rest);
    }
  }

  function EnvelopeFields(kind: Bytes, correlation: Bytes, payload: Option<seq<Piece>>): seq<Field> {
    [Field(TYPE_KEY, Quoted(EscapeFrom(kind, 0))), Field(VERSION_KEY, Filler('1'))]
    + (if correlation == [] then [] else [Field(CORRELATION_KEY, Quoted(EscapeFrom(correlation, 0)))])
    + (if payload == None then [] else [Field(PAYLOAD_KEY, Braced(payload.value))])
  }

  /** The payload's text: an object, or nothing. */
  function PayloadText(payload: Option<seq<Piece>>): Bytes {
    if payload == None then [] else Spell(Braced(payload.value))
  }

  lemma KeysArePlain()
    ensures PlainName(TYPE_KEY) && PlainName(VERSION_KEY) && PlainName(CORRELATION_KEY) && PlainName(PAYLOAD_KEY)
    ensures |TYPE_KEY| == 4 && |VERSION_KEY| == 7 && |CORRELATION_KEY| == 13 && |PAYLOAD_KEY| == 7
    ensures TYPE_KEY != VERSION_KEY && TYPE_KEY != CORRELATION_KEY && TYPE_KEY != PAYLOAD_KEY
    ensures VERSION_KEY != CORRELATION_KEY && VERSION_KEY != PAYLOAD_KEY && CORRELATION_KEY != PAYLOAD_KEY
  {
    assert VERSION_KEY[0] == 'v' && PAYLOAD_KEY[0] == 'p';
  }

  /** One more field in front, then the rest. */
  lemma OneMoreField(f: Field, rest: seq<Field>, end: Bytes)
    ensures MoreFields([f] + rest) + end == Optional(f.key, Spell(f.value)) + (MoreFields(rest) + end)
  {
    hide Spell, Marker;
    assert ([f] + rest)[1..] == rest;
    var m, v, more := Marker(f.key), Spell(f.value), MoreFields(rest);
    assert ([','] + (m + ([':'] + (v + more)))) + end == ([','] + (m + ([':'] + v))) + (more + end);
  }

  lemma EncodedIsFields(kind: Bytes, correlation: Bytes, payload: Option<seq<Piece>>)
    ensures EncodeEnvelope(kind, correlation, PayloadText(payload))
      == ['{'] + (FieldsText(EnvelopeFields(kind, correlation, payload)) + ['}'])
  {
    hide Marker, EscapeFrom, SpellAll, FieldsText, MoreFields;
    var c := if correlation == [] then [] else [Field(CORRELATION_KEY, Quoted(EscapeFrom(correlation, 0)))];
    var p := if payload == None then [] else [Field(PAYLOAD_KEY, Braced(payload.value))];
    var end: Bytes := ['}'];
    if payload.Some? {
      OneMoreField(p[0], [], end);
      assert [p[0]] + [] == p;
    }
    if correlation != [] {
      OneMoreField(c[0], p, end);
      assert [c[0]] + p == c + p;
    } else {
      assert c + p == p;
    }
    NoMoreFields(end);
    var tail := Optional(CORRELATION_KEY, if correlation == [] then [] else JsonString(correlation))
              + (Optional(PAYLOAD_KEY, PayloadText(payload)) + end);
    assert MoreFields(c + p) + end == tail;
    FirstFields(Field(TYPE_KEY, Quoted(EscapeFrom(kind, 0))), Field(VERSION_KEY, Filler('1')), c + p, end);
    assert EnvelopeFields(kind, correlation, payload)
        == [Field(TYPE_KEY, Quoted(EscapeFrom(kind, 0))), Field(VERSION_KEY, Filler('1'))] + (c + p);
  }

  lemma NoMoreFields(end: Bytes)
    ensures MoreFields([]) + end == end
  {
  }

  lemma FirstFields(f: Field, g: Field, rest: seq<Field>, end: Bytes)
    ensures FieldsText([f, g] + rest) + end
      == Marker(f.key) + ([':'] + (Spell(f.value) + ([','] + (Marker(g.key) + ([':'] + (Spell(g.value) + (MoreFields(rest) + end)))))))
  {
    hide Spell, Marker;
    assert ([f, g] + rest)[1..] == [g] + rest && ([g] + rest)[1..] == rest;
    var m, v, n, w, more := Marker(f.key), Spell(f.value), Marker(g.key), Spell(g.value), MoreFields(rest);
    assert FieldsText([g] + rest) == n + ([':'] + (w + more));
    Regroup(n, [':'], w, more, end);
    Regroup(m, [':'], v, [','] + (n + ([':'] + (w + more))), end);
    assert (n + [':']) + (w + (more + end)) == n + ([':'] + (w + (more + end)));
    assert ([','] + (n + ([':'] + (w + more)))) + end == [','] + ((n + ([':'] + (w + more))) + end);
    assert (m + [':']) + (v + ([','] + (n + ([':'] + (w + (more + end))))))
        == m + ([':'] + (v + ([','] + (n + ([':'] + (w + (more + end)))))));
  }

  /** The first value under a key. */
  function ValueOf(fs: seq<Field>, name: Bytes): Option<Piece> {
    if fs == [] then None else if fs[0].key == name then Some(fs[0].value) else ValueOf(fs[1..], name)
  }

  lemma {:induction false} ValueStands(o: Bytes, name: Bytes, pos: nat, fs: seq<Field>)
    requires fs != [] && At(o, pos, FieldsText(fs) + ['}'])
    ensures ValueOffset(fs, name).Some? <==> ValueOf(fs, name).Some?
    ensures ValueOf(fs, name).Some? ==>
      var at := pos + ValueOffset(fs, name).value; var v := ValueOf(fs, name).value;
      At(o, at, Spell(v)) && at + |Spell(v)| < |o| && o[at + |Spell(v)|] in {',', '}'}
    decreases |fs|
  {
    hide Spell, FieldsText;
    FieldParts(o, pos, fs);
    if fs[0].key != name {
      if |fs| > 1 {
        ValueStands(o, name, pos + |fs[0].key| + 3 + |Spell(fs[0].value)| + 1, fs[1..]);
      } else {
        assert fs[1..] == [];
      }
    }
  }

  /** The text the encoder writes, as an object of fields. */
  ghost predicate Holds(o: Bytes, fs: seq<Field>) {
    && fs != [] && o == ['{'] + (FieldsText(fs) + ['}']) && forall f :: f in fs ==> ValidField(f)
  }

  /** Each field is found where its value is, and a missing one is not found. */
  lemma FieldFound(o: Bytes, fs: seq<Field>, name: Bytes)
    requires Holds(o, fs) && PlainName(name)
    ensures FindField(o, name).Some? <==> ValueOf(fs, name).Some?
    ensures ValueOf(fs, name).Some? ==>
      var at := FindField(o, name).value; var v := ValueOf(fs, name).value;
      At(o, at, Spell(v)) && at + |Spell(v)| < |o| && o[at + |Spell(v)|] in {',', '}'}
  {
    hide Spell, FieldsText, ValueOf, ValueOffset, PlainName, ValidField;
    var text := FieldsText(fs) + ['}'];
    assert o[1..1 + |text|] == text;
    FieldsScan(o, name, 1, fs);
    ValueStands(o, name, 1, fs);
    assert FindField(o, name) == Scan(o, name, 1, 1, false, false);
  }

  lemma StringReads(o: Bytes, at: nat, s: Bytes)
    requires At(o, at, Spell(Quoted(EscapeFrom(s, 0))))
    ensures StringAt(o, at) == Some(Clean(s))
  {
    hide SessionText, EscapeFrom;
    var body := EscapeFrom(s, 0);
    Wrapped(o, at, '"', body, '"');
    AtSplit(o, at, ['"'], body + ['"']);
    BodyDecodes(s, 0, o, at + 1);
  }

  lemma VersionReads(o: Bytes, at: nat)
    requires At(o, at, Spell(Filler('1'))) && at + 1 < |o| && o[at + 1] in {',', '}'}
    ensures NumberAt(o, at) == Some(VERSION)
  {
    assert o[at] == o[at..at + 1][0];
    assert DigitRun(o, at, 0) == DigitRun(o, at + 1, 1) == 1;
  }

  lemma EnvelopeFieldsAreValid(kind: Bytes, correlation: Bytes, payload: Option<seq<Piece>>)
    requires payload.Some? ==> ValidPieces(payload.value)
    ensures forall f :: f in EnvelopeFields(kind, correlation, payload) ==> ValidField(f)
  {
    hide PlainName, EscapeFrom;
    KeysArePlain();
    EscapedIsBody(kind, 0);
    EscapedIsBody(correlation, 0);
  }

  lemma EnvelopeValues(kind: Bytes, correlation: Bytes, payload: Option<seq<Piece>>)
    ensures var fs := EnvelopeFields(kind, correlation, payload);
      && ValueOf(fs, TYPE_KEY) == Some(Quoted(EscapeFrom(kind, 0))) && ValueOf(fs, VERSION_KEY) == Some(Filler('1'))
      && ValueOf(fs, CORRELATION_KEY) == (if correlation == [] then None else Some(Quoted(EscapeFrom(correlation, 0))))
      && ValueOf(fs, PAYLOAD_KEY) == if payload == None then None else Some(Braced(payload.value))
  {
    hide PlainName, EscapeFrom;
    KeysArePlain();
    var fs := EnvelopeFields(kind, correlation, payload);
    assert fs[1..][0] == Field(VERSION_KEY, Filler('1'));
    var rest := fs[1..][1..];
    assert rest == (if correlation == [] then [] else [Field(CORRELATION_KEY, Quoted(EscapeFrom(correlation, 0)))])
                 + (if payload == None then [] else [Field(PAYLOAD_KEY, Braced(payload.value))]);
    if correlation != [] {
      assert rest[1..] == if payload == None then [] else [Field(PAYLOAD_KEY, Braced(payload.value))];
      assert ValueOf(rest, PAYLOAD_KEY) == ValueOf(rest[1..], PAYLOAD_KEY);
    }
    assert ValueOf(fs, PAYLOAD_KEY) == ValueOf(rest, PAYLOAD_KEY);
    assert forall name :: name != TYPE_KEY && name != VERSION_KEY ==> ValueOf(fs, name) == ValueOf(rest, name);
    if payload.Some? {
      var p := [Field(PAYLOAD_KEY, Braced(payload.value))];
      assert (if correlation == [] then rest else rest[1..]) == p;
      assert p[1..] == [] && ValueOf(p, PAYLOAD_KEY) == Some(Braced(payload.value)) && ValueOf(p, CORRELATION_KEY) == None;
    }
  }

  lemma {:induction false} CleanIsSomething(s: Bytes)
    ensures Clean(s) == [] <==> s == []
  {
    hide SequenceLength;
  }

  /** Reading an envelope back: the type and the correlation id come back as well-formed text,
      which is themselves when they are well-formed, and the payload byte for byte, whatever
      balanced object it is. An empty type is the one thing refused. */
  lemma EnvelopeInverts(kind: Bytes, correlation: Bytes, payload: Option<seq<Piece>>)
    requires payload.Some? ==> ValidPieces(payload.value)
    ensures ParseEnvelope(EncodeEnvelope(kind, correlation, PayloadText(payload)))
      == if kind == [] then Err(Malformed)
         else Ok(Envelope(Clean(kind), VERSION, Clean(correlation), PayloadText(payload)))
    ensures WellFormed(kind) ==> Clean(kind) == kind
    ensures WellFormed(correlation) ==> Clean(correlation) == correlation
  {
    hide EncodeEnvelope, EnvelopeFields, FindField, Spell, ObjectExtent, StringAt, NumberAt, Clean, PlainName, EscapeFrom, WellFormed;
    var o, fs := EncodeEnvelope(kind, correlation, PayloadText(payload)), EnvelopeFields(kind, correlation, payload);
    EncodedIsFields(kind, correlation, payload);
    EnvelopeFieldsAreValid(kind, correlation, payload);
    EnvelopeValues(kind, correlation, payload);
    assert Holds(o, fs);
    KeysArePlain();
    FieldFound(o, fs, TYPE_KEY);
    FieldFound(o, fs, VERSION_KEY);
    FieldFound(o, fs, CORRELATION_KEY);
    FieldFound(o, fs, PAYLOAD_KEY);
    StringReads(o, FindField(o, TYPE_KEY).value, kind);
    VersionStands(o);
    if correlation != [] {
      StringReads(o, FindField(o, CORRELATION_KEY).value, correlation);
    }
    if payload.Some? {
      ObjectIsItsExtent(o, FindField(o, PAYLOAD_KEY).value, payload.value);
    }
    CleanIsSomething(kind);
    CleanIsSomething(correlation);
    CleanLaws(kind);
    CleanLaws(correlation);
  }

  lemma VersionStands(o: Bytes)
    requires FindField(o, VERSION_KEY).Some?
    requires var at := FindField(o, VERSION_KEY).value;
      At(o, at, Spell(Filler('1'))) && at + |Spell(Filler('1'))| < |o| && o[at + |Spell(Filler('1'))|] in {',', '}'}
    ensures NumberAt(o, FindField(o, VERSION_KEY).value) == Some(VERSION)
  {
    hide FindField;
    VersionReads(o, FindField(o, VERSION_KEY).value);
  }
}
