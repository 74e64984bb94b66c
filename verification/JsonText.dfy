/** UTF-8 text in JSON: one encoder, two decoders. */
module JsonText {
  import opened Prelude

  // ----- UTF-8 -----

  predicate Continuation(c: Byte) {
    0x80 <= c as int < 0xC0
  }

  /** The length of a sequence that starts with this byte, and the bits of it the byte carries. */
  function Lead(c: Byte): (int, int) {
    var b := c as int;
    if 0xC0 <= b < 0xE0 then (2, b - 0xC0)
    else if 0xE0 <= b < 0xF0 then (3, b - 0xE0)
    else if 0xF0 <= b < 0xF8 then (4, b - 0xF0)
    else (0, 0)
  }

  /** Six more bits a continuation byte; none when a byte is no continuation. */
  function CodePoint(s: Bytes, at: nat, count: nat, bits: int): Option<int>
    requires at + count <= |s|
    decreases count
  {
    if count == 0 then Some(bits)
    else if !Continuation(s[at]) then None
    else CodePoint(s, at + 1, count - 1, bits * 64 + (s[at] as int - 0x80))
  }

  /** Not overlong, not a surrogate half, not beyond the last code point. */
  predicate Acceptable(length: int, code: int) {
    && (length == 2 ==> code >= 0x80) && (length == 3 ==> code >= 0x800) && (length == 4 ==> code >= 0x1_0000)
    && code <= 0x10FFFF && !(0xD800 <= code <= 0xDFFF)
  }

  /** The length of the well-formed sequence that starts at `at`, or 0. */
  function SequenceLength(s: Bytes, at: nat): (n: nat)
    requires at < |s|
    ensures at + n <= |s| && n <= 4
  {
    if s[at] as int < 0x80 then 1
    else
      var (length, bits) := Lead(s[at]);
      if length == 0 || at + length > |s| then 0
      else
        var code := CodePoint(s, at + 1, length - 1, bits);
        if code.Some? && Acceptable(length, code.value) then length else 0
  }

  /** Section 4 of RFC 3629: the ranges a character's bytes may take. */
  predicate TableSequence(c: Bytes) {
    var b := seq(|c|, i requires 0 <= i < |c| => c[i] as int);
    match |c|
    case 1 => b[0] <= 0x7F
    case 2 => 0xC2 <= b[0] <= 0xDF && 0x80 <= b[1] <= 0xBF
    case 3 =>
      && 0x80 <= b[2] <= 0xBF
      && ((b[0] == 0xE0 && 0xA0 <= b[1] <= 0xBF) || (0xE1 <= b[0] <= 0xEC && 0x80 <= b[1] <= 0xBF)
          || (b[0] == 0xED && 0x80 <= b[1] <= 0x9F) || (0xEE <= b[0] <= 0xEF && 0x80 <= b[1] <= 0xBF))
    case 4 =>
      && 0x80 <= b[2] <= 0xBF && 0x80 <= b[3] <= 0xBF
      && ((b[0] == 0xF0 && 0x90 <= b[1] <= 0xBF) || (0xF1 <= b[0] <= 0xF3 && 0x80 <= b[1] <= 0xBF)
          || (b[0] == 0xF4 && 0x80 <= b[1] <= 0x8F))
    case _ => false
  }

  lemma CodePointUnrolled(s: Bytes, at: nat, count: nat, bits: int)
    requires at + count <= |s| && 1 <= count <= 3
    ensures CodePoint(s, at, count, bits) ==
      if !Continuation(s[at]) || (count > 1 && !Continuation(s[at + 1])) || (count > 2 && !Continuation(s[at + 2])) then None
      else if count == 1 then Some(bits * 64 + (s[at] as int - 0x80))
      else if count == 2 then Some(bits * 0x1000 + (s[at] as int - 0x80) * 64 + (s[at + 1] as int - 0x80))
      else Some(bits * 0x4_0000 + (s[at] as int - 0x80) * 0x1000 + (s[at + 1] as int - 0x80) * 64 + (s[at + 2] as int - 0x80))
    decreases count
  {
    if count > 1 {
      CodePointUnrolled(s, at + 1, count - 1, bits * 64 + (s[at] as int - 0x80));
    }
  }

  /** The validator accepts exactly the sequences of the standard's table. */
  lemma SequenceLengthIsTheTable(s: Bytes, at: nat, n: nat)
    requires at < |s| && 0 < n && at + n <= |s|
    ensures SequenceLength(s, at) == n <==> TableSequence(s[at..at + n])
  {
    hide CodePoint;
    var c := s[at..at + n];
    if n <= 4 {
      assert forall i :: 0 <= i < n ==> c[i] == s[at + i];
    }
    var (length, bits) := Lead(s[at]);
    if s[at] as int >= 0x80 && length > 0 && at + length <= |s| {
      CodePointUnrolled(s, at + 1, length - 1, bits);
    }
  }

  // ----- cleaning -----

  /** U+FFFD, the replacement character. */
  const REPLACEMENT: Bytes := [0xEF as char, 0xBF as char, 0xBD as char]

  function Consumed(s: Bytes, at: nat): (n: nat)
    requires at < |s|
    ensures 0 < n && at + n <= |s|
  {
    if SequenceLength(s, at) > 0 then SequenceLength(s, at) else 1
  }

  /** The text with one replacement character for every byte that belongs to no sequence. */
  function CleanFrom(s: Bytes, at: nat): Bytes
    requires at <= |s|
    decreases |s| - at
  {
    if at == |s| then []
    else (if SequenceLength(s, at) > 0 then s[at..at + Consumed(s, at)] else REPLACEMENT) + CleanFrom(s, at + Consumed(s, at))
  }

  function Clean(s: Bytes): Bytes {
    CleanFrom(s, 0)
  }

  predicate WellFormedFrom(s: Bytes, at: nat)
    requires at <= |s|
    decreases |s| - at
  {
    at == |s| || (SequenceLength(s, at) > 0 && WellFormedFrom(s, at + SequenceLength(s, at)))
  }

  predicate WellFormed(s: Bytes) {
    WellFormedFrom(s, 0)
  }

  /** Where a sequence ends depends on its own bytes only. */
  lemma SequenceIsLocal(s: Bytes, at: nat, t: Bytes, to: nat)
    requires at < |s| && SequenceLength(s, at) > 0
    requires At(t, to, s[at..at + SequenceLength(s, at)])
    ensures to < |t| && SequenceLength(t, to) == SequenceLength(s, at)
  {
    hide SequenceLength, TableSequence;
    var n := SequenceLength(s, at);
    SequenceLengthIsTheTable(s, at, n);
    SequenceLengthIsTheTable(t, to, n);
  }

  lemma ReplacementIsSequence(t: Bytes, to: nat)
    requires At(t, to, REPLACEMENT)
    ensures to < |t| && SequenceLength(t, to) == 3
  {
    hide SequenceLength;
    SequenceLengthIsTheTable(t, to, 3);
  }

  lemma {:induction false} CleanIsWellFormed(s: Bytes, at: nat, t: Bytes, to: nat)
    requires at <= |s| && to <= |t| && t[to..] == CleanFrom(s, at)
    ensures WellFormedFrom(t, to)
    decreases |s| - at
  {
    hide SequenceLength;
    if at < |s| {
      var n := Consumed(s, at);
      var piece := if SequenceLength(s, at) > 0 then s[at..at + n] else REPLACEMENT;
      var rest := CleanFrom(s, at + n);
      assert t[to..to + |piece|] == t[to..][..|piece|] == piece;
      assert t[to + |piece|..] == t[to..][|piece|..] == rest;
      if SequenceLength(s, at) > 0 {
        SequenceIsLocal(s, at, t, to);
      } else {
        ReplacementIsSequence(t, to);
      }
      CleanIsWellFormed(s, at + n, t, to + |piece|);
    }
  }

  lemma {:induction false} WellFormedIsClean(s: Bytes, at: nat)
    requires at <= |s| && WellFormedFrom(s, at)
    ensures CleanFrom(s, at) == s[at..]
    decreases |s| - at
  {
    hide SequenceLength, Consumed;
    if at < |s| {
      var n := SequenceLength(s, at);
      assert Consumed(s, at) == n by { ConsumesAll(s, at); }
      WellFormedIsClean(s, at + n);
      assert s[at..] == s[at..at + n] + s[at + n..];
    }
  }

  lemma ConsumesAll(s: Bytes, at: nat)
    requires at < |s| && SequenceLength(s, at) > 0
    ensures Consumed(s, at) == SequenceLength(s, at)
  {
    hide SequenceLength;
  }

  /** Cleaning gives well-formed text, changes exactly the texts that are not, and once is enough. */
  lemma CleanLaws(s: Bytes)
    ensures WellFormed(Clean(s)) && (Clean(s) == s <==> WellFormed(s)) && Clean(Clean(s)) == Clean(s)
  {
    var t := Clean(s);
    assert t[0..] == t && s[0..] == s;
    CleanIsWellFormed(s, 0, t, 0);
    WellFormedIsClean(t, 0);
    if WellFormed(s) {
      WellFormedIsClean(s, 0);
    }
  }

  // ----- encoding -----

  const BACKSPACE: Byte := 8 as char
  const FORM_FEED: Byte := 12 as char

  /** The letter of a short escape. */
  function ShortEscape(c: Byte): Option<Byte> {
    if c == '"' then Some('"')
    else if c == '\\' then Some('\\')
    else if c == BACKSPACE then Some('b')
    else if c == FORM_FEED then Some('f')
    else if c == '\n' then Some('n')
    else if c == '\r' then Some('r')
    else if c == '\t' then Some('t')
    else None
  }

  function LowHex(n: nat): Byte
    requires n < 16
  {
    if n < 10 then ('0' as int + n) as char else ('a' as int + (n - 10)) as char
  }

  /** The encoding of what starts at `at`. */
  function EscapeAt(s: Bytes, at: nat): Bytes
    requires at < |s|
  {
    var c := s[at];
    if ShortEscape(c).Some? then ['\\', ShortEscape(c).value]
    else if c as int < 0x20 then ['\\', 'u', '0', '0', LowHex(c as int / 16), LowHex(c as int % 16)]
    else if SequenceLength(s, at) > 0 then s[at..at + SequenceLength(s, at)]
    else ['\\', 'u', 'f', 'f', 'f', 'd']
  }

  function EscapeFrom(s: Bytes, at: nat): Bytes
    requires at <= |s|
    decreases |s| - at
  {
    if at == |s| then [] else EscapeAt(s, at) + EscapeFrom(s, at + Consumed(s, at))
  }

  function JsonString(s: Bytes): Bytes {
    ['"'] + (EscapeFrom(s, 0) + ['"'])
  }

  // ----- decoding -----

  /** What a short escape stands for. */
  function Unescaped(c: Byte): Option<Byte> {
    if c == '"' || c == '\\' || c == '/' then Some(c)
    else if c == 'b' then Some(BACKSPACE)
    else if c == 'f' then Some(FORM_FEED)
    else if c == 'n' then Some('\n')
    else if c == 'r' then Some('\r')
    else if c == 't' then Some('\t')
    else None
  }

  function HexValue(c: Byte): (r: Option<nat>)
    ensures r.Some? ==> r.value < 16
  {
    if '0' <= c <= '9' then Some(c as int - '0' as int)
    else if 'a' <= c <= 'f' then Some(c as int - 'a' as int + 10)
    else if 'A' <= c <= 'F' then Some(c as int - 'A' as int + 10)
    else None
  }

  /** The longest run of hexadecimal digits within `count` characters, as a number. */
  function HexRun(s: Bytes, at: nat, count: nat, value: nat): nat
    requires at + count <= |s|
    decreases count
  {
    if count == 0 || HexValue(s[at]).None? then value else HexRun(s, at + 1, count - 1, value * 16 + HexValue(s[at]).value)
  }

  /** The library's number reader: at least one digit, and what follows the digits is left alone. */
  function FromChars(s: Bytes, at: nat): Option<nat>
    requires at + 4 <= |s|
  {
    if HexValue(s[at]).None? then None else Some(HexRun(s, at, 4, 0))
  }

  predicate AllHex(s: Bytes, at: nat)
    requires at + 4 <= |s|
  {
    HexValue(s[at]).Some? && HexValue(s[at + 1]).Some? && HexValue(s[at + 2]).Some? && HexValue(s[at + 3]).Some?
  }

  /** Exactly four digits. */
  function FourDigits(s: Bytes, at: nat): Option<nat>
    requires at + 4 <= |s|
  {
    if AllHex(s, at) then Some(HexRun(s, at, 4, 0)) else None
  }

  function Utf8(code: nat): Bytes
    requires code < 0x20_0000
  {
    if code < 0x80 then [code as char]
    else if code < 0x800 then [(0xC0 + code / 64) as char, (0x80 + code % 64) as char]
    else if code < 0x1_0000 then
      [(0xE0 + code / 0x1000) as char, (0x80 + code / 64 % 64) as char, (0x80 + code % 64) as char]
    else
      [(0xF0 + code / 0x4_0000) as char, (0x80 + code / 0x1000 % 64) as char, (0x80 + code / 64 % 64) as char, (0x80 + code % 64) as char]
  }

  /** A decoded text and the position just after its closing quote. */
  datatype Decoded = Text(text: Bytes, next: nat) | Refused

  function Behind(front: Bytes, r: Decoded): Decoded {
    if r.Text? then Text(front + r.text, r.next) else Refused
  }

  /** The code point of an escape whose `u` stands at `u`, and the position of its last character.
      The session channel joins surrogate halves, and refuses a half alone. */
  function SessionUnicode(s: Bytes, u: nat): (r: Option<(nat, nat)>)
    ensures r.Some? ==> r.value.0 < 0x20_0000 && u < r.value.1 < |s|
  {
    if u + 4 >= |s| then None
    else
      var code := FromChars(s, u + 1);
      HexRunBound(s, u + 1, 4, 0);
      if code == None || 0xDC00 <= code.value <= 0xDFFF then None
      else if 0xD800 <= code.value <= 0xDBFF then
        if u + 10 >= |s| || s[u + 5] != '\\' || s[u + 6] != 'u' then None
        else
          var low := FromChars(s, u + 7);
          if low == None || !(0xDC00 <= low.value <= 0xDFFF) then None
          else Some((0x1_0000 + (code.value - 0xD800) * 0x400 + (low.value - 0xDC00), u + 10))
      else Some((code.value, u + 4))
  }

  /** The snapshot reader takes no surrogates. */
  function SnapshotUnicode(s: Bytes, u: nat): (r: Option<(nat, nat)>)
    ensures r.Some? ==> r.value.0 < 0x1_0000 && u < r.value.1 < |s|
  {
    if u + 5 > |s| then None
    else
      var code := FourDigits(s, u + 1);
      HexRunBound(s, u + 1, 4, 0);
      if code == None || 0xD800 <= code.value <= 0xDFFF then None else Some((code.value, u + 4))
  }

  lemma {:induction false} HexRunBound(s: Bytes, at: nat, count: nat, value: nat)
    requires at + count <= |s| && count <= 4
    ensures HexRun(s, at, count, value) < (value + 1) * (if count == 0 then 1 else if count == 1 then 16
                                            else if count == 2 then 256 else if count == 3 then 4096 else 65536)
    decreases count
  {
    if count > 0 && HexValue(s[at]).Some? {
      HexRunBound(s, at + 1, count - 1, value * 16 + HexValue(s[at]).value);
    }
  }

  /** Past the opening quote, as the session channel decodes it. */
  function SessionText(s: Bytes, at: nat): Decoded
    decreases |s| - at
  {
    if at >= |s| then Refused
    else if s[at] == '"' then Text([], at + 1)
    else if s[at] != '\\' then Behind([s[at]], SessionText(s, at + 1))
    else if at + 1 >= |s| then Refused
    else if Unescaped(s[at + 1]).Some? then Behind([Unescaped(s[at + 1]).value], SessionText(s, at + 2))
    else if s[at + 1] != 'u' then Refused
    else
      match SessionUnicode(s, at + 1)
      case None => Refused
      case Some((code, last)) => Behind(Utf8(code), SessionText(s, last + 1))
  }

  /** Past the opening quote, as the snapshot reader decodes it: no raw control characters. */
  function SnapshotText(s: Bytes, at: nat): Decoded
    decreases |s| - at
  {
    if at >= |s| then Refused
    else if s[at] == '"' then Text([], at + 1)
    else if s[at] as int < 0x20 then Refused
    else if s[at] != '\\' then Behind([s[at]], SnapshotText(s, at + 1))
    else if at + 1 >= |s| then Refused
    else if Unescaped(s[at + 1]).Some? then Behind([Unescaped(s[at + 1]).value], SnapshotText(s, at + 2))
    else if s[at + 1] != 'u' then Refused
    else
      match SnapshotUnicode(s, at + 1)
      case None => Refused
      case Some((code, last)) => Behind(Utf8(code), SnapshotText(s, last + 1))
  }

  // ----- both decoders undo the encoder -----

  function CleanAt(s: Bytes, at: nat): Bytes
    requires at < |s|
  {
    if SequenceLength(s, at) > 0 then s[at..at + Consumed(s, at)] else REPLACEMENT
  }

  lemma BehindBehind(a: Bytes, b: Bytes, r: Decoded)
    ensures Behind(a, Behind(b, r)) == Behind(a + b, r) && Behind([], r) == r
  {
    if r.Text? {
      assert a + (b + r.text) == (a + b) + r.text;
      assert [] + r.text == r.text;
    }
  }

  predicate Plain(c: Byte) {
    c != '"' && c != '\\' && c as int >= 0x20
  }

  lemma {:induction false} PlainRun(t: Bytes, to: nat, piece: Bytes)
    requires At(t, to, piece) && forall i :: 0 <= i < |piece| ==> Plain(piece[i])
    ensures SessionText(t, to) == Behind(piece, SessionText(t, to + |piece|))
    ensures SnapshotText(t, to) == Behind(piece, SnapshotText(t, to + |piece|))
    decreases |piece|
  {
    if piece == [] {
      BehindBehind([], [], SessionText(t, to));
      BehindBehind([], [], SnapshotText(t, to));
    } else {
      assert piece == [piece[0]] + piece[1..];
      AtSplit(t, to, [piece[0]], piece[1..]);
      assert t[to] == t[to..to + 1][0];
      PlainRun(t, to + 1, piece[1..]);
      BehindBehind([piece[0]], piece[1..], SessionText(t, to + |piece|));
      BehindBehind([piece[0]], piece[1..], SnapshotText(t, to + |piece|));
    }
  }

  lemma FourHex(t: Bytes, at: nat)
    requires at + 4 <= |t| && AllHex(t, at)
    ensures var v := HexValue(t[at]).value * 4096 + HexValue(t[at + 1]).value * 256
                     + HexValue(t[at + 2]).value * 16 + HexValue(t[at + 3]).value;
      FromChars(t, at) == FourDigits(t, at) == Some(v)
  {
    var a := HexValue(t[at]).value;
    var b := a * 16 + HexValue(t[at + 1]).value;
    var c := b * 16 + HexValue(t[at + 2]).value;
    assert HexRun(t, at, 4, 0) == HexRun(t, at + 1, 3, a) == HexRun(t, at + 2, 2, b) == HexRun(t, at + 3, 1, c);
  }

  /** A four-digit escape with something after it. */
  lemma UnicodeDecodes(t: Bytes, to: nat, code: nat)
    requires to + 6 < |t| && t[to] == '\\' && t[to + 1] == 'u' && AllHex(t, to + 2)
    requires code == HexValue(t[to + 2]).value * 4096 + HexValue(t[to + 3]).value * 256
                     + HexValue(t[to + 4]).value * 16 + HexValue(t[to + 5]).value
    requires code < 0xD800 || 0xE000 <= code < 0x1_0000
    ensures SessionText(t, to) == Behind(Utf8(code), SessionText(t, to + 6))
    ensures SnapshotText(t, to) == Behind(Utf8(code), SnapshotText(t, to + 6))
  {
    hide FromChars, FourDigits, Utf8;
    FourHex(t, to + 2);
  }

  lemma ShortEscapes(c: Byte)
    requires ShortEscape(c).Some?
    ensures Unescaped(ShortEscape(c).value) == Some(c)
  {
  }

  lemma LowHexReads(n: nat)
    requires n < 16
    ensures HexValue(LowHex(n)) == Some(n)
  {
  }

  lemma SequenceIsPlain(s: Bytes, at: nat)
    requires at < |s| && SequenceLength(s, at) > 0 && ShortEscape(s[at]).None? && s[at] as int >= 0x20
    ensures forall i :: at <= i < at + SequenceLength(s, at) ==> Plain(s[i])
  {
    var n := SequenceLength(s, at);
    SequenceLengthIsTheTable(s, at, n);
    hide SequenceLength;
    forall i | at <= i < at + n
      ensures Plain(s[i])
    {
      assert s[i] == s[at..at + n][i - at];
    }
  }

  /** One character's encoding, wherever it stands with more text after it, decodes to the
      character or its replacement. */
  lemma EscapeDecodes(s: Bytes, at: nat, t: Bytes, to: nat)
    requires at < |s| && At(t, to, EscapeAt(s, at)) && to + |EscapeAt(s, at)| < |t|
    ensures SessionText(t, to) == Behind(CleanAt(s, at), SessionText(t, to + |EscapeAt(s, at)|))
    ensures SnapshotText(t, to) == Behind(CleanAt(s, at), SnapshotText(t, to + |EscapeAt(s, at)|))
  {
    hide SequenceLength, SessionText, SnapshotText;
    var c, e := s[at], EscapeAt(s, at);
    Ascii(s, at);
    if ShortEscape(c).Some? {
      ShortDecodes(t, to, c);
      assert s[at..at + 1] == [c];
    } else if c as int < 0x20 {
      SixAt(t, to, e);
      LowHexReads(c as int / 16);
      LowHexReads(c as int % 16);
      UnicodeDecodes(t, to, c as int);
      assert s[at..at + 1] == [c];
    } else if SequenceLength(s, at) > 0 {
      SequenceIsPlain(s, at);
      PlainRun(t, to, e);
    } else {
      SixAt(t, to, e);
      UnicodeDecodes(t, to, 0xFFFD);
      assert Utf8(0xFFFD) == REPLACEMENT;
    }
  }

  lemma SixAt(t: Bytes, to: nat, e: Bytes)
    requires At(t, to, e) && |e| == 6
    ensures t[to] == e[0] && t[to + 1] == e[1] && t[to + 2] == e[2] && t[to + 3] == e[3] && t[to + 4] == e[4] && t[to + 5] == e[5]
  {
    var w := t[to..to + 6];
    assert w[0] == t[to] && w[1] == t[to + 1] && w[2] == t[to + 2] && w[3] == t[to + 3] && w[4] == t[to + 4] && w[5] == t[to + 5];
  }

  lemma ShortDecodes(t: Bytes, to: nat, c: Byte)
    requires ShortEscape(c).Some? && At(t, to, ['\\', ShortEscape(c).value])
    ensures SessionText(t, to) == Behind([c], SessionText(t, to + 2))
    ensures SnapshotText(t, to) == Behind([c], SnapshotText(t, to + 2))
  {
    ShortEscapes(c);
    var w := t[to..to + 2];
    assert w[0] == t[to] && w[1] == t[to + 1];
  }

  lemma Ascii(s: Bytes, at: nat)
    requires at < |s|
    ensures s[at] as int < 0x80 ==> SequenceLength(s, at) == 1
    ensures ShortEscape(s[at]).Some? ==> s[at] as int < 0x80
  {
  }

  lemma {:induction false} BodyDecodes(s: Bytes, at: nat, t: Bytes, to: nat)
    requires at <= |s| && At(t, to, EscapeFrom(s, at) + ['"'])
    ensures SessionText(t, to) == SnapshotText(t, to) == Text(CleanFrom(s, at), to + |EscapeFrom(s, at)| + 1)
    decreases |s| - at
  {
    hide SequenceLength, EscapeAt, SessionText, SnapshotText;
    if at == |s| {
      assert EscapeFrom(s, at) + ['"'] == ['"'];
      QuoteCloses(t, to);
    } else {
      var e, n := EscapeAt(s, at), Consumed(s, at);
      var rest := EscapeFrom(s, at + n) + ['"'];
      assert EscapeFrom(s, at) + ['"'] == e + rest;
      AtSplit(t, to, e, rest);
      BodyDecodes(s, at + n, t, to + |e|);
      EscapeDecodes(s, at, t, to);
    }
  }

  lemma QuoteCloses(t: Bytes, to: nat)
    requires At(t, to, ['"'])
    ensures SessionText(t, to) == SnapshotText(t, to) == Text([], to + 1)
  {
    assert t[to] == t[to..to + 1][0];
  }

  /** For any bytes at all, both decoders read from the encoder's output one and the same
      well-formed text: the bytes themselves exactly when they are well-formed. */
  lemma BothDecodersInvert(s: Bytes, before: Bytes, after: Bytes)
    ensures var t := before + JsonString(s) + after; var to := |before| + 1;
      SessionText(t, to) == SnapshotText(t, to) == Text(Clean(s), |before| + |JsonString(s)|)
    ensures WellFormed(Clean(s)) && (Clean(s) == s <==> WellFormed(s)) && Clean(Clean(s)) == Clean(s)
  {
    hide SessionText, SnapshotText;
    var t := before + JsonString(s) + after;
    var body := EscapeFrom(s, 0) + ['"'];
    assert t[|before| + 1..|before| + 1 + |body|] == body;
    BodyDecodes(s, 0, t, |before| + 1);
    CleanLaws(s);
  }

  // ----- the decoders compared on everything -----

  /** An escape the snapshot reader takes means the same to the session channel. */
  lemma UnicodeAgrees(s: Bytes, u: nat)
    ensures SnapshotUnicode(s, u).Some? ==> SessionUnicode(s, u) == SnapshotUnicode(s, u)
  {
    if u + 5 <= |s| && AllHex(s, u + 1) {
      FourHex(s, u + 1);
    }
  }

  /** On any bytes at all, whatever text the snapshot reader decodes the session channel decodes
      too, to the same text with the same end. */
  lemma {:induction false} SessionExtendsSnapshot(s: Bytes, at: nat)
    ensures SnapshotText(s, at).Text? ==> SessionText(s, at) == SnapshotText(s, at)
    decreases |s| - at
  {
    hide SessionUnicode, SnapshotUnicode, Unescaped, Utf8;
    if at < |s| && s[at] != '"' && s[at] as int >= 0x20 {
      if s[at] != '\\' {
        SessionExtendsSnapshot(s, at + 1);
      } else if at + 1 < |s| {
        if Unescaped(s[at + 1]).Some? {
          SessionExtendsSnapshot(s, at + 2);
        } else if SnapshotUnicode(s, at + 1).Some? {
          UnicodeAgrees(s, at + 1);
          SessionExtendsSnapshot(s, SnapshotUnicode(s, at + 1).value.1 + 1);
        }
      }
    }
  }

  /** Not the other way: the session channel takes a raw tab. */
  const TAB: Bytes := ['\t', '"']

  lemma SessionTakesTabs()
    ensures SnapshotText(TAB, 0) == Refused && SessionText(TAB, 0) == Text(['\t'], 2)
  {
    assert SessionText(TAB, 1) == Text([], 2);
  }

  /** And it joins a surrogate pair. */
  const PAIR: Bytes := ['\\', 'u', 'D', '8', '3', 'D', '\\', 'u', 'D', 'E', '0', '0', '"']

  lemma SessionTakesPairs()
    ensures SnapshotText(PAIR, 0) == Refused && SessionText(PAIR, 0) == Text(Utf8(0x1_F600), 13)
  {
    hide SessionText, Utf8;
    FourHex(PAIR, 2);
    FourHex(PAIR, 8);
    assert SessionUnicode(PAIR, 1) == Some((0x1_F600, 11));
    PairReads();
  }

  lemma PairReads()
    requires SessionUnicode(PAIR, 1) == Some((0x1_F600, 11))
    ensures SessionText(PAIR, 0) == Text(Utf8(0x1_F600), 13)
  {
    hide SessionUnicode, Utf8;
    assert SessionText(PAIR, 12) == Text([], 13);
  }
}
