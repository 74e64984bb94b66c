/** The JSON string and envelope code as the source has it: cursors and flags in loops. */
module JsonObject {
  import opened Prelude
  import opened JsonText
  import opened SessionEnvelope

  method SequenceLengthAt(s: Bytes, at: nat) returns (n: nat)
    requires at < |s|
    ensures n == SequenceLength(s, at)
  {
    if s[at] as int < 0x80 {
      return 1;
    }
    var (length, code) := Lead(s[at]);
    if length == 0 || at + length > |s| {
      return 0;
    }
    ghost var bits := code;
    var offset := 1;
    while offset < length
      invariant 1 <= offset <= length
      invariant CodePoint(s, at + 1, length - 1, bits) == CodePoint(s, at + offset, length - offset, code)
    {
      if !Continuation(s[at + offset]) {
        return 0;
      }
      code := code * 64 + (s[at + offset] as int - 0x80);
      offset := offset + 1;
    }
    return if Acceptable(length, code) then length else 0;
  }

  /** One character's encoding, and how many bytes of the text it covers. */
  method EncodeOne(s: Bytes, at: nat) returns (piece: Bytes, n: nat)
    requires at < |s|
    ensures piece == EscapeAt(s, at) && n == Consumed(s, at)
  {
    hide SequenceLength, ShortEscape;
    Ascii(s, at);
    var c := s[at];
    if ShortEscape(c).Some? {
      return ['\\', ShortEscape(c).value], 1;
    }
    if c as int < 0x20 {
      return ['\\', 'u', '0', '0', LowHex(c as int / 16), LowHex(c as int % 16)], 1;
    }
    var length := SequenceLengthAt(s, at);
    if length > 0 {
      return s[at..at + length], length;
    }
    return ['\\', 'u', 'f', 'f', 'f', 'd'], 1;
  }

  method EncodeString(s: Bytes) returns (result: Bytes)
    ensures result == JsonString(s)
  {
    hide SequenceLength, EscapeAt;
    result := ['"'];
    var at := 0;
    while at < |s|
      invariant at <= |s| && result + EscapeFrom(s, at) == ['"'] + EscapeFrom(s, 0)
      decreases |s| - at
    {
      var piece, n := EncodeOne(s, at);
      assert result + (piece + EscapeFrom(s, at + n)) == (result + piece) + EscapeFrom(s, at + n);
      result := result + piece;
      at := at + n;
    }
    assert result + [] == result;
    result := result + ['"'];
  }

  /** Decodes a string whose opening quote stands at `position`. */
  method ParseStringAt(text: Bytes, position: nat) returns (value: Option<Bytes>)
    ensures value == StringAt(text, position)
  {
    hide SessionUnicode, Unescaped, Utf8;
    if position >= |text| || text[position] != '"' {
      return None;
    }
    var decoded: Bytes := [];
    var cursor := position + 1;
    BehindBehind([], [], SessionText(text, cursor));
    while cursor < |text|
      invariant cursor <= |text| && SessionText(text, position + 1) == Behind(decoded, SessionText(text, cursor))
      decreases |text| - cursor
    {
      var c := text[cursor];
      if c == '"' {
        assert decoded + [] == decoded;
        return Some(decoded);
      }
      if c != '\\' {
        BehindBehind(decoded, [c], SessionText(text, cursor + 1));
        decoded := decoded + [c];
        cursor := cursor + 1;
      } else {
        cursor := cursor + 1;
        if cursor >= |text| {
          return None;
        }
        var short := Unescaped(text[cursor]);
        if short.Some? {
          BehindBehind(decoded, [short.value], SessionText(text, cursor + 1));
          decoded := decoded + [short.value];
          cursor := cursor + 1;
        } else if text[cursor] != 'u' {
          return None;
        } else {
          var code := SessionUnicode(text, cursor);
          if code == None {
            return None;
          }
          BehindBehind(decoded, Utf8(code.value.0), SessionText(text, code.value.1 + 1));
          decoded := decoded + Utf8(code.value.0);
          cursor := code.value.1 + 1;
        }
      }
    }
    return None;
  }

  /** White space between tokens, as the C locale has it. */
  predicate Space(c: Byte) {
    c == ' ' || 9 <= c as int <= 13
  }

  function SpaceEnd(s: Bytes, at: nat): (r: nat)
    ensures at <= r && (at <= |s| ==> r <= |s|)
    decreases |s| - at
  {
    if at < |s| && Space(s[at]) then SpaceEnd(s, at + 1) else at
  }

  class SnapshotReader {
    const input: Bytes
    var position: nat

    constructor (input: Bytes)
      ensures this.input == input && position == 0
    {
      this.input := input;
      position := 0;
    }

    method SkipSpace()
      requires position <= |input|
      modifies this
      ensures position == SpaceEnd(input, old(position)) && position <= |input|
    {
      while position < |input| && Space(input[position])
        invariant position <= |input| && SpaceEnd(input, old(position)) == SpaceEnd(input, position)
        decreases |input| - position
      {
        position := position + 1;
      }
    }

    /** A string token; a failure is final, and leaves the cursor anywhere. */
    method String() returns (value: Option<Bytes>)
      requires position <= |input|
      modifies this
      ensures position <= |input|
      ensures var start := SpaceEnd(input, old(position));
        if start < |input| && input[start] == '"' then
          match SnapshotText(input, start + 1)
          case Text(t, next) => value == Some(t) && position == next
          case Refused => value == None
        else value == None
    {
      hide SnapshotUnicode, Unescaped, Utf8;
      SkipSpace();
      ghost var start := position + 1;
      if position >= |input| || input[position] != '"' {
        return None;
      }
      position := position + 1;
      var result: Bytes := [];
      BehindBehind([], [], SnapshotText(input, position));
      while position < |input|
        invariant position <= |input| && SnapshotText(input, start) == Behind(result, SnapshotText(input, position))
        decreases |input| - position
      {
        var c := input[position];
        if c == '"' {
          assert result + [] == result;
          position := position + 1;
          return Some(result);
        }
        if c as int < 0x20 {
          return None;
        }
        if c != '\\' {
          BehindBehind(result, [c], SnapshotText(input, position + 1));
          result := result + [c];
          position := position + 1;
        } else {
          if position + 1 >= |input| {
            return None;
          }
          var short := Unescaped(input[position + 1]);
          if short.Some? {
            BehindBehind(result, [short.value], SnapshotText(input, position + 2));
            result := result + [short.value];
            position := position + 2;
          } else if input[position + 1] != 'u' {
            return None;
          } else {
            var code := SnapshotUnicode(input, position + 1);
            if code == None {
              return None;
            }
            BehindBehind(result, Utf8(code.value.0), SnapshotText(input, code.value.1 + 1));
            result := result + Utf8(code.value.0);
            position := code.value.1 + 1;
          }
        }
      }
      return None;
    }
  }

  method SkipBlanksFrom(o: Bytes, start: nat) returns (cursor: nat)
    ensures cursor == SkipBlanks(o, start)
  {
    cursor := start;
    while cursor < |o| && Blank(o[cursor])
      invariant SkipBlanks(o, start) == SkipBlanks(o, cursor)
      decreases |o| - cursor
    {
      cursor := cursor + 1;
    }
  }

  /** Looks for a field of the top level, knowing strings and depth. */
  method FindFieldIn(o: Bytes, name: Bytes) returns (at: Option<nat>)
    ensures at == FindField(o, name)
  {
    hide Matches, SkipBlanks;
    var marker := Marker(name);
    var depth: nat, quoted, escaped := 0, false, false;
    var position := 0;
    while position < |o|
      invariant position <= |o| && FindField(o, name) == Scan(o, name, position, depth, quoted, escaped)
      invariant escaped ==> quoted
      decreases |o| - position
    {
      var c := o[position];
      if quoted {
        if escaped {
          escaped := false;
        } else if c == '\\' {
          escaped := true;
        } else if c == '"' {
          quoted := false;
        }
      } else if c == '{' || c == '[' {
        depth := depth + 1;
      } else if c == '}' || c == ']' {
        if depth > 0 {
          depth := depth - 1;
        }
      } else if c == '"' {
        if depth == 1 && Matches(o, position, marker) {
          var cursor := SkipBlanksFrom(o, position + |marker|);
          if cursor < |o| && o[cursor] == ':' {
            cursor := SkipBlanksFrom(o, cursor + 1);
            return Some(cursor);
          }
        }
        quoted := true;
      }
      position := position + 1;
    }
    return None;
  }

  /** The raw text of the object that starts at `position`. */
  method ObjectExtentAt(o: Bytes, position: nat) returns (r: Option<Bytes>)
    ensures r == ObjectExtent(o, position)
  {
    if position >= |o| || o[position] != '{' {
      return None;
    }
    var depth: nat, quoted, escaped := 0, false, false;
    var cursor := position;
    while cursor < |o|
      invariant position <= cursor <= |o| && (escaped ==> quoted)
      invariant Extent(o, position, 0, false, false) == Extent(o, cursor, depth, quoted, escaped)
      invariant if cursor > position then depth > 0 else depth == 0 && !quoted
      decreases |o| - cursor
    {
      var c := o[cursor];
      if quoted {
        if escaped {
          escaped := false;
        } else if c == '\\' {
          escaped := true;
        } else if c == '"' {
          quoted := false;
        }
      } else if c == '"' {
        quoted := true;
      } else if c == '{' {
        depth := depth + 1;
      } else if c == '}' {
        depth := depth - 1;
        if depth == 0 {
          return Some(o[position..cursor + 1]);
        }
      }
      cursor := cursor + 1;
    }
    return None;
  }

  method ParseEnvelopeText(o: Bytes) returns (r: Result<Envelope, ParseError>)
    ensures r == ParseEnvelope(o)
  {
    hide FindField, StringAt, ObjectExtent, NumberAt;
    if o == [] || o[0] != '{' {
      return Err(WrongEncoding);
    }
    var typeAt := FindFieldIn(o, TYPE_KEY);
    if typeAt == None {
      return Err(Malformed);
    }
    var kind := ParseStringAt(o, typeAt.value);
    if kind == None || kind.value == [] {
      return Err(Malformed);
    }
    var envelope := Envelope(kind.value, 0, [], []);
    var versionAt := FindFieldIn(o, VERSION_KEY);
    if versionAt.Some? {
      var version := NumberAt(o, versionAt.value);
      if version == None {
        return Err(Malformed);
      }
      envelope := envelope.(version := version.value);
    }
    var correlationAt := FindFieldIn(o, CORRELATION_KEY);
    if correlationAt.Some? {
      var correlation := ParseStringAt(o, correlationAt.value);
      if correlation == None {
        return Err(Malformed);
      }
      envelope := envelope.(correlation := correlation.value);
    }
    var payloadAt := FindFieldIn(o, PAYLOAD_KEY);
    if payloadAt.Some? {
      var payload := ObjectExtentAt(o, payloadAt.value);
      if payload == None {
        return Err(Malformed);
      }
      envelope := envelope.(payload := payload.value);
    }
    return Ok(envelope);
  }
}
