/** Envelopes as they stand on the wire, and what else the reader takes. */
module EnvelopeText {
  import opened Prelude
  import opened Bytecode
  import opened DecimalText
  import opened JsonText
  import opened SessionEnvelope

  // ----- what is written -----

  /** The envelope's text, spelled out: a type, the version, and a correlation id and a payload where
      there are any. */
  lemma EncodedText(kind: Bytes, correlation: Bytes, payload: Bytes)
    ensures EncodeEnvelope(kind, correlation, payload) ==
      ['{'] + "\"type\"" + [':'] + JsonString(kind) + [','] + "\"version\"" + [':'] + ['1']
      + (if correlation == [] then [] else [','] + "\"correlationId\"" + [':'] + JsonString(correlation))
      + (if payload == [] then [] else [','] + "\"payload\"" + [':'] + payload) + ['}']
  {
    MarkersSpelled();
    QuotedIsSomething(correlation);
    hide JsonString, Marker, TYPE_KEY, VERSION_KEY, CORRELATION_KEY, PAYLOAD_KEY;
    var third := Optional(CORRELATION_KEY, if correlation == [] then [] else JsonString(correlation));
    var fourth := Optional(PAYLOAD_KEY, payload);
    Three([','], Marker(CORRELATION_KEY), [':'], JsonString(correlation));
    Three([','], Marker(PAYLOAD_KEY), [':'], payload);
    Eight(['{'], Marker(TYPE_KEY), [':'], JsonString(kind), [','], Marker(VERSION_KEY), [':'], ['1'], third, fourth, ['}']);
  }

  lemma Three(a: Bytes, b: Bytes, c: Bytes, d: Bytes)
    ensures a + (b + (c + d)) == a + b + c + d
  {
  }

  lemma Eight(a: Bytes, b: Bytes, c: Bytes, d: Bytes, e: Bytes, f: Bytes, g: Bytes, h: Bytes, x: Bytes, y: Bytes, z: Bytes)
    ensures a + (b + (c + (d + (e + (f + (g + (h + (x + (y + z))))))))) == a + b + c + d + e + f + g + h + x + y + z
  {
    var r := h + (x + (y + z));
    assert a + (b + (c + (d + (e + (f + (g + r)))))) == a + b + c + d + e + f + g + r;
    var l := a + b + c + d + e + f + g;
    assert l + (h + (x + (y + z))) == l + h + x + y + z;
  }

  lemma QuotedIsSomething(s: Bytes)
    ensures JsonString(s) != []
  {
  }

  lemma MarkersSpelled()
    ensures Marker(TYPE_KEY) == "\"type\"" && Marker(VERSION_KEY) == "\"version\""
    ensures Marker(CORRELATION_KEY) == "\"correlationId\"" && Marker(PAYLOAD_KEY) == "\"payload\""
  {
  }

  // ----- what is read -----

  /** Spaces and tabs. */
  predicate Gap(g: Bytes) {
    forall i :: 0 <= i < |g| ==> g[i] as int in {9, 32}
  }

  lemma {:induction false} GapSkipped(o: Bytes, pos: nat, g: Bytes)
    requires At(o, pos, g) && Gap(g)
    requires pos + |g| < |o| && o[pos + |g|] as int !in {9, 32}
    ensures SkipBlanks(o, pos) == pos + |g|
    decreases |g|
  {
    if g != [] {
      assert o[pos] == o[pos..pos + |g|][0];
      assert g == [g[0]] + g[1..];
      AtSplit(o, pos, [g[0]], g[1..]);
      GapSkipped(o, pos + 1, g[1..]);
    }
  }

  /** A key is found with any spaces and tabs before and after its colon. */
  lemma KeyFoundThroughGaps(o: Bytes, name: Bytes, pos: nat, before: Bytes, after: Bytes)
    requires Gap(before) && Gap(after) && At(o, pos, Marker(name) + (before + ([':'] + after)))
    requires var at := pos + |name| + 3 + |before| + |after|; at < |o| && o[at] as int !in {9, 32}
    ensures Scan(o, name, pos, 1, false, false) == Some(pos + |name| + 3 + |before| + |after|)
  {
    hide SkipBlanks;
    assert |Marker(name)| == |name| + 2 && Marker(name)[0] == '"';
    hide Marker;
    AtSplit(o, pos, Marker(name), before + ([':'] + after));
    var p1 := pos + |name| + 2;
    AtSplit(o, p1, before, [':'] + after);
    var p2 := p1 + |before|;
    AtSplit(o, p2, [':'], after);
    assert o[p2] == o[p2..p2 + 1][0];
    GapSkipped(o, p1, before);
    GapSkipped(o, p2 + 1, after);
    assert o[pos] == o[pos..pos + |name| + 2][0];
    KeyStep(o, name, pos);
  }

  /** One step of the scan, at a key with its colon. */
  lemma KeyStep(o: Bytes, name: Bytes, pos: nat)
    requires pos < |o| && o[pos] == '"' && Matches(o, pos, Marker(name))
    requires var cursor := SkipBlanks(o, pos + |Marker(name)|); cursor < |o| && o[cursor] == ':'
    ensures Scan(o, name, pos, 1, false, false) == Some(SkipBlanks(o, SkipBlanks(o, pos + |Marker(name)|) + 1))
  {
    hide SkipBlanks, Marker, Matches;
  }

  lemma {:induction false} DigitsRun(o: Bytes, pos: nat, s: Bytes, n: nat)
    requires At(o, pos, s) && (forall i :: 0 <= i < |s| ==> '0' <= s[i] <= '9') && NumeralValue(s) == n
    ensures DigitRun(o, pos, 0) == DigitRun(o, pos + |s|, n)
    decreases |s|
  {
    if s != [] {
      var front, last := s[..|s| - 1], s[|s| - 1];
      assert s == front + [last];
      AtSplit(o, pos, front, [last]);
      DigitsRun(o, pos, front, NumeralValue(front));
      var at := pos + |front|;
      assert o[at] == o[at..at + 1][0];
    }
  }

  lemma RunEnds(o: Bytes, pos: nat, n: nat)
    requires pos >= |o| || !('0' <= o[pos] <= '9')
    ensures DigitRun(o, pos, n) == n
  {
  }

  /** A version is read as the integer its decimal text stands for, whatever follows the digits. */
  lemma NumberReads(o: Bytes, pos: nat, n: int32)
    requires At(o, pos, IntToString(n))
    requires var end := pos + |IntToString(n)|; end == |o| || !('0' <= o[end] <= '9')
    ensures NumberAt(o, pos) == Some(n)
  {
    TextReadsAsTheInteger(n);
    hide IntToString, NumeralValue, DigitRun;
    var s := IntToString(n);
    assert o[pos] == o[pos..pos + |s|][0];
    if n < 0 {
      assert s == ['-'] + s[1..];
      AtSplit(o, pos, ['-'], s[1..]);
      assert o[pos + 1] == o[pos + 1..pos + |s|][0];
      DigitsRun(o, pos + 1, s[1..], NumeralValue(s[1..]));
      RunEnds(o, pos + |s|, NumeralValue(s[1..]));
    } else {
      DigitsRun(o, pos, s, n);
      RunEnds(o, pos + |s|, n);
    }
  }

  /** An object with a type and none of the other three: they have their defaults. */
  lemma AbsentFieldsAreDefaults(o: Bytes, fs: seq<Field>, kind: Bytes)
    requires Holds(o, fs) && ValueOf(fs, TYPE_KEY) == Some(Quoted(EscapeFrom(kind, 0))) && Clean(kind) != []
    requires ValueOf(fs, VERSION_KEY) == ValueOf(fs, CORRELATION_KEY) == ValueOf(fs, PAYLOAD_KEY) == None
    ensures ParseEnvelope(o) == Ok(Envelope(Clean(kind), 0, [], []))
  {
    hide Spell, FieldsText, ValueOf, FindField, Holds, EscapeFrom, Clean;
    KeysArePlain();
    FieldFound(o, fs, TYPE_KEY);
    FieldFound(o, fs, VERSION_KEY);
    FieldFound(o, fs, CORRELATION_KEY);
    FieldFound(o, fs, PAYLOAD_KEY);
    StringReads(o, FindField(o, TYPE_KEY).value, kind);
    assert o != [] && o[0] == '{' by { HoldsABrace(o, fs); }
  }

  lemma HoldsABrace(o: Bytes, fs: seq<Field>)
    requires Holds(o, fs)
    ensures o != [] && o[0] == '{'
  {
  }
}
