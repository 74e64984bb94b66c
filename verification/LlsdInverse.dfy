/** What LLSD's binary writer and reader do to each other. */
module LlsdInverse {
  import opened Prelude
  import opened Llsd

  // ----- words -----

  lemma {:induction false} WordReads(n: nat, width: nat)
    requires n < Pow256(width)
    ensures WordOf(BigEndian(n, width)) == n
    decreases width
  {
    if width > 0 {
      var front := BigEndian(n / 256, width - 1);
      assert BigEndian(n, width)[..width - 1] == front;
      WordReads(n / 256, width - 1);
    }
  }

  lemma Quotient(q: nat, r: nat)
    requires r < 256
    ensures (256 * q + r) / 256 == q && (256 * q + r) % 256 == r
  {
  }

  lemma {:induction false} WordWrites(b: Bytes)
    ensures BigEndian(WordOf(b), |b|) == b
    decreases |b|
  {
    if b != [] {
      var front, last := b[..|b| - 1], b[|b| - 1];
      WordWrites(front);
      Quotient(WordOf(front), last as int);
      assert b == front + [last];
    }
  }

  // ----- identifiers -----

  predicate LowerHex(c: Byte) {
    '0' <= c <= '9' || 'a' <= c <= 'f'
  }

  predicate DashAt(i: nat) {
    i == 8 || i == 13 || i == 18 || i == 23
  }

  /** The one spelling the reader produces: lower case, dashes in their four places. */
  predicate CanonicalUuid(text: Bytes) {
    |text| == 36 && forall i: nat :: i < 36 ==> if DashAt(i) then text[i] == '-' else LowerHex(text[i])
  }

  function Digits(text: Bytes): Bytes
    requires |text| == 36
  {
    text[..8] + text[9..13] + text[14..18] + text[19..23] + text[24..]
  }

  lemma DashesReturn(text: Bytes)
    requires CanonicalUuid(text)
    ensures |Digits(text)| == 32 && Dashed(Digits(text)) == text
    ensures forall i :: 0 <= i < 32 ==> LowerHex(Digits(text)[i])
  {
    var d := Digits(text);
    assert d[..8] == text[..8] && d[8..12] == text[9..13] && d[12..16] == text[14..18] && d[16..20] == text[19..23];
    assert d[20..] == text[24..];
    assert DashAt(8) && DashAt(13) && DashAt(18) && DashAt(23);
    assert text[8..9] == ['-'] && text[13..14] == ['-'] && text[18..19] == ['-'] && text[23..24] == ['-'];
  }

  lemma NibblesStep(text: Bytes)
    requires text != []
    ensures Nibbles(text) ==
      if text[0] == '-' then Nibbles(text[1..])
      else if Nibble(text[0]).Some? && Nibbles(text[1..]).Some? then Some([Nibble(text[0]).value] + Nibbles(text[1..]).value)
      else None
  {
    hide Nibble;
  }

  lemma {:induction false} NibblesConcat(a: Bytes, b: Bytes)
    ensures Nibbles(a + b) ==
      if Nibbles(a).Some? && Nibbles(b).Some? then Some(Nibbles(a).value + Nibbles(b).value) else None
    decreases |a|
  {
    hide Nibble;
    if a == [] {
      assert a + b == b;
      if Nibbles(b).Some? {
        assert [] + Nibbles(b).value == Nibbles(b).value;
      }
    } else {
      hide Nibbles;
      assert (a + b)[0] == a[0] && (a + b)[1..] == a[1..] + b;
      NibblesStep(a);
      NibblesStep(a + b);
      NibblesConcat(a[1..], b);
      if Nibbles(a).Some? && Nibbles(b).Some? && a[0] != '-' {
        var n, rest := Nibble(a[0]).value, Nibbles(a[1..]).value;
        assert [n] + (rest + Nibbles(b).value) == ([n] + rest) + Nibbles(b).value;
      }
    }
  }

  lemma {:induction false} NibblesOfHex(h: Bytes)
    requires forall i :: 0 <= i < |h| ==> LowerHex(h[i])
    ensures Nibbles(h).Some? && |Nibbles(h).value| == |h|
    ensures forall i :: 0 <= i < |h| ==> HexDigit(Nibbles(h).value[i]) == h[i]
    decreases |h|
  {
    if h != [] {
      NibblesOfHex(h[1..]);
      assert Nibbles(h).value == [Nibble(h[0]).value] + Nibbles(h[1..]).value;
    }
  }

  lemma DashIsNothing(a: Bytes, b: Bytes)
    ensures Nibbles(a + ['-'] + b) == Nibbles(a + b)
  {
    assert Nibbles(['-']) == Some([]) by { assert Nibbles([]) == Some([]); }
    assert a + ['-'] + b == a + (['-'] + b);
    NibblesConcat(a, ['-'] + b);
    NibblesConcat(['-'], b);
    NibblesConcat(a, b);
    if Nibbles(b).Some? {
      assert [] + Nibbles(b).value == Nibbles(b).value;
    }
  }

  lemma DashesVanish(h: Bytes)
    requires |h| == 32
    ensures Nibbles(Dashed(h)) == Nibbles(h)
  {
    var h1 := h[..8] + ['-'] + h[8..12] + ['-'] + h[12..16] + ['-'] + h[16..20];
    DashIsNothing(h1, h[20..]);
    var h2 := h[..8] + ['-'] + h[8..12] + ['-'] + h[12..16];
    assert h1 + h[20..] == h2 + ['-'] + h[16..];
    DashIsNothing(h2, h[16..]);
    var h3 := h[..8] + ['-'] + h[8..12];
    assert h2 + h[16..] == h3 + ['-'] + h[12..];
    DashIsNothing(h3, h[12..]);
    assert h3 + h[12..] == h[..8] + ['-'] + h[8..];
    DashIsNothing(h[..8], h[8..]);
    assert h[..8] + h[8..] == h;
  }

  lemma {:induction false} HexOfPack(ns: seq<nat>)
    requires |ns| % 2 == 0 && forall i :: 0 <= i < |ns| ==> ns[i] < 16
    ensures |Hex(Pack(ns))| == |ns| && forall i :: 0 <= i < |ns| ==> Hex(Pack(ns))[i] == HexDigit(ns[i])
    decreases |ns|
  {
    if ns != [] {
      HexOfPack(ns[2..]);
      var b := Pack(ns);
      assert b[1..] == Pack(ns[2..]);
      assert Hex(b) == [HexDigit(ns[0]), HexDigit(ns[1])] + Hex(Pack(ns[2..]));
    }
  }

  lemma {:induction false} HexIsInjective(a: Bytes, b: Bytes)
    requires Hex(a) == Hex(b)
    ensures a == b
    decreases |a|
  {
    if a != [] {
      assert b != [];
      var x, y := Hex(a), Hex(b);
      assert x[0] == HexDigit(a[0] as int / 16) && x[1] == HexDigit(a[0] as int % 16);
      assert y[0] == HexDigit(b[0] as int / 16) && y[1] == HexDigit(b[0] as int % 16);
      assert Hex(a[1..]) == x[2..] && Hex(b[1..]) == y[2..];
      HexIsInjective(a[1..], b[1..]);
    }
  }

  lemma {:induction false} HexIsLower(b: Bytes)
    ensures forall i :: 0 <= i < |Hex(b)| ==> LowerHex(Hex(b)[i])
    decreases |b|
  {
    if b != [] {
      HexIsLower(b[1..]);
    }
  }

  lemma UuidTextIsCanonical(b: Bytes)
    requires |b| == 16
    ensures CanonicalUuid(UuidText(b))
  {
    HexIsLower(b);
  }

  /** The sixteen bytes come back from their spelling, and the spelling exactly when canonical. */
  lemma UuidRoundTrip(b: Bytes, text: Bytes)
    requires |b| == 16
    ensures UuidBytes(UuidText(b)) == b
    ensures UuidText(UuidBytes(text)) == text <==> CanonicalUuid(text)
  {
    HexIsLower(b);
    DashesVanish(Hex(b));
    NibblesOfHex(Hex(b));
    PackUnpacks(Hex(b));
    HexIsInjective(Pack(Nibbles(Hex(b)).value), b);
    UuidTextIsCanonical(UuidBytes(text));
    if CanonicalUuid(text) {
      DashesReturn(text);
      DashesVanish(Digits(text));
      PackUnpacks(Digits(text));
    }
  }

  lemma PackUnpacks(h: Bytes)
    requires |h| % 2 == 0 && forall i :: 0 <= i < |h| ==> LowerHex(h[i])
    ensures Nibbles(h).Some? && |Nibbles(h).value| == |h| && Hex(Pack(Nibbles(h).value)) == h
  {
    NibblesOfHex(h);
    HexOfPack(Nibbles(h).value);
  }

  // ----- reading what was written -----

  /** The values the format can carry. */
  predicate Fits(v: Llsd, depth: nat)
    decreases v, 1
  {
    && depth <= 32
    && match v
       case Undefined => true
       case Boolean(_) => true
       case Integer(n) => -0x8000_0000 <= n < 0x8000_0000
       case Real(_) => true
       case Uuid(text) => CanonicalUuid(text)
       case Text(text) => |text| < TWO_32
       case Uri(text) => |text| < TWO_32
       case Binary(data) => |data| < TWO_32
       case Map(members) => |members| <= 0x10_0000 && MembersFit(members, depth + 1)
       case Array(elements) => |elements| <= 0x10_0000 && ElementsFit(elements, depth + 1)
  }

  predicate MembersFit(ms: seq<Member>, depth: nat)
    decreases ms, 0
  {
    ms == [] || (|ms[0].key| < TWO_32 && Fits(ms[0].value, depth) && MembersFit(ms[1..], depth))
  }

  predicate ElementsFit(es: seq<Llsd>, depth: nat)
    decreases es, 0
  {
    es == [] || (Fits(es[0], depth) && ElementsFit(es[1..], depth))
  }

  lemma ReadsWord(b: Bytes, pos: nat, n: nat, width: nat)
    requires At(b, pos, BigEndian(n, width)) && n < Pow256(width)
    ensures ReadWord(b, pos, width) == Got(n, pos + width)
  {
    WordReads(n, width);
  }

  lemma ReadsCounted(b: Bytes, pos: nat, text: Bytes)
    requires At(b, pos, Counted(text)) && |text| < TWO_32
    ensures ReadCounted(b, pos) == Got(text, pos + |Counted(text)|)
  {
    AtSplit(b, pos, BigEndian(|text|, 4), text);
    ReadsWord(b, pos, |text|, 4);
  }

  /** The tag, and what follows it. */
  lemma ReadsTag(b: Bytes, pos: nat, tag: Byte, rest: Bytes)
    requires At(b, pos, [tag] + rest)
    ensures pos < |b| && b[pos] == tag && At(b, pos + 1, rest)
  {
    AtSplit(b, pos, [tag], rest);
    assert b[pos..pos + 1] == [tag];
  }

  lemma ReadsText(b: Bytes, pos: nat, v: Llsd, depth: nat)
    requires v.Text? || v.Uri? || v.Binary?
    requires Fits(v, depth) && At(b, pos, Write(v))
    ensures ReadValue(b, pos, depth) == Got(v, pos + |Write(v)|)
  {
    hide ReadCounted, Counted, CanonicalUuid;
    var text := match v case Text(x) => x case Uri(x) => x case Binary(x) => x;
    ReadsTag(b, pos, Write(v)[0], Counted(text));
    ReadsCounted(b, pos + 1, text);
  }

  lemma ReadsScalar(b: Bytes, pos: nat, v: Llsd, depth: nat)
    requires !v.Map? && !v.Array? && Fits(v, depth) && At(b, pos, Write(v))
    ensures ReadValue(b, pos, depth) == Got(v, pos + |Write(v)|)
  {
    hide ReadCounted, Counted, CanonicalUuid, BigEndian, WordOf, Pow256, UuidBytes, UuidText;
    match v {
      case Undefined => ReadsTag(b, pos, '!', []);
      case Boolean(x) => ReadsTag(b, pos, if x then '1' else '0', []);
      case Integer(n) =>
        ReadsTag(b, pos, 'i', BigEndian(n % TWO_32, 4));
        ReadsWord(b, pos + 1, n % TWO_32, 4);
      case Real(bits) =>
        ReadsTag(b, pos, 'r', BigEndian(bits, 8));
        ReadsWord(b, pos + 1, bits, 8);
      case Uuid(text) =>
        ReadsTag(b, pos, 'u', UuidBytes(text));
        UuidRoundTrip(NIL, text);
      case Text(_) => ReadsText(b, pos, v, depth);
      case Uri(_) => ReadsText(b, pos, v, depth);
      case Binary(_) => ReadsText(b, pos, v, depth);
    }
  }

  /** A value written anywhere reads back, and the reader stops just after it. */
  lemma {:induction false} ReadsBack(b: Bytes, pos: nat, v: Llsd, depth: nat)
    requires Fits(v, depth) && At(b, pos, Write(v))
    ensures ReadValue(b, pos, depth) == Got(v, pos + |Write(v)|)
    decreases v, 1
  {
    hide CanonicalUuid, ReadScalar, ReadWord, BigEndian, WriteMembers, WriteElements, ReadMembers, ReadElements, UuidBytes;
    match v
    case Map(ms) =>
      ReadsFrame(b, pos, '{', |ms|, WriteMembers(ms), '}');
      MembersReadBack(b, pos + 5, ms, depth + 1);
    case Array(es) =>
      ReadsFrame(b, pos, '[', |es|, WriteElements(es), ']');
      ElementsReadBack(b, pos + 5, es, depth + 1);
    case _ =>
      ReadsScalar(b, pos, v, depth);
  }

  /** The count, the contents and the terminator of a map or an array. */
  lemma ReadsFrame(b: Bytes, pos: nat, open: Byte, count: nat, body: Bytes, close: Byte)
    requires At(b, pos, [open] + (BigEndian(count, 4) + (body + [close]))) && count < TWO_32
    ensures pos < |b| && b[pos] == open && ReadWord(b, pos + 1, 4) == Got(count, pos + 5)
    ensures At(b, pos + 5, body) && pos + 5 + |body| < |b| && b[pos + 5 + |body|] == close
  {
    ReadsTag(b, pos, open, BigEndian(count, 4) + (body + [close]));
    AtSplit(b, pos + 1, BigEndian(count, 4), body + [close]);
    ReadsWord(b, pos + 1, count, 4);
    AtSplit(b, pos + 5, body, [close]);
    assert b[pos + 5 + |body|..pos + 6 + |body|] == [close];
  }

  lemma {:induction false} MemberReadsBack(b: Bytes, pos: nat, m: Member, depth: nat)
    requires |m.key| < TWO_32 && Fits(m.value, depth) && At(b, pos, WriteMember(m))
    ensures ReadMember(b, pos, depth) == Got(m, pos + |WriteMember(m)|)
    decreases m, 2
  {
    hide Fits, ReadValue, Write, ReadCounted, Counted;
    ReadsTag(b, pos, 'k', Counted(m.key) + Write(m.value));
    AtSplit(b, pos + 1, Counted(m.key), Write(m.value));
    ReadsCounted(b, pos + 1, m.key);
    ReadsBack(b, pos + 1 + |Counted(m.key)|, m.value, depth);
  }

  lemma {:induction false} MembersReadBack(b: Bytes, pos: nat, ms: seq<Member>, depth: nat)
    requires MembersFit(ms, depth) && At(b, pos, WriteMembers(ms))
    ensures ReadMembers(b, pos, |ms|, depth) == Got(ms, pos + |WriteMembers(ms)|)
    decreases ms, 0
  {
    hide Fits, ReadMember, WriteMember;
    if ms != [] {
      AtSplit(b, pos, WriteMember(ms[0]), WriteMembers(ms[1..]));
      MemberReadsBack(b, pos, ms[0], depth);
      MembersReadBack(b, pos + |WriteMember(ms[0])|, ms[1..], depth);
      assert [ms[0]] + ms[1..] == ms;
    }
  }

  lemma {:induction false} ElementsReadBack(b: Bytes, pos: nat, es: seq<Llsd>, depth: nat)
    requires ElementsFit(es, depth) && At(b, pos, WriteElements(es))
    ensures ReadElements(b, pos, |es|, depth) == Got(es, pos + |WriteElements(es)|)
    decreases es, 0
  {
    hide Fits, ReadValue, Write;
    if es != [] {
      AtSplit(b, pos, Write(es[0]), WriteElements(es[1..]));
      ReadsBack(b, pos, es[0], depth);
      ElementsReadBack(b, pos + |Write(es[0])|, es[1..], depth);
      assert [es[0]] + es[1..] == es;
    }
  }

  // ----- everything read can be written -----

  lemma {:induction false} ReadFits(b: Bytes, pos: nat, depth: nat)
    requires ReadValue(b, pos, depth).Got?
    ensures Fits(ReadValue(b, pos, depth).value, depth)
    decreases |b| - pos, 1, 0
  {
    if b[pos] == '{' {
      hide CanonicalUuid, ReadScalar;
      var head := ReadWord(b, pos + 1, 4);
      MembersReadFit(b, head.next, head.value, depth + 1);
    } else if b[pos] == '[' {
      hide CanonicalUuid, ReadScalar;
      var head := ReadWord(b, pos + 1, 4);
      ElementsReadFit(b, head.next, head.value, depth + 1);
    } else {
      ScalarReadFits(b, pos, depth);
    }
  }

  lemma ScalarReadFits(b: Bytes, pos: nat, depth: nat)
    requires depth <= MAX_DEPTH && pos < |b| && ReadScalar(b, b[pos], pos + 1).Got?
    ensures Fits(ReadScalar(b, b[pos], pos + 1).value, depth)
  {
    hide CanonicalUuid, UuidText;
    if b[pos] == 'u' {
      UuidTextIsCanonical(ReadBytes(b, pos + 1, 16).value);
    }
  }

  lemma {:induction false} MembersReadFit(b: Bytes, pos: nat, count: nat, depth: nat)
    requires ReadMembers(b, pos, count, depth).Got?
    ensures MembersFit(ReadMembers(b, pos, count, depth).value, depth)
    decreases |b| - pos, 2, count
  {
    if count > 0 {
      hide Fits, ReadValue;
      var m := ReadMember(b, pos, depth);
      ReadFits(b, ReadKey(b, pos).next, depth);
      MembersReadFit(b, m.next, count - 1, depth);
      var ms := ReadMembers(b, pos, count, depth).value;
      assert ms[1..] == ReadMembers(b, m.next, count - 1, depth).value;
    }
  }

  lemma {:induction false} ElementsReadFit(b: Bytes, pos: nat, count: nat, depth: nat)
    requires ReadElements(b, pos, count, depth).Got?
    ensures ElementsFit(ReadElements(b, pos, count, depth).value, depth)
    decreases |b| - pos, 2, count
  {
    if count > 0 {
      hide Fits, ReadValue;
      var v := ReadValue(b, pos, depth);
      ReadFits(b, pos, depth);
      ElementsReadFit(b, v.next, count - 1, depth);
      var es := ReadElements(b, pos, count, depth).value;
      assert es[1..] == ReadElements(b, v.next, count - 1, depth).value;
    }
  }

  // ----- the theorems -----

  /** A document survives the wire, whatever follows it, exactly when it fits the format. */
  lemma BinaryInversion(v: Llsd, trailing: Bytes)
    ensures ParseBinary(Write(v) + trailing) == Some(v) <==> Fits(v, 0)
  {
    hide Write, ReadValue, Fits;
    var b := Write(v) + trailing;
    if Fits(v, 0) {
      assert b[0..|Write(v)|] == Write(v);
      ReadsBack(b, 0, v, 0);
    }
    if ReadValue(b, 0, 0).Got? {
      ReadFits(b, 0, 0);
    }
  }

  /** No document's bytes begin another's, so the encoding is self-delimiting and injective. */
  lemma PrefixFree(v: Llsd, w: Llsd)
    requires Fits(v, 0) && Fits(w, 0) && Write(v) <= Write(w)
    ensures v == w
  {
    hide Write, Fits;
    var trailing := Write(w)[|Write(v)|..];
    assert Write(w) + [] == Write(w) == Write(v) + trailing;
    BinaryInversion(v, trailing);
    BinaryInversion(w, []);
  }

  // ----- reading, then writing -----

  /** The reader meets a date in the value at `pos`. */
  predicate Dated(b: Bytes, pos: nat, depth: nat)
    requires ReadValue(b, pos, depth).Got?
    decreases |b| - pos, 1, 0
  {
    var head := ReadWord(b, pos + 1, 4);
    if b[pos] == '{' then MembersDated(b, head.next, head.value, depth + 1)
    else if b[pos] == '[' then ElementsDated(b, head.next, head.value, depth + 1)
    else b[pos] == 'd'
  }

  predicate MembersDated(b: Bytes, pos: nat, count: nat, depth: nat)
    requires ReadMembers(b, pos, count, depth).Got?
    decreases |b| - pos, 2, count
  {
    if count == 0 then false
    else
      assert ReadMember(b, pos, depth).Got?;
      Dated(b, ReadKey(b, pos).next, depth) || MembersDated(b, ReadMember(b, pos, depth).next, count - 1, depth)
  }

  predicate ElementsDated(b: Bytes, pos: nat, count: nat, depth: nat)
    requires ReadElements(b, pos, count, depth).Got?
    decreases |b| - pos, 2, count
  {
    count > 0 && (Dated(b, pos, depth) || ElementsDated(b, ReadValue(b, pos, depth).next, count - 1, depth))
  }

  /** The same bytes, but for dates written back as the reals they are read as. */
  ghost predicate Restated(from: Bytes, to: Bytes, dated: bool) {
    && |to| == |from| && (forall i :: 0 <= i < |from| ==> to[i] == from[i] || (from[i] == 'd' && to[i] == 'r'))
    && (to == from <==> !dated)
  }

  lemma RestatedJoin(a: Bytes, x: Bytes, d: bool, b: Bytes, y: Bytes, e: bool)
    requires Restated(a, x, d) && Restated(b, y, e)
    ensures Restated(a + b, x + y, d || e)
  {
    if x + y == a + b {
      assert x == (x + y)[..|a|] == a;
      assert y == (x + y)[|a|..] == b;
    }
  }

  lemma Unchanged(a: Bytes)
    ensures Restated(a, a, false)
  {
  }

  lemma CountedRewrites(b: Bytes, pos: nat)
    requires ReadCounted(b, pos).Got?
    ensures var r := ReadCounted(b, pos); b[pos..r.next] == Counted(r.value)
  {
    WordWrites(b[pos..pos + 4]);
    var r := ReadCounted(b, pos);
    assert b[pos..r.next] == b[pos..pos + 4] + b[pos + 4..r.next];
  }

  lemma ScalarRewrites(b: Bytes, pos: nat)
    requires pos < |b| && ReadScalar(b, b[pos], pos + 1).Got?
    ensures var r := ReadScalar(b, b[pos], pos + 1); Restated(b[pos..r.next], Write(r.value), b[pos] == 'd')
  {
    hide BigEndian, WordOf, Pow256, UuidBytes, UuidText, Counted, ReadCounted;
    var tag, r := b[pos], ReadScalar(b, b[pos], pos + 1);
    assert b[pos..r.next] == [tag] + b[pos + 1..r.next];
    match tag {
      case 'i' => WordWrites(b[pos + 1..pos + 5]);
      case 'r' => WordWrites(b[pos + 1..pos + 9]);
      case 'd' =>
        WordWrites(b[pos + 1..pos + 9]);
        assert Write(r.value)[0] == 'r' && b[pos..r.next][0] == 'd';
      case 'u' => UuidRoundTrip(b[pos + 1..pos + 17], []);
      case 's' => CountedRewrites(b, pos + 1);
      case 'l' => CountedRewrites(b, pos + 1);
      case 'b' => CountedRewrites(b, pos + 1);
      case _ =>
    }
  }

  /** Writing what was read restores the bytes it was read from, dates aside. */
  lemma {:induction false} Rewrites(b: Bytes, pos: nat, depth: nat)
    requires ReadValue(b, pos, depth).Got?
    ensures var r := ReadValue(b, pos, depth); Restated(b[pos..r.next], Write(r.value), Dated(b, pos, depth))
    decreases |b| - pos, 1, 0
  {
    hide ReadScalar, Restated, BigEndian, WordOf, Pow256, ReadMembers, ReadElements, MembersDated, ElementsDated, UuidBytes;
    if b[pos] == '{' {
      var head := ReadWord(b, pos + 1, 4);
      var body := ReadMembers(b, head.next, head.value, depth + 1);
      MembersRewrite(b, head.next, head.value, depth + 1);
      FrameRewrites(b, pos, body.next, WriteMembers(body.value), MembersDated(b, head.next, head.value, depth + 1));
    } else if b[pos] == '[' {
      var head := ReadWord(b, pos + 1, 4);
      var body := ReadElements(b, head.next, head.value, depth + 1);
      ElementsRewrite(b, head.next, head.value, depth + 1);
      FrameRewrites(b, pos, body.next, WriteElements(body.value), ElementsDated(b, head.next, head.value, depth + 1));
    } else {
      ScalarRewrites(b, pos);
    }
  }

  lemma FrameRewrites(b: Bytes, pos: nat, end: nat, body: Bytes, dated: bool)
    requires pos + 5 <= end < |b| && Restated(b[pos + 5..end], body, dated)
    ensures Restated(b[pos..end + 1], [b[pos]] + (BigEndian(WordOf(b[pos + 1..pos + 5]), 4) + (body + [b[end]])), dated)
  {
    hide Restated;
    var head := [b[pos]] + b[pos + 1..pos + 5];
    WordWrites(b[pos + 1..pos + 5]);
    assert b[pos..pos + 5] == head;
    Unchanged(head);
    Unchanged([b[end]]);
    RestatedJoin(head, head, false, b[pos + 5..end], body, dated);
    RestatedJoin(head + b[pos + 5..end], head + body, dated, [b[end]], [b[end]], false);
    assert b[pos..end] == head + b[pos + 5..end];
    assert b[pos..end + 1] == b[pos..end] + [b[end]];
    assert head + body + [b[end]] == [b[pos]] + (b[pos + 1..pos + 5] + (body + [b[end]]));
  }

  lemma {:induction false} MembersRewrite(b: Bytes, pos: nat, count: nat, depth: nat)
    requires pos <= |b| && ReadMembers(b, pos, count, depth).Got?
    ensures var r := ReadMembers(b, pos, count, depth);
      Restated(b[pos..r.next], WriteMembers(r.value), MembersDated(b, pos, count, depth))
    decreases |b| - pos, 2, count
  {
    hide ReadMember, WriteMember, Restated, ReadKey, Dated;
    if count > 0 {
      var r, m := ReadMembers(b, pos, count, depth), ReadMember(b, pos, depth);
      var dated := MemberRewrites(b, pos, depth);
      MembersRewrite(b, m.next, count - 1, depth);
      assert b[pos..r.next] == b[pos..m.next] + b[m.next..r.next];
      assert r.value[1..] == ReadMembers(b, m.next, count - 1, depth).value;
      RestatedJoin(b[pos..m.next], WriteMember(m.value), dated,
                   b[m.next..r.next], WriteMembers(r.value[1..]), MembersDated(b, m.next, count - 1, depth));
    } else {
      assert b[pos..pos] == [];
      Unchanged([]);
    }
  }

  lemma {:induction false} MemberRewrites(b: Bytes, pos: nat, depth: nat) returns (dated: bool)
    requires ReadMember(b, pos, depth).Got?
    ensures ReadKey(b, pos).Got? && ReadValue(b, ReadKey(b, pos).next, depth).Got?
    ensures dated == Dated(b, ReadKey(b, pos).next, depth)
    ensures var r := ReadMember(b, pos, depth); Restated(b[pos..r.next], WriteMember(r.value), dated)
    decreases |b| - pos, 1, 1
  {
    hide ReadValue, Write, ReadCounted, Counted, Restated, Dated;
    var key, r := ReadKey(b, pos), ReadMember(b, pos, depth);
    Rewrites(b, key.next, depth);
    CountedRewrites(b, pos + 1);
    dated := Dated(b, key.next, depth);
    var head := ['k'] + b[pos + 1..key.next];
    Unchanged(head);
    RestatedJoin(head, head, false, b[key.next..r.next], Write(r.value.value), dated);
    assert b[pos..r.next] == head + b[key.next..r.next];
    assert WriteMember(r.value) == head + Write(r.value.value);
  }

  lemma {:induction false} ElementsRewrite(b: Bytes, pos: nat, count: nat, depth: nat)
    requires pos <= |b| && ReadElements(b, pos, count, depth).Got?
    ensures var r := ReadElements(b, pos, count, depth);
      Restated(b[pos..r.next], WriteElements(r.value), ElementsDated(b, pos, count, depth))
    decreases |b| - pos, 2, count
  {
    hide ReadValue, Write, Restated, Dated;
    if count > 0 {
      var r, v := ReadElements(b, pos, count, depth), ReadValue(b, pos, depth);
      Rewrites(b, pos, depth);
      ElementsRewrite(b, v.next, count - 1, depth);
      assert b[pos..r.next] == b[pos..v.next] + b[v.next..r.next];
      assert r.value[1..] == ReadElements(b, v.next, count - 1, depth).value;
      RestatedJoin(b[pos..v.next], Write(v.value), Dated(b, pos, depth),
                   b[v.next..r.next], WriteElements(r.value[1..]), ElementsDated(b, v.next, count - 1, depth));
    } else {
      assert b[pos..pos] == [];
      Unchanged([]);
    }
  }

  /** Parsing then serializing reproduces a document byte for byte exactly when no date is in
      it; a date comes back as a real. */
  lemma ParseThenWrite(b: Bytes)
    requires ReadValue(b, 0, 0).Got?
    ensures var r := ReadValue(b, 0, 0);
      ParseBinary(b) == Some(r.value) && (Write(r.value) == b[..r.next] <==> !Dated(b, 0, 0))
  {
    hide ReadValue, Write, Dated;
    Rewrites(b, 0, 0);
    var n := ReadValue(b, 0, 0).next;
    assert b[..n] == b[0..n];
  }

  lemma DateBecomesReal(bits: uint64)
    ensures ParseBinary(['d'] + BigEndian(bits, 8)) == Some(Real(bits))
    ensures Write(Real(bits)) == ['r'] + BigEndian(bits, 8) != ['d'] + BigEndian(bits, 8)
  {
    hide BigEndian, WordOf, Pow256;
    var b := ['d'] + BigEndian(bits, 8);
    assert b[0..] == b;
    ReadsTag(b, 0, 'd', BigEndian(bits, 8));
    ReadsWord(b, 1, bits, 8);
    assert (['r'] + BigEndian(bits, 8))[0] == 'r';
  }
}
