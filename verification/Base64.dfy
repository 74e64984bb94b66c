/** Base64, encoded in two ways and decoded in one (section 4 of RFC 4648). */
module Base64 {
  import opened Prelude
  import opened Arithmetic

  /** The character for six bits. */
  function Letter(n: nat): Byte
    requires n < 64
  {
    if n < 26 then ('A' as int + n) as char
    else if n < 52 then ('a' as int + (n - 26)) as char
    else if n < 62 then ('0' as int + (n - 52)) as char
    else if n == 62 then '+'
    else '/'
  }

  /** Three bytes as one number of twenty-four bits. */
  function Group(a: Byte, b: Byte, c: Byte): (v: nat)
    ensures v < 0x100_0000
  {
    a as int * 0x1_0000 + b as int * 0x100 + c as int
  }

  function Sextet(v: nat, i: nat): (n: nat)
    requires i < 4
    ensures n < 64
  {
    (if i == 0 then v / 0x4_0000 else if i == 1 then v / 0x1000 else if i == 2 then v / 0x40 else v) % 64
  }

  /** Four characters for three bytes; a last group of one or two bytes is padded. */
  function Encode(b: Bytes): Bytes
    decreases |b|
  {
    if b == [] then []
    else
      var v := Group(b[0], if |b| > 1 then b[1] else '\0', if |b| > 2 then b[2] else '\0');
      [Letter(Sextet(v, 0)), Letter(Sextet(v, 1)),
       if |b| > 1 then Letter(Sextet(v, 2)) else '=', if |b| > 2 then Letter(Sextet(v, 3)) else '=']
      + Encode(if |b| > 3 then b[3..] else [])
  }

  // ----- the two encoders -----

  lemma SextetsByByte(a: Byte, b: Byte, c: Byte)
    ensures var v := Group(a, b, c);
      && Sextet(v, 0) == a as int / 4 && Sextet(v, 1) == a as int % 4 * 16 + b as int / 16
      && Sextet(v, 2) == b as int % 16 * 4 + c as int / 64 && Sextet(v, 3) == c as int % 64
  {
    var x, y, z := a as int, b as int, c as int;
    var v := x * 0x1_0000 + y * 0x100 + z;
    DivMod(v, 0x4_0000, x / 4, x % 4 * 0x1_0000 + y * 0x100 + z);
    DivMod(v, 0x1000, x * 16 + y / 16, y % 16 * 0x100 + z);
    DivMod(v, 0x40, x * 0x400 + y * 4 + z / 64, z % 64);
    DivMod(x * 16 + y / 16, 64, x / 4, x % 4 * 16 + y / 16);
    DivMod(x * 0x400 + y * 4 + z / 64, 64, x * 16 + y / 16, y % 16 * 4 + z / 64);
  }

  /** By whole groups of three, then one of two tails. */
  method EncodeByGroups(bytes: Bytes) returns (out: Bytes)
    ensures out == Encode(bytes)
  {
    hide Encode, Letter, Sextet;
    out := [];
    var index := 0;
    assert bytes[0..] == bytes;
    while index + 2 < |bytes|
      invariant index <= |bytes| && out + Encode(bytes[index..]) == Encode(bytes)
    {
      var a, b, c := bytes[index] as int, bytes[index + 1] as int, bytes[index + 2] as int;
      ghost var before := out;
      SextetsByByte(bytes[index], bytes[index + 1], bytes[index + 2]);
      FullGroup(bytes, index);
      out := out + [Letter(a / 4)] + [Letter(a % 4 * 16 + b / 16)] + [Letter(b % 16 * 4 + c / 64)] + [Letter(c % 64)];
      assert out == before + [Letter(a / 4), Letter(a % 4 * 16 + b / 16), Letter(b % 16 * 4 + c / 64), Letter(c % 64)];
      index := index + 3;
    }
    if index + 1 == |bytes| {
      var a := bytes[index] as int;
      SextetsByByte(bytes[index], '\0', '\0');
      OneByte(bytes, index);
      out := out + [Letter(a / 4)] + [Letter(a % 4 * 16)] + ['=', '='];
    } else if index + 2 == |bytes| {
      var a, b := bytes[index] as int, bytes[index + 1] as int;
      SextetsByByte(bytes[index], bytes[index + 1], '\0');
      TwoBytes(bytes, index);
      out := out + [Letter(a / 4)] + [Letter(a % 4 * 16 + b / 16)] + [Letter(b % 16 * 4)] + ['='];
    } else {
      NoBytes();
      assert bytes[index..] == [] && out + [] == out;
    }
  }

  lemma NoBytes()
    ensures Encode([]) == []
  {
  }

  lemma FullGroup(bytes: Bytes, index: nat)
    requires index + 2 < |bytes|
    ensures var v := Group(bytes[index], bytes[index + 1], bytes[index + 2]);
      Encode(bytes[index..]) == [Letter(Sextet(v, 0)), Letter(Sextet(v, 1)), Letter(Sextet(v, 2)), Letter(Sextet(v, 3))]
                                + Encode(bytes[index + 3..])
  {
    var b := bytes[index..];
    assert |b| > 3 ==> b[3..] == bytes[index + 3..];
    assert |b| == 3 ==> bytes[index + 3..] == [];
  }

  lemma OneByte(bytes: Bytes, index: nat)
    requires index + 1 == |bytes|
    ensures var v := Group(bytes[index], '\0', '\0');
      Encode(bytes[index..]) == [Letter(Sextet(v, 0)), Letter(Sextet(v, 1)), '=', '=']
  {
    assert bytes[index..] == [bytes[index]];
  }

  lemma TwoBytes(bytes: Bytes, index: nat)
    requires index + 2 == |bytes|
    ensures var v := Group(bytes[index], bytes[index + 1], '\0');
      Encode(bytes[index..]) == [Letter(Sextet(v, 0)), Letter(Sextet(v, 1)), Letter(Sextet(v, 2)), '=']
  {
    assert bytes[index..] == [bytes[index], bytes[index + 1]];
  }

  lemma AnyGroup(bytes: Bytes, offset: nat)
    requires offset < |bytes|
    ensures var v := Group(bytes[offset], if offset + 1 < |bytes| then bytes[offset + 1] else '\0',
                           if offset + 2 < |bytes| then bytes[offset + 2] else '\0');
      Encode(bytes[offset..]) == [Letter(Sextet(v, 0)), Letter(Sextet(v, 1)),
                                  if offset + 1 < |bytes| then Letter(Sextet(v, 2)) else '=',
                                  if offset + 2 < |bytes| then Letter(Sextet(v, 3)) else '=']
                                 + Encode(if offset + 3 < |bytes| then bytes[offset + 3..] else [])
  {
    hide Letter, Sextet;
    var b := bytes[offset..];
    assert |b| > 3 ==> b[3..] == bytes[offset + 3..];
  }

  lemma FormulaSextets(v: nat)
    requires v < 0x100_0000
    ensures Sextet(v, 0) == v / 0x4_0000 % 64 && Sextet(v, 1) == v / 0x1000 % 64
    ensures Sextet(v, 2) == v / 0x40 % 64 && Sextet(v, 3) == v % 64
  {
  }

  /** By one formula for every group, whatever remains. */
  method EncodeByFormula(bytes: Bytes) returns (result: Bytes)
    ensures result == Encode(bytes)
  {
    hide Encode, Letter, Sextet;
    result := [];
    var offset := 0;
    assert bytes[0..] == bytes;
    NoBytes();
    while offset < |bytes|
      invariant result + Encode(if offset < |bytes| then bytes[offset..] else []) == Encode(bytes)
      decreases |bytes| - offset
    {
      var remaining := |bytes| - offset;
      ghost var before := result;
      var value := bytes[offset] as int * 0x1_0000 + (if remaining > 1 then bytes[offset + 1] as int * 0x100 else 0)
                 + (if remaining > 2 then bytes[offset + 2] as int else 0);
      AnyGroup(bytes, offset);
      FormulaSextets(value);
      result := result + [Letter(value / 0x4_0000 % 64)];
      result := result + [Letter(value / 0x1000 % 64)];
      result := result + [if remaining > 1 then Letter(value / 0x40 % 64) else '='];
      result := result + [if remaining > 2 then Letter(value % 64) else '='];
      assert result == before + [Letter(value / 0x4_0000 % 64), Letter(value / 0x1000 % 64),
                                 if remaining > 1 then Letter(value / 0x40 % 64) else '=',
                                 if remaining > 2 then Letter(value % 64) else '='];
      offset := offset + 3;
    }
    assert result + [] == result;
  }

  // ----- the decoder -----

  predicate Space(c: Byte) {
    c == ' ' || 9 <= c as int <= 13
  }

  function Value(c: Byte): (r: Option<nat>)
    ensures r.Some? ==> r.value < 64
  {
    if 'A' <= c <= 'Z' then Some(c as int - 'A' as int)
    else if 'a' <= c <= 'z' then Some(c as int - 'a' as int + 26)
    else if '0' <= c <= '9' then Some(c as int - '0' as int + 52)
    else if c == '+' then Some(62)
    else if c == '/' then Some(63)
    else None
  }

  function Shifted(buffer: nat, bits: nat): nat {
    if bits == 0 then buffer else if bits == 2 then buffer / 4 else if bits == 4 then buffer / 16 else buffer / 64
  }

  /** The bits of the buffer not yet given out are its lowest; those above are stale. */
  function DecodeFrom(text: Bytes, buffer: uint32, bits: nat): Option<Bytes>
    requires bits in {0, 2, 4, 6}
  {
    if text == [] then Some([])
    else if Space(text[0]) then DecodeFrom(text[1..], buffer, bits)
    else if text[0] == '=' then Some([])
    else
      var v := Value(text[0]);
      if v == None then None
      else
        var next := (buffer * 64 + v.value) % TWO_32;
        if bits + 6 >= 8 then
          var rest := DecodeFrom(text[1..], next, bits - 2);
          if rest == None then None else Some([ByteOf(Shifted(next, bits - 2))] + rest.value)
        else DecodeFrom(text[1..], next, bits + 6)
  }

  function Decode(text: Bytes): Option<Bytes> {
    DecodeFrom(text, 0, 0)
  }

  method DecodeText(text: Bytes) returns (r: Option<Bytes>)
    ensures r == Decode(text)
  {
    var out: Bytes := [];
    var buffer: uint32, bits := 0, 0;
    var i := 0;
    Behind0(Decode(text));
    assert text[0..] == text;
    while i < |text|
      invariant i <= |text| && bits in {0, 2, 4, 6}
      invariant Decode(text) == Behind(out, DecodeFrom(text[i..], buffer, bits))
    {
      var c := text[i];
      assert text[i..][1..] == text[i + 1..];
      if !Space(c) {
        if c == '=' {
          assert out + [] == out;
          return Some(out);
        }
        var value := Value(c);
        if value == None {
          return None;
        }
        buffer := (buffer * 64 + value.value) % TWO_32;
        bits := bits + 6;
        if bits >= 8 {
          bits := bits - 8;
          Behind1(out, ByteOf(Shifted(buffer, bits)), DecodeFrom(text[i + 1..], buffer, bits));
          out := out + [ByteOf(Shifted(buffer, bits))];
        }
      }
      i := i + 1;
    }
    assert out + [] == out;
    return Some(out);
  }

  function Behind(front: Bytes, r: Option<Bytes>): Option<Bytes> {
    if r == None then None else Some(front + r.value)
  }

  lemma Behind0(r: Option<Bytes>)
    ensures Behind([], r) == r
  {
    if r.Some? {
      assert [] + r.value == r.value;
    }
  }

  lemma Behind1(front: Bytes, x: Byte, r: Option<Bytes>)
    ensures Behind(front, Behind([x], r)) == Behind(front + [x], r)
  {
    if r.Some? {
      assert front + ([x] + r.value) == (front + [x]) + r.value;
    }
  }

  // ----- the decoder undoes the encoders -----

  lemma LetterReads(n: nat)
    requires n < 64
    ensures Value(Letter(n)) == Some(n) && !Space(Letter(n)) && Letter(n) != '='
  {
  }

  /** One more character of a group, the stale bits above being any. */
  lemma LetterDecodes(rest: Bytes, n: nat, buffer: uint32, bits: nat)
    requires n < 64 && bits in {0, 2, 4, 6}
    ensures var next := Pushed(buffer, n);
      DecodeFrom([Letter(n)] + rest, buffer, bits) ==
        if bits == 0 then DecodeFrom(rest, next, 6) else Behind([ByteOf(Shifted(next, bits - 2))], DecodeFrom(rest, next, bits - 2))
  {
    LetterReads(n);
    assert ([Letter(n)] + rest)[1..] == rest;
  }

  function Pushed(buffer: uint32, n: nat): uint32 {
    (buffer * 64 + n) % TWO_32
  }

  /** The low twelve bits after two sextets are those sextets. */
  lemma TwoSextets(buffer: uint32, s: nat, t: nat)
    requires s < 64 && t < 64
    ensures Pushed(Pushed(buffer, s), t) % 4096 == s * 64 + t
  {
    var b := Pushed(buffer, s);
    var k := (buffer * 64 + s) / TWO_32;
    DivMod(b, 64, buffer - 0x400_0000 * k, s);
    var x := Pushed(b, t);
    var m := (b * 64 + t) / TWO_32;
    DivMod(x, 4096, b / 64 - 0x10_0000 * m, s * 64 + t);
  }

  lemma LowByte(b: uint32)
    ensures ByteOf(Shifted(b, 4)) as int == b % 4096 / 16
    ensures ByteOf(Shifted(b, 2)) as int == b % 4096 % 1024 / 4
    ensures ByteOf(Shifted(b, 0)) as int == b % 4096 % 256
  {
    var low, high := b % 4096, b / 4096;
    DivMod(b, 16, high * 256 + low / 16, low % 16);
    DivMod(b / 16, 256, high, low / 16);
    var h, m := low / 1024, low % 1024;
    DivMod(b, 4, high * 1024 + h * 256 + m / 4, m % 4);
    DivMod(b / 4, 256, high * 4 + h, m / 4);
    DivMod(b, 256, high * 16 + low / 256, low % 256);
  }

  /** The byte that two sextets complete is made of their bits alone. */
  lemma BytesOfSextets(buffer: uint32, v: nat)
    requires v < 0x100_0000
    ensures var b2 := Pushed(Pushed(buffer, Sextet(v, 0)), Sextet(v, 1));
      var b3 := Pushed(b2, Sextet(v, 2)); var b4 := Pushed(b3, Sextet(v, 3));
      && ByteOf(Shifted(b2, 4)) as int == v / 0x1_0000
      && ByteOf(Shifted(b3, 2)) as int == v / 0x100 % 0x100
      && ByteOf(Shifted(b4, 0)) as int == v % 0x100
  {
    hide Pushed, Shifted, Sextet;
    var s0, s1, s2, s3 := Sextet(v, 0), Sextet(v, 1), Sextet(v, 2), Sextet(v, 3);
    var b1 := Pushed(buffer, s0);
    var b2 := Pushed(b1, s1);
    var b3 := Pushed(b2, s2);
    TwoSextets(buffer, s0, s1);
    TwoSextets(b1, s1, s2);
    TwoSextets(b2, s2, s3);
    LowByte(b2);
    LowByte(b3);
    LowByte(Pushed(b3, s3));
    SextetsJoin(v);
    OfSextets(s0, s1, s2, s3);
  }

  lemma OfSextets(s0: nat, s1: nat, s2: nat, s3: nat)
    requires s0 < 64 && s1 < 64 && s2 < 64 && s3 < 64
    ensures var v := s0 * 0x4_0000 + s1 * 0x1000 + s2 * 0x40 + s3;
      && (s0 * 64 + s1) / 16 == v / 0x1_0000
      && (s1 * 64 + s2) % 1024 / 4 == v / 0x100 % 0x100
      && (s2 * 64 + s3) % 256 == v % 0x100
  {
    var v := s0 * 0x4_0000 + s1 * 0x1000 + s2 * 0x40 + s3;
    var a, c, p, q := s1 / 16, s1 % 16, s2 / 4, s2 % 4;
    DivMod(s0 * 64 + s1, 16, s0 * 4 + a, c);
    DivMod(v, 0x1_0000, s0 * 4 + a, c * 4096 + s2 * 64 + s3);
    DivMod(v, 0x100, s0 * 1024 + s1 * 16 + p, q * 64 + s3);
    DivMod(v / 0x100, 0x100, s0 * 4 + a, c * 16 + p);
    DivMod(s1 * 64 + s2, 1024, a, c * 64 + s2);
    DivMod(c * 64 + s2, 4, c * 16 + p, q);
    DivMod(s2 * 64 + s3, 256, p, q * 64 + s3);
  }

  lemma SextetsJoin(v: nat)
    requires v < 0x100_0000
    ensures v == Sextet(v, 0) * 0x4_0000 + Sextet(v, 1) * 0x1000 + Sextet(v, 2) * 0x40 + Sextet(v, 3)
  {
    DivMod(v, 0x1000, v / 0x40 / 64, v / 0x40 % 64 * 64 + v % 64);
    DivMod(v, 0x4_0000, v / 0x1000 / 64, v / 0x1000 % 64 * 4096 + v % 4096);
  }

  /** White space between the characters is nothing. */
  function WithoutSpaces(text: Bytes): Bytes {
    if text == [] then [] else (if Space(text[0]) then [] else [text[0]]) + WithoutSpaces(text[1..])
  }

  lemma {:induction false} SpacesAreNothing(text: Bytes, buffer: uint32, bits: nat)
    requires bits in {0, 2, 4, 6}
    ensures DecodeFrom(text, buffer, bits) == DecodeFrom(WithoutSpaces(text), buffer, bits)
    decreases |text|
  {
    if text != [] {
      var rest := WithoutSpaces(text[1..]);
      if Space(text[0]) {
        assert WithoutSpaces(text) == rest;
        SpacesAreNothing(text[1..], buffer, bits);
      } else {
        assert WithoutSpaces(text)[0] == text[0] && WithoutSpaces(text)[1..] == rest;
        if text[0] != '=' && Value(text[0]).Some? {
          var next := (buffer * 64 + Value(text[0]).value) % TWO_32;
          SpacesAreNothing(text[1..], next, if bits + 6 >= 8 then bits - 2 else bits + 6);
        }
      }
    }
  }

  /** A group of three bytes. */
  lemma GroupDecodes(a: Byte, b: Byte, c: Byte, tail: Bytes, buffer: uint32) returns (next: uint32)
    ensures var v := Group(a, b, c);
      DecodeFrom([Letter(Sextet(v, 0))] + ([Letter(Sextet(v, 1))] + ([Letter(Sextet(v, 2))] + ([Letter(Sextet(v, 3))] + tail))), buffer, 0)
      == Behind([a], Behind([b], Behind([c], DecodeFrom(tail, next, 0))))
  {
    hide Letter, Sextet, DecodeFrom, Pushed, Shifted;
    var v := Group(a, b, c);
    var s0, s1, s2, s3 := Sextet(v, 0), Sextet(v, 1), Sextet(v, 2), Sextet(v, 3);
    var b1 := Pushed(buffer, s0);
    var b2 := Pushed(b1, s1);
    var b3 := Pushed(b2, s2);
    next := Pushed(b3, s3);
    BytesOfSextets(buffer, v);
    GroupBytes(a, b, c);
    LetterDecodes([Letter(s1)] + ([Letter(s2)] + ([Letter(s3)] + tail)), s0, buffer, 0);
    LetterDecodes([Letter(s2)] + ([Letter(s3)] + tail), s1, b1, 6);
    LetterDecodes([Letter(s3)] + tail, s2, b2, 4);
    LetterDecodes(tail, s3, b3, 2);
  }

  /** A last group of one or two bytes, with its padding. */
  lemma TailDecodes(b: Bytes, buffer: uint32)
    requires |b| == 1 || |b| == 2
    ensures DecodeFrom(Encode(b), buffer, 0) == Some(b)
  {
    hide Letter, Sextet, DecodeFrom, Pushed, Shifted;
    var x: Byte := if |b| > 1 then b[1] else '\0';
    var v := Group(b[0], x, '\0');
    var s0, s1, s2 := Sextet(v, 0), Sextet(v, 1), Sextet(v, 2);
    var b1 := Pushed(buffer, s0);
    var b2 := Pushed(b1, s1);
    BytesOfSextets(buffer, v);
    GroupBytes(b[0], x, '\0');
    NoBytes();
    if |b| == 1 {
      assert Encode(b) == [Letter(s0)] + ([Letter(s1)] + (['='] + ['=']));
      LetterDecodes([Letter(s1)] + (['='] + ['=']), s0, buffer, 0);
      LetterDecodes(['='] + ['='], s1, b1, 6);
      PadStops(['='], b2, 4);
      assert b == [b[0]] + [];
    } else {
      assert Encode(b) == [Letter(s0)] + ([Letter(s1)] + ([Letter(s2)] + (['='] + [])));
      LetterDecodes([Letter(s1)] + ([Letter(s2)] + (['='] + [])), s0, buffer, 0);
      LetterDecodes([Letter(s2)] + (['='] + []), s1, b1, 6);
      LetterDecodes(['='] + [], s2, b2, 4);
      PadStops([], Pushed(b2, s2), 2);
      assert b == [b[0]] + ([b[1]] + []);
    }
  }

  lemma {:induction false} EncodedDecodes(b: Bytes, buffer: uint32)
    ensures DecodeFrom(Encode(b), buffer, 0) == Some(b)
    decreases |b|
  {
    hide Letter, Sextet, DecodeFrom, Encode;
    if b == [] {
      NoBytes();
      NothingDecodes(buffer);
    } else if |b| < 3 {
      TailDecodes(b, buffer);
    } else {
      var tail := Encode(b[3..]);
      var next := GroupDecodes(b[0], b[1], b[2], tail, buffer);
      EncodedDecodes(b[3..], next);
      FullGroup(b, 0);
      assert b[0..] == b;
      var v := Group(b[0], b[1], b[2]);
      assert Encode(b) == [Letter(Sextet(v, 0))] + ([Letter(Sextet(v, 1))] + ([Letter(Sextet(v, 2))] + ([Letter(Sextet(v, 3))] + tail)));
      assert b == [b[0]] + ([b[1]] + ([b[2]] + b[3..]));
    }
  }

  lemma NothingDecodes(buffer: uint32)
    ensures DecodeFrom([], buffer, 0) == Some([])
  {
  }

  lemma PadStops(rest: Bytes, buffer: uint32, bits: nat)
    requires bits in {0, 2, 4, 6}
    ensures DecodeFrom(['='] + rest, buffer, bits) == Some([])
  {
  }

  lemma GroupBytes(a: Byte, b: Byte, c: Byte)
    ensures var v := Group(a, b, c); v / 0x1_0000 == a as int && v / 0x100 % 0x100 == b as int && v % 0x100 == c as int
  {
  }

  /** Both encoders compute one function, and the decoder undoes it for every byte string, in both
      paddings and with white space strewn anywhere in the text. */
  lemma DecodeInvertsEncode(b: Bytes, text: Bytes)
    requires WithoutSpaces(text) == Encode(b)
    ensures Decode(text) == Some(b)
  {
    SpacesAreNothing(text, 0, 0);
    EncodedDecodes(b, 0);
  }
}
