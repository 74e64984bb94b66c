/** The reader and the writer as the source has them: a cursor that advances and a buffer that
    grows, each proved against the function it computes. */
module LlsdObject {
  import opened Prelude
  import opened Llsd
  import I = LlsdInverse

  /** The reader's answer, and where its cursor stands after a success. */
  ghost predicate Answers<T(!new)>(r: Read<T>, out: Option<T>, position: nat) {
    match r
    case Got(v, next) => out == Some(v) && position == next
    case Bad => out == None
  }

  lemma FourBytes(b: Bytes, pos: nat)
    requires pos + 4 <= |b|
    ensures WordOf(b[pos..pos + 4]) == 0x100_0000 * (b[pos] as int) + 0x1_0000 * (b[pos + 1] as int)
                                       + 0x100 * (b[pos + 2] as int) + b[pos + 3] as int
  {
    var w := b[pos..pos + 4];
    assert w[..3][..2][..1][..0] == [] && w[..3][..2][..1] == w[..1] && w[..3][..2] == w[..2];
    assert WordOf(w[..1]) == w[0] as int;
    assert WordOf(w[..2]) == 256 * WordOf(w[..1]) + w[1] as int;
    assert WordOf(w[..3]) == 256 * WordOf(w[..2]) + w[2] as int;
  }

  lemma EightBytes(b: Bytes, pos: nat)
    requires pos + 8 <= |b|
    ensures WordOf(b[pos..pos + 8]) == WordOf(b[pos..pos + 4]) * TWO_32 + WordOf(b[pos + 4..pos + 8])
  {
    var w := b[pos..pos + 8];
    assert w[..7][..6] == w[..6] && w[..6][..5] == w[..5] && w[..5][..4] == w[..4] == b[pos..pos + 4];
    assert WordOf(w[..5]) == 256 * WordOf(w[..4]) + w[4] as int;
    assert WordOf(w[..6]) == 256 * WordOf(w[..5]) + w[5] as int;
    assert WordOf(w[..7]) == 256 * WordOf(w[..6]) + w[6] as int;
    FourBytes(b, pos + 4);
  }

  // ----- identifiers -----

  /** Where the `i`-th hexadecimal digit of an identifier stands. */
  function DigitPlace(i: nat): nat {
    i + (if i >= 8 then 1 else 0) + (if i >= 12 then 1 else 0) + (if i >= 16 then 1 else 0) + (if i >= 20 then 1 else 0)
  }

  lemma DashedAt(h: Bytes)
    requires |h| == 32
    ensures |Dashed(h)| == 36 && forall i :: 0 <= i < 32 ==> Dashed(h)[DigitPlace(i)] == h[i]
    ensures forall i: nat :: i < 36 && I.DashAt(i) ==> Dashed(h)[i] == '-'
  {
  }

  lemma {:induction false} HexAt(b: Bytes, i: nat)
    requires i < |b|
    ensures Hex(b)[2 * i] == HexDigit(b[i] as int / 16) && Hex(b)[2 * i + 1] == HexDigit(b[i] as int % 16)
    decreases |b|
  {
    if i > 0 {
      HexAt(b[1..], i - 1);
      assert Hex(b)[2 * i] == Hex(b[1..])[2 * (i - 1)] && Hex(b)[2 * i + 1] == Hex(b[1..])[2 * (i - 1) + 1];
    }
  }

  method FormatUuid(bytes: Bytes) returns (text: Bytes)
    requires |bytes| == 16
    ensures text == UuidText(bytes)
  {
    hide Dashed, Hex;
    ghost var whole := UuidText(bytes);
    DashedAt(Hex(bytes));
    text := [];
    var index := 0;
    while index < 16
      invariant index <= 16 && |text| == DigitPlace(2 * index) - (if index in {4, 6, 8, 10} then 1 else 0)
      invariant text == whole[..|text|]
    {
      HexAt(bytes, index);
      assert I.DashAt(8) && I.DashAt(13) && I.DashAt(18) && I.DashAt(23);
      if index == 4 || index == 6 || index == 8 || index == 10 {
        text := text + ['-'];
      }
      assert whole[DigitPlace(2 * index)] == HexDigit(bytes[index] as int / 16);
      assert whole[DigitPlace(2 * index + 1)] == HexDigit(bytes[index] as int % 16);
      text := text + [HexDigit(bytes[index] as int / 16)];
      text := text + [HexDigit(bytes[index] as int % 16)];
      index := index + 1;
    }
  }

  /** Dashes are skipped wherever they stand; a wrong digit or a wrong count of them leaves the
      nil identifier. */
  method ParseUuid(text: Bytes) returns (out: Bytes)
    ensures out == UuidBytes(text)
  {
    hide Nibbles, Pack, Nibble, UuidBytes, Written;
    var bytes := new Byte[16](_ => '\0');
    var written: nat, high: int, malformed := 0, -1, false;
    var i := 0;
    ghost var ns: seq<nat> := [];
    NoNibbles();
    while i < |text| && !malformed
      invariant i <= |text| && written <= 16 && -1 <= high < 16
      invariant !malformed ==> Nibbles(text[..i]) == Some(ns) && Written(bytes[..], written, high, ns)
      invariant malformed ==> UuidBytes(text) == NIL
    {
      var c := text[i];
      OneMore(text, i);
      if c != '-' {
        var digit := Nibble(c);
        if digit == None {
          malformed := true;
        } else if high < 0 {
          HighDigit(bytes[..], written, ns, digit.value);
          high := digit.value;
          ns := ns + [high];
        } else if written >= 16 {
          AllWritten(bytes[..], written, high, ns);
          malformed := true;
        } else {
          LowDigit(bytes[..], written, high, ns, digit.value);
          ghost var before := bytes[..];
          bytes[written] := (high * 16 + digit.value) as Byte;
          assert bytes[..] == before[written := (high * 16 + digit.value) as Byte];
          written := written + 1;
          high := -1;
          ns := ns + [digit.value];
        }
      }
      i := i + 1;
    }
    if !malformed {
      assert text[..i] == text;
      UuidDone(text, bytes[..], written, high, ns);
      assert bytes[..16] == bytes[..];
    }
    return if malformed || written != 16 || high >= 0 then NIL else bytes[..];
  }

  /** The loop's state stands for the digits seen so far. */
  ghost predicate Written(bytes: Bytes, written: nat, high: int, ns: seq<nat>) {
    && |bytes| == 16 && written <= 16 && (forall i :: 0 <= i < |ns| ==> ns[i] < 16)
    && |ns| == 2 * written + (if high < 0 then 0 else 1)
    && (high >= 0 ==> ns[|ns| - 1] == high)
    && bytes[..written] == Pack(ns[..2 * written])
  }

  lemma HighDigit(bytes: Bytes, written: nat, ns: seq<nat>, digit: nat)
    requires Written(bytes, written, -1, ns) && digit < 16
    ensures Written(bytes, written, digit, ns + [digit])
  {
    hide Pack;
    assert (ns + [digit])[..2 * written] == ns[..2 * written];
  }

  lemma LowDigit(bytes: Bytes, written: nat, high: int, ns: seq<nat>, digit: nat)
    requires Written(bytes, written, high, ns) && written < 16 && 0 <= high < 16 && digit < 16
    ensures Written(bytes[written := (high * 16 + digit) as Byte], written + 1, -1, ns + [digit])
  {
    hide Pack;
    PackMore(ns, digit);
    var after := bytes[written := (high * 16 + digit) as Byte];
    assert after[..written + 1] == bytes[..written] + [after[written]];
    assert ns[..|ns| - 1] == ns[..2 * written];
  }

  lemma AllWritten(bytes: Bytes, written: nat, high: int, ns: seq<nat>)
    requires Written(bytes, written, high, ns) && written >= 16 && high >= 0
    ensures |ns| >= 33
  {
  }

  lemma UuidDone(text: Bytes, bytes: Bytes, written: nat, high: int, ns: seq<nat>)
    requires Nibbles(text) == Some(ns) && Written(bytes, written, high, ns)
    ensures UuidBytes(text) == if written == 16 && high < 0 then bytes else NIL
  {
    hide Pack, Nibbles;
    if written == 16 && high < 0 {
      assert ns[..32] == ns && bytes[..16] == bytes;
    }
  }

  lemma NoNibbles()
    ensures Nibbles([]) == Some([]) && Pack([]) == []
    ensures forall bytes: Bytes :: |bytes| == 16 ==> Written(bytes, 0, -1, [])
  {
  }

  lemma {:induction false} PackConcat(a: seq<nat>, b: seq<nat>)
    requires |a| % 2 == 0 && |b| % 2 == 0
    requires (forall i :: 0 <= i < |a| ==> a[i] < 16) && forall i :: 0 <= i < |b| ==> b[i] < 16
    ensures Pack(a + b) == Pack(a) + Pack(b)
    decreases |a|
  {
    if a == [] {
      assert a + b == b;
    } else {
      assert (a + b)[2..] == a[2..] + b;
      PackConcat(a[2..], b);
    }
  }

  lemma PackMore(ns: seq<nat>, digit: nat)
    requires |ns| % 2 == 1 && digit < 16 && forall i :: 0 <= i < |ns| ==> ns[i] < 16
    ensures Pack((ns + [digit])[..|ns| + 1]) == Pack(ns[..|ns| - 1]) + [(16 * ns[|ns| - 1] + digit) as char]
  {
    var front, last := ns[..|ns| - 1], [ns[|ns| - 1], digit];
    assert (ns + [digit])[..|ns| + 1] == front + last;
    PackConcat(front, last);
    assert last[2..] == [] && Pack(last) == [(16 * last[0] + last[1]) as char];
  }

  /** One more character of the text: nothing, one more digit, or no identifier at all. */
  lemma OneMore(text: Bytes, i: nat)
    requires i < |text|
    ensures Nibbles(text[..i]).Some? ==>
      && (text[i] == '-' ==> Nibbles(text[..i + 1]) == Nibbles(text[..i]))
      && (text[i] != '-' && Nibble(text[i]).Some? ==>
            Nibbles(text[..i + 1]) == Some(Nibbles(text[..i]).value + [Nibble(text[i]).value]))
      && (text[i] != '-' && Nibble(text[i]).None? ==> UuidBytes(text) == NIL)
      && (text[i] != '-' && |Nibbles(text[..i]).value| >= 33 ==> UuidBytes(text) == NIL)
  {
    var front, c, back := text[..i], [text[i]], text[i + 1..];
    assert text[..i + 1] == front + c && text == front + (c + back);
    I.NibblesConcat(front, c);
    I.NibblesConcat(c, back);
    I.NibblesConcat(front, c + back);
    assert c[1..] == [] && Nibbles([]) == Some([]);
    if text[i] != '-' && Nibble(text[i]).Some? {
      assert Nibbles(c).value == [Nibble(text[i]).value] + [] == [Nibble(text[i]).value];
    }
    if Nibbles(front).Some? {
      assert Nibbles(front).value + [] == Nibbles(front).value;
    }
  }

  // ----- reading -----

  class Reader {
    const data: Bytes
    var position: nat

    constructor (data: Bytes)
      ensures this.data == data && position == 0
    {
      this.data := data;
      position := 0;
    }

    method Take() returns (out: Option<Byte>)
      requires position <= |data|
      modifies this
      ensures position <= |data| && Answers(ReadTag(data, old(position)), out, position)
    {
      if position >= |data| {
        return None;
      }
      out := Some(data[position]);
      position := position + 1;
    }

    method TakeBytes(count: nat) returns (out: Option<Bytes>)
      requires position <= |data|
      modifies this
      ensures position <= |data| && Answers(ReadBytes(data, old(position), count), out, position)
    {
      if count > |data| - position {
        return None;
      }
      out := Some(data[position..position + count]);
      position := position + count;
    }

    method TakeU32() returns (out: Option<uint32>)
      requires position <= |data|
      modifies this
      ensures position <= |data| && old(position) <= position
      ensures match ReadWord(data, old(position), 4)
        case Got(n, next) => out == Some(n) && position == next
        case Bad => out == None && position == old(position)
    {
      if position + 4 > |data| {
        return None;
      }
      FourBytes(data, position);
      out := Some(0x100_0000 * (data[position] as int) + 0x1_0000 * (data[position + 1] as int)
                  + 0x100 * (data[position + 2] as int) + data[position + 3] as int);
      position := position + 4;
    }

    method TakeU64() returns (out: Option<uint64>)
      requires position <= |data|
      modifies this
      ensures position <= |data|
      ensures match ReadWord(data, old(position), 8)
        case Got(n, next) => out == Some(n) && position == next
        case Bad => out == None
    {
      ghost var start := position;
      var high := TakeU32();
      if high == None {
        return None;
      }
      var low := TakeU32();
      if low == None {
        return None;
      }
      EightBytes(data, start);
      out := Some(high.value * 0x1_0000_0000 + low.value);
    }

    method CountedString() returns (out: Option<Bytes>)
      requires position <= |data|
      modifies this
      ensures position <= |data| && Answers(ReadCounted(data, old(position)), out, position)
    {
      var length := TakeU32();
      if length == None {
        return None;
      }
      out := TakeBytes(length.value);
    }

    method Scalar(tag: Byte) returns (out: Option<Llsd>)
      requires position <= |data|
      modifies this
      ensures position <= |data| && Answers(ReadScalar(data, tag, old(position)), out, position)
    {
      hide ReadWord, ReadCounted, ReadBytes, UuidText;
      if tag == '!' {
        return Some(Undefined);
      }
      if tag == '1' || tag == '0' {
        return Some(Boolean(tag == '1'));
      }
      if tag == 'i' {
        var raw := TakeU32();
        return if raw == None then None else Some(Integer(Wrap32(raw.value)));
      }
      if tag == 'r' || tag == 'd' {
        var raw := TakeU64();
        return if raw == None then None else Some(Real(raw.value));
      }
      if tag == 'u' {
        var bytes := TakeBytes(16);
        if bytes == None {
          return None;
        }
        var text := FormatUuid(bytes.value);
        return Some(Uuid(text));
      }
      if tag == 's' || tag == 'l' || tag == 'b' {
        var bytes := CountedString();
        return
          if bytes == None then None
          else if tag == 's' then Some(Text(bytes.value))
          else if tag == 'l' then Some(Uri(bytes.value))
          else Some(Binary(bytes.value));
      }
      return None;
    }

    /** Fills a value in at the cursor; the depth keeps the recursion bounded. */
    method Value(depth: nat) returns (out: Option<Llsd>)
      requires position <= |data|
      modifies this
      ensures position <= |data| && Answers(ReadValue(data, old(position), depth), out, position)
      decreases |data| - position, 1
    {
      hide ReadScalar, ReadWord, ReadMembers, ReadElements;
      if depth > MAX_DEPTH {
        return None;
      }
      var tag := Take();
      if tag == None {
        return None;
      }
      if tag.value != '{' && tag.value != '[' {
        out := Scalar(tag.value);
        return;
      }
      var count := TakeU32();
      if count == None || count.value > MAX_ELEMENTS {
        return None;
      }
      if tag.value == '{' {
        var members := Members(count.value, depth + 1);
        if members == None {
          return None;
        }
        var end := Take();
        return if end == Some('}') then Some(Map(members.value)) else None;
      }
      var elements := Elements(count.value, depth + 1);
      if elements == None {
        return None;
      }
      var end := Take();
      return if end == Some(']') then Some(Array(elements.value)) else None;
    }

    method Members(count: nat, depth: nat) returns (out: Option<seq<Member>>)
      requires position <= |data|
      modifies this
      ensures position <= |data| && Answers(ReadMembers(data, old(position), count, depth), out, position)
      decreases |data| - position, 2
    {
      hide ReadMember;
      var members: seq<Member> := [];
      var index := 0;
      AfterNone(ReadMembers(data, position, count, depth));
      while index < count
        invariant index <= count && old(position) <= position <= |data|
        invariant ReadMembers(data, old(position), count, depth)
          == After(members, ReadMembers(data, position, count - index, depth))
      {
        var m := OneMember(depth);
        if m == None {
          return None;
        }
        AfterOne(members, m.value, ReadMembers(data, position, count - index - 1, depth));
        members := members + [m.value];
        index := index + 1;
      }
      assert members + [] == members;
      return Some(members);
    }

    method OneMember(depth: nat) returns (out: Option<Member>)
      requires position <= |data|
      modifies this
      ensures position <= |data| && Answers(ReadMember(data, old(position), depth), out, position)
      decreases |data| - position, 0
    {
      hide ReadValue, ReadCounted;
      var tag := Take();
      if tag != Some('k') {
        return None;
      }
      var key := CountedString();
      if key == None {
        return None;
      }
      var v := Value(depth);
      return if v == None then None else Some(Member(key.value, v.value));
    }

    method Elements(count: nat, depth: nat) returns (out: Option<seq<Llsd>>)
      requires position <= |data|
      modifies this
      ensures position <= |data| && Answers(ReadElements(data, old(position), count, depth), out, position)
      decreases |data| - position, 2
    {
      hide ReadValue;
      var elements: seq<Llsd> := [];
      var index := 0;
      AfterNone(ReadElements(data, position, count, depth));
      while index < count
        invariant index <= count && old(position) <= position <= |data|
        invariant ReadElements(data, old(position), count, depth)
          == After(elements, ReadElements(data, position, count - index, depth))
      {
        var v := Value(depth);
        if v == None {
          return None;
        }
        AfterOne(elements, v.value, ReadElements(data, position, count - index - 1, depth));
        elements := elements + [v.value];
        index := index + 1;
      }
      assert elements + [] == elements;
      return Some(elements);
    }
  }

  /** A list read so far, in front of what is still to be read. */
  function After<T>(front: seq<T>, r: Read<seq<T>>): Read<seq<T>> {
    if r.Got? then Got(front + r.value, r.next) else Bad
  }

  lemma AfterNone<T>(r: Read<seq<T>>)
    ensures After([], r) == r
  {
    if r.Got? {
      assert [] + r.value == r.value;
    }
  }

  lemma AfterOne<T>(front: seq<T>, x: T, rest: Read<seq<T>>)
    ensures After(front, Before(x, rest)) == After(front + [x], rest)
  {
    if rest.Got? {
      assert front + ([x] + rest.value) == (front + [x]) + rest.value;
    }
  }

  method ParseDocument(data: Bytes) returns (out: Option<Llsd>)
    ensures out == ParseBinary(data)
  {
    var reader := new Reader(data);
    out := reader.Value(0);
  }

  // ----- writing -----

  class Writer {
    var out: Bytes

    constructor ()
      ensures out == []
    {
      out := [];
    }

    method AppendU32(value: uint32)
      modifies this
      ensures out == old(out) + BigEndian(value, 4)
    {
      FourDigits(value);
      out := out + [ByteOf(value / 0x100_0000)];
      out := out + [ByteOf(value / 0x1_0000)];
      out := out + [ByteOf(value / 0x100)];
      out := out + [ByteOf(value)];
    }

    /** A length is truncated to the four bytes it has. */
    method AppendCounted(text: Bytes)
      modifies this
      ensures out == old(out) + Counted(text)
    {
      LowWord(|text|);
      AppendU32(|text| % TWO_32);
      out := out + text;
    }

    method AppendTagged(tag: Byte, text: Bytes)
      modifies this
      ensures out == old(out) + ([tag] + Counted(text))
    {
      hide Counted;
      out := out + [tag];
      AppendCounted(text);
    }

    method WriteScalar(v: Llsd)
      requires !v.Map? && !v.Array?
      modifies this
      ensures out == old(out) + Write(v)
    {
      hide BigEndian, Counted, UuidBytes;
      match v {
        case Undefined => out := out + ['!'];
        case Boolean(b) => out := out + [if b then '1' else '0'];
        case Integer(n) =>
          out := out + ['i'];
          AppendU32(n % TWO_32);
        case Real(bits) =>
          out := out + ['r'];
          HighAndLow(bits);
          AppendU32(bits / TWO_32);
          AppendU32(bits % TWO_32);
        case Uuid(text) =>
          out := out + ['u'];
          var bytes := ParseUuid(text);
          out := out + bytes;
        case Text(text) => AppendTagged('s', text);
        case Uri(text) => AppendTagged('l', text);
        case Binary(data) => AppendTagged('b', data);
      }
    }

    method WriteValue(v: Llsd)
      modifies this
      ensures out == old(out) + Write(v)
      decreases v, 1
    {
      hide Write;
      match v {
        case Map(members) => WriteMap(members);
        case Array(elements) => WriteArray(elements);
        case _ => WriteScalar(v);
      }
    }

    method WriteMap(members: seq<Member>)
      modifies this
      ensures out == old(out) + Write(Map(members))
      decreases members, 1
    {
      hide BigEndian;
      LowWord(|members|);
      out := out + ['{'];
      AppendU32(|members| % TWO_32);
      WriteAllMembers(members);
      out := out + ['}'];
    }

    method WriteArray(elements: seq<Llsd>)
      modifies this
      ensures out == old(out) + Write(Array(elements))
      decreases elements, 1
    {
      hide BigEndian;
      LowWord(|elements|);
      out := out + ['['];
      AppendU32(|elements| % TWO_32);
      WriteAllElements(elements);
      out := out + [']'];
    }

    method WriteAllMembers(members: seq<Member>)
      modifies this
      ensures out == old(out) + WriteMembers(members)
      decreases members, 0
    {
      hide Write, Counted;
      var i := 0;
      while i < |members|
        invariant i <= |members|
        invariant out + WriteMembers(members[i..]) == old(out) + WriteMembers(members)
      {
        ghost var before := out;
        assert members[i..][1..] == members[i + 1..];
        out := out + ['k'];
        AppendCounted(members[i].key);
        WriteValue(members[i].value);
        assert out == before + WriteMember(members[i]);
        assert out + WriteMembers(members[i + 1..]) == before + (WriteMember(members[i]) + WriteMembers(members[i + 1..]));
        i := i + 1;
      }
    }

    method WriteAllElements(elements: seq<Llsd>)
      modifies this
      ensures out == old(out) + WriteElements(elements)
      decreases elements, 0
    {
      hide Write;
      var i := 0;
      while i < |elements|
        invariant i <= |elements|
        invariant out + WriteElements(elements[i..]) == old(out) + WriteElements(elements)
      {
        ghost var before := out;
        assert elements[i..][1..] == elements[i + 1..];
        WriteValue(elements[i]);
        assert out + WriteElements(elements[i + 1..]) == before + (Write(elements[i]) + WriteElements(elements[i + 1..]));
        i := i + 1;
      }
    }
  }

  lemma FourDigits(n: nat)
    ensures BigEndian(n, 4) == [ByteOf(n / 0x100_0000), ByteOf(n / 0x1_0000), ByteOf(n / 0x100), ByteOf(n)]
  {
    assert n / 0x100 / 0x100 == n / 0x1_0000 && n / 0x1_0000 / 0x100 == n / 0x100_0000;
    assert BigEndian(n / 0x100_0000, 1) == [ByteOf(n / 0x100_0000)];
    assert BigEndian(n / 0x1_0000, 2) == [ByteOf(n / 0x100_0000), ByteOf(n / 0x1_0000)];
    assert BigEndian(n / 0x100, 3) == [ByteOf(n / 0x100_0000), ByteOf(n / 0x1_0000), ByteOf(n / 0x100)];
  }

  lemma LowWord(n: nat)
    ensures BigEndian(n % TWO_32, 4) == BigEndian(n, 4)
  {
    hide BigEndian;
    var q, m := n / TWO_32, n % TWO_32;
    FourDigits(n);
    FourDigits(m);
    assert n / 0x100_0000 == q * 0x100 + m / 0x100_0000;
    assert n / 0x1_0000 == q * 0x1_0000 + m / 0x1_0000;
    assert n / 0x100 == q * 0x100_0000 + m / 0x100;
    SameByte(m / 0x100_0000, q);
    SameByte(m / 0x1_0000, q * 0x100);
    SameByte(m / 0x100, q * 0x1_0000);
    SameByte(m, q * 0x100_0000);
  }

  lemma SameByte(m: nat, k: nat)
    ensures ByteOf(k * 0x100 + m) == ByteOf(m)
  {
  }

  lemma HighAndLow(bits: uint64)
    ensures BigEndian(bits, 8) == BigEndian(bits / TWO_32, 4) + BigEndian(bits % TWO_32, 4)
  {
    LowWord(bits);
    FourDigits(bits);
    var n := bits;
    assert n / 0x100 / 0x100 == n / 0x1_0000 && n / 0x1_0000 / 0x100 == n / 0x100_0000 && n / 0x100_0000 / 0x100 == n / TWO_32;
    assert BigEndian(n / 0x100_0000, 5) == BigEndian(n / TWO_32, 4) + [ByteOf(n / 0x100_0000)];
    assert BigEndian(n / 0x1_0000, 6) == BigEndian(n / 0x100_0000, 5) + [ByteOf(n / 0x1_0000)];
    assert BigEndian(n / 0x100, 7) == BigEndian(n / 0x1_0000, 6) + [ByteOf(n / 0x100)];
  }

  method SerializeDocument(v: Llsd) returns (out: Bytes)
    ensures out == Write(v)
  {
    var writer := new Writer();
    writer.WriteValue(v);
    out := writer.out;
  }
}
