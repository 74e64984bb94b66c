/** LLSD's binary serialization, both directions, as functions over bytes. */
module Llsd {
  import opened Prelude

  type int64 = x: int | -0x8000_0000_0000_0000 <= x < 0x8000_0000_0000_0000

  type uint64 = x: int | 0 <= x < 0x1_0000_0000_0000_0000

  /** A document. A double travels as its eight bytes, so it is modelled by them. */
  datatype Llsd =
    | Undefined
    | Boolean(boolean: bool)
    | Integer(integer: int64)
    | Real(bits: uint64)
    | Text(text: Bytes)
    | Uuid(uuid: Bytes)
    | Uri(uri: Bytes)
    | Binary(data: Bytes)
    | Map(members: seq<Member>)
    | Array(elements: seq<Llsd>)

  datatype Member = Member(key: Bytes, value: Llsd)

  const MAX_DEPTH: nat := 32
  const MAX_ELEMENTS: nat := 0x10_0000

  // ----- big-endian words -----

  /** The low `width` bytes of `n`, most significant first. */
  function BigEndian(n: nat, width: nat): (r: Bytes)
    ensures |r| == width
  {
    if width == 0 then [] else BigEndian(n / 256, width - 1) + [ByteOf(n)]
  }

  function WordOf(b: Bytes): (n: nat)
    ensures n < Pow256(|b|)
  {
    if b == [] then 0 else 256 * WordOf(b[..|b| - 1]) + b[|b| - 1] as int
  }

  // ----- identifiers -----

  function HexDigit(n: nat): Byte
    requires n < 16
  {
    if n < 10 then ('0' as int + n) as char else ('a' as int + (n - 10)) as char
  }

  function Hex(b: Bytes): (r: Bytes)
    ensures |r| == 2 * |b|
  {
    if b == [] then [] else [HexDigit(b[0] as int / 16), HexDigit(b[0] as int % 16)] + Hex(b[1..])
  }

  /** Dashes before bytes 4, 6, 8 and 10. */
  function Dashed(h: Bytes): Bytes
    requires |h| == 32
  {
    h[..8] + ['-'] + h[8..12] + ['-'] + h[12..16] + ['-'] + h[16..20] + ['-'] + h[20..]
  }

  function UuidText(b: Bytes): Bytes
    requires |b| == 16
  {
    Dashed(Hex(b))
  }

  function Nibble(c: Byte): (r: Option<nat>)
    ensures r.Some? ==> r.value < 16
  {
    if '0' <= c <= '9' then Some(c as int - '0' as int)
    else if 'a' <= c <= 'f' then Some(c as int - 'a' as int + 10)
    else if 'A' <= c <= 'F' then Some(c as int - 'A' as int + 10)
    else None
  }

  /** What is left of a text when its dashes are dropped, if all of it is hexadecimal. */
  function Nibbles(text: Bytes): (r: Option<seq<nat>>)
    ensures r.Some? ==> forall i :: 0 <= i < |r.value| ==> r.value[i] < 16
  {
    if text == [] then Some([])
    else if text[0] == '-' then Nibbles(text[1..])
    else
      var (n, rest) := (Nibble(text[0]), Nibbles(text[1..]));
      if n.Some? && rest.Some? then Some([n.value] + rest.value) else None
  }

  function Pack(ns: seq<nat>): (r: Bytes)
    requires |ns| % 2 == 0 && forall i :: 0 <= i < |ns| ==> ns[i] < 16
    ensures |r| == |ns| / 2
  {
    if ns == [] then [] else [(16 * ns[0] + ns[1]) as char] + Pack(ns[2..])
  }

  const NIL: Bytes := ['\0', '\0', '\0', '\0', '\0', '\0', '\0', '\0', '\0', '\0', '\0', '\0', '\0', '\0', '\0', '\0']

  const NIL_TEXT: Bytes := "00000000-0000-0000-0000-000000000000"

  /** Sixteen bytes whatever the text: what is not an identifier is written as the nil one. */
  function UuidBytes(text: Bytes): (r: Bytes)
    ensures |r| == 16
  {
    match Nibbles(text)
    case Some(ns) => if |ns| == 32 then Pack(ns) else NIL
    case None => NIL
  }

  // ----- writing -----

  function Counted(text: Bytes): Bytes {
    BigEndian(|text|, 4) + text
  }

  function Write(v: Llsd): Bytes
    decreases v, 1
  {
    match v
    case Undefined => ['!']
    case Boolean(b) => [if b then '1' else '0']
    case Integer(n) => ['i'] + BigEndian(n % TWO_32, 4)
    case Real(bits) => ['r'] + BigEndian(bits, 8)
    case Uuid(text) => ['u'] + UuidBytes(text)
    case Text(text) => ['s'] + Counted(text)
    case Uri(text) => ['l'] + Counted(text)
    case Binary(data) => ['b'] + Counted(data)
    case Map(members) => ['{'] + (BigEndian(|members|, 4) + (WriteMembers(members) + ['}']))
    case Array(elements) => ['['] + (BigEndian(|elements|, 4) + (WriteElements(elements) + [']']))
  }

  function WriteMember(m: Member): Bytes
    decreases m, 2
  {
    ['k'] + (Counted(m.key) + Write(m.value))
  }

  function WriteMembers(ms: seq<Member>): Bytes
    decreases ms, 0
  {
    if ms == [] then [] else WriteMember(ms[0]) + WriteMembers(ms[1..])
  }

  function WriteElements(es: seq<Llsd>): Bytes
    decreases es, 0
  {
    if es == [] then [] else Write(es[0]) + WriteElements(es[1..])
  }

  // ----- reading -----

  /** A value and the position just after it. */
  datatype Read<+T> = Got(value: T, next: nat) | Bad

  function ReadTag(b: Bytes, pos: nat): (r: Read<Byte>)
    ensures r.Got? ==> r.next == pos + 1 <= |b| && r.value == b[pos]
  {
    if pos < |b| then Got(b[pos], pos + 1) else Bad
  }

  function ReadBytes(b: Bytes, pos: nat, count: nat): (r: Read<Bytes>)
    ensures r.Got? ==> r.next == pos + count <= |b| && |r.value| == count
  {
    if pos + count <= |b| then Got(b[pos..pos + count], pos + count) else Bad
  }

  function ReadWord(b: Bytes, pos: nat, width: nat): (r: Read<nat>)
    ensures r.Got? ==> r.next == pos + width <= |b| && r.value < Pow256(width)
  {
    match ReadBytes(b, pos, width)
    case Got(bytes, next) => Got(WordOf(bytes), next)
    case Bad => Bad
  }

  function ReadCounted(b: Bytes, pos: nat): (r: Read<Bytes>)
    ensures r.Got? ==> pos + 4 <= r.next <= |b|
  {
    match ReadWord(b, pos, 4)
    case Got(length, next) => ReadBytes(b, next, length)
    case Bad => Bad
  }

  function ReadKey(b: Bytes, pos: nat): (r: Read<Bytes>)
    ensures r.Got? ==> pos < r.next <= |b|
  {
    if pos < |b| && b[pos] == 'k' then ReadCounted(b, pos + 1) else Bad
  }

  function ReadEnd<T>(b: Bytes, r: Read<T>, end: Byte): (s: Read<T>)
    ensures s.Got? ==> r.Got? && s.next == r.next + 1 <= |b|
  {
    if r.Got? && r.next < |b| && b[r.next] == end then Got(r.value, r.next + 1) else Bad
  }

  /** A value with no value inside it. */
  function ReadScalar(b: Bytes, tag: Byte, pos: nat): (r: Read<Llsd>)
    ensures r.Got? ==> pos <= r.next
    ensures r.Got? && pos <= |b| ==> r.next <= |b|
  {
    match tag
    case '!' => Got(Undefined, pos)
    case '1' => Got(Boolean(true), pos)
    case '0' => Got(Boolean(false), pos)
    case 'i' => (match ReadWord(b, pos, 4) case Got(n, next) => Got(Integer(Wrap32(n)), next) case Bad => Bad)
    case 'r' | 'd' => (match ReadWord(b, pos, 8) case Got(n, next) => Got(Real(n), next) case Bad => Bad)
    case 'u' => (match ReadBytes(b, pos, 16) case Got(bytes, next) => Got(Uuid(UuidText(bytes)), next) case Bad => Bad)
    case 's' => (match ReadCounted(b, pos) case Got(t, next) => Got(Text(t), next) case Bad => Bad)
    case 'l' => (match ReadCounted(b, pos) case Got(t, next) => Got(Uri(t), next) case Bad => Bad)
    case 'b' => (match ReadCounted(b, pos) case Got(t, next) => Got(Binary(t), next) case Bad => Bad)
    case _ => Bad
  }

  function ReadValue(b: Bytes, pos: nat, depth: nat): (r: Read<Llsd>)
    ensures r.Got? ==> pos < r.next <= |b|
    decreases |b| - pos, 1, 0
  {
    if depth > MAX_DEPTH || pos >= |b| then Bad
    else if b[pos] == '{' then
      match ReadWord(b, pos + 1, 4)
      case Bad => Bad
      case Got(count, next) =>
        if count > MAX_ELEMENTS then Bad
        else
          match ReadEnd(b, ReadMembers(b, next, count, depth + 1), '}')
          case Got(ms, end) => Got(Map(ms), end)
          case Bad => Bad
    else if b[pos] == '[' then
      match ReadWord(b, pos + 1, 4)
      case Bad => Bad
      case Got(count, next) =>
        if count > MAX_ELEMENTS then Bad
        else
          match ReadEnd(b, ReadElements(b, next, count, depth + 1), ']')
          case Got(es, end) => Got(Array(es), end)
          case Bad => Bad
    else ReadScalar(b, b[pos], pos + 1)
  }

  function ReadMember(b: Bytes, pos: nat, depth: nat): (r: Read<Member>)
    ensures r.Got? ==> pos < r.next <= |b|
    decreases |b| - pos, 0, 0
  {
    match ReadKey(b, pos)
    case Bad => Bad
    case Got(key, next) =>
      match ReadValue(b, next, depth)
      case Got(v, end) => Got(Member(key, v), end)
      case Bad => Bad
  }

  function Before<T>(x: T, r: Read<seq<T>>): Read<seq<T>> {
    if r.Got? then Got([x] + r.value, r.next) else Bad
  }

  function ReadMembers(b: Bytes, pos: nat, count: nat, depth: nat): (r: Read<seq<Member>>)
    ensures r.Got? ==> pos <= r.next && |r.value| == count && (pos <= |b| ==> r.next <= |b|)
    decreases |b| - pos, 1, count
  {
    if count == 0 then Got([], pos)
    else
      match ReadMember(b, pos, depth)
      case Bad => Bad
      case Got(m, next) => Before(m, ReadMembers(b, next, count - 1, depth))
  }

  function ReadElements(b: Bytes, pos: nat, count: nat, depth: nat): (r: Read<seq<Llsd>>)
    ensures r.Got? ==> pos <= r.next && |r.value| == count && (pos <= |b| ==> r.next <= |b|)
    decreases |b| - pos, 2, count
  {
    if count == 0 then Got([], pos)
    else
      match ReadValue(b, pos, depth)
      case Bad => Bad
      case Got(v, next) => Before(v, ReadElements(b, next, count - 1, depth))
  }

  function ParseBinary(b: Bytes): Option<Llsd> {
    match ReadValue(b, 0, 0)
    case Got(v, _) => Some(v)
    case Bad => None
  }
}
