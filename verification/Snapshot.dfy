/** The byte format a suspended machine crosses regions in. */
module Snapshot {
  import opened Prelude
  import opened Bytecode
  import opened Vm

  const SNAPSHOT_VERSION: nat := 2
  const MAX_SNAPSHOT_VALUES: nat := 1_000_000
  const MAGIC: Bytes := ['H', 'W', 'Z', 'S']

  datatype SnapshotError =
    | Truncated | BadMagic | BadVersion | BadAbi
    | TooManyValues | StringTooLong | UnknownTag | GlobalCountMismatch

  // ----- writing -----

  /** Little-endian, keeping the low `width` bytes only. */
  function LittleEndian(n: nat, width: nat): (r: Bytes)
    ensures |r| == width
  {
    if width == 0 then [] else [ByteOf(n)] + LittleEndian(n / 256, width - 1)
  }

  function ValueBytes(v: Value): Bytes {
    match v
    case Str(s) => [2 as char] + LittleEndian(|s|, 4) + s
    case Int(n) => [1 as char] + LittleEndian(n % TWO_32, 4)
  }

  function AllValueBytes(vs: seq<Value>): Bytes {
    if vs == [] then [] else ValueBytes(vs[0]) + AllValueBytes(vs[1..])
  }

  function BankBytes(vs: seq<Value>): Bytes {
    LittleEndian(|vs|, 4) + AllValueBytes(vs)
  }

  function HeaderBytes(p: Program): Bytes {
    MAGIC + (LittleEndian(SNAPSHOT_VERSION, 2) + LittleEndian(p.abiVersion, 4))
  }

  function ScalarBytes(s: VmState): Bytes {
    LittleEndian(s.ip, 8) + ([if s.finished then 1 as char else 0 as char] + LittleEndian(s.total, 8))
  }

  function SnapshotBytes(p: Program, s: VmState): Bytes {
    HeaderBytes(p) + (ScalarBytes(s) + (BankBytes(s.stack) + (BankBytes(s.locals) + BankBytes(s.globals))))
  }

  // ----- reading -----

  /** A decoded item and the position just after it. */
  datatype Read<+T> = Got(value: T, next: nat) | Bad(error: SnapshotError)

  function UnsignedOf(b: Bytes): nat {
    if b == [] then 0 else b[0] as int + 256 * UnsignedOf(b[1..])
  }

  function ReadUnsigned(b: Bytes, pos: nat, width: nat): Read<nat> {
    if pos + width <= |b| then Got(UnsignedOf(b[pos..pos + width]), pos + width) else Bad(Truncated)
  }

  function ReadValue(b: Bytes, pos: nat): Read<Value> {
    match ReadUnsigned(b, pos, 1)
    case Bad(e) => Bad(e)
    case Got(tag, p1) =>
      if tag == 2 then
        match ReadUnsigned(b, p1, 4)
        case Bad(e) => Bad(e)
        case Got(len, p2) =>
          if len > MAX_SNAPSHOT_VALUES then Bad(StringTooLong)
          else if p2 + len > |b| then Bad(Truncated)
          else Got(Str(b[p2..p2 + len]), p2 + len)
      else if tag == 1 then
        match ReadUnsigned(b, p1, 4)
        case Bad(e) => Bad(e)
        case Got(n, p2) => Got(Int(Wrap32(n)), p2)
      else Bad(UnknownTag)
  }

  function ReadMany(b: Bytes, pos: nat, count: nat): Read<seq<Value>>
    decreases count
  {
    if count == 0 then Got([], pos)
    else
      match ReadValue(b, pos)
      case Bad(e) => Bad(e)
      case Got(v, p1) =>
        Prepend([v], ReadMany(b, p1, count - 1))
  }

  function Prepend(front: seq<Value>, r: Read<seq<Value>>): Read<seq<Value>> {
    if r.Got? then Got(front + r.value, r.next) else r
  }

  lemma PrependTwice(a: seq<Value>, b: seq<Value>, r: Read<seq<Value>>)
    ensures Prepend([], r) == r
    ensures Prepend(a, Prepend(b, r)) == Prepend(a + b, r)
  {
    if r.Got? {
      assert [] + r.value == r.value;
      assert a + (b + r.value) == (a + b) + r.value;
    }
  }

  function ReadBank(b: Bytes, pos: nat): Read<seq<Value>> {
    match ReadUnsigned(b, pos, 4)
    case Bad(e) => Bad(e)
    case Got(count, p1) =>
      if count > MAX_SNAPSHOT_VALUES then Bad(TooManyValues) else ReadMany(b, p1, count)
  }

  function ReadMagic(b: Bytes, pos: nat, expected: Bytes): Option<SnapshotError>
    decreases |expected|
  {
    if expected == [] then None
    else if pos >= |b| then Some(Truncated)
    else if b[pos] != expected[0] then Some(BadMagic)
    else ReadMagic(b, pos + 1, expected[1..])
  }

  function ReadHeader(p: Program, b: Bytes): Option<SnapshotError> {
    var magic := ReadMagic(b, 0, MAGIC);
    if magic.Some? then magic
    else
      match ReadUnsigned(b, 4, 2)
      case Bad(e) => Some(e)
      case Got(version, _) =>
        if version != SNAPSHOT_VERSION then Some(BadVersion)
        else
          match ReadUnsigned(b, 6, 4)
          case Bad(e) => Some(e)
          case Got(abi, _) => if abi != p.abiVersion then Some(BadAbi) else None
  }

  /** The state a restore leaves behind, which a failure part-way has partly written. */
  datatype Restored = Restored(state: VmState, error: Option<SnapshotError>)

  function Restore(p: Program, s: VmState, b: Bytes): Restored {
    var header := ReadHeader(p, b);
    if header.Some? then Restored(s, header) else RestoreScalars(p, s, b, 10)
  }

  function RestoreScalars(p: Program, s: VmState, b: Bytes, pos: nat): Restored {
    match ReadUnsigned(b, pos, 8)
    case Bad(e) => Restored(s, Some(e))
    case Got(ip, p1) =>
      var s1 := s.(ip := ip);
      match ReadUnsigned(b, p1, 1)
      case Bad(e) => Restored(s1, Some(e))
      case Got(flag, p2) =>
        var s2 := s1.(finished := flag != 0);
        match ReadUnsigned(b, p2, 8)
        case Bad(e) => Restored(s2, Some(e))
        case Got(total, p3) => RestoreBanks(p, s2.(total := total), b, p3)
  }

  function RestoreBanks(p: Program, s: VmState, b: Bytes, pos: nat): Restored {
    match ReadBank(b, pos)
    case Bad(e) => Restored(s, Some(e))
    case Got(stack, p1) =>
      var s1 := s.(stack := stack);
      match ReadBank(b, p1)
      case Bad(e) => Restored(s1, Some(e))
      case Got(locals, p2) =>
        var s2 := s1.(locals := locals);
        match ReadBank(b, p2)
        case Bad(e) => Restored(s2, Some(e))
        case Got(globals, _) =>
          if |globals| != |p.globalDefaults| then Restored(s2, Some(GlobalCountMismatch))
          else Restored(s2.(globals := globals), None)
  }

  /** The first ten bytes: the letters HWZS, version 2 and the program's bytecode version, each number
      least significant byte first. Bytes that begin otherwise restore nothing. */
  lemma SnapshotBegins(p: Program, s: VmState, b: Bytes)
    ensures var whole := SnapshotBytes(p, s);
      && |whole| > 10 && whole[0] == 'H' && whole[1] == 'W' && whole[2] == 'Z' && whole[3] == 'S'
      && whole[4] as int == 2 && whole[5] as int == 0
      && whole[6] as int + 256 * whole[7] as int + 0x1_0000 * whole[8] as int + 0x100_0000 * whole[9] as int == p.abiVersion
      && (|b| >= 10 && b[..10] != whole[..10] ==> Restore(p, s, b).error.Some? && Restore(p, s, b).state == s)
      && (|b| < 10 ==> Restore(p, s, b).error.Some? && Restore(p, s, b).state == s)
  {
    HeaderSpelled(p);
    assert SnapshotBytes(p, s)[..10] == HeaderBytes(p);
    assert forall i :: 0 <= i < 10 ==> SnapshotBytes(p, s)[i] == HeaderBytes(p)[i];
    hide SnapshotBytes, HeaderBytes, RestoreScalars;
    HeaderChecked(p, b);
  }

  lemma HeaderSpelled(p: Program)
    ensures var h := HeaderBytes(p);
      && |h| == 10 && h[..4] == ['H', 'W', 'Z', 'S'] && h[4] as int == 2 && h[5] as int == 0
      && h[6] as int + 256 * h[7] as int + 0x1_0000 * h[8] as int + 0x100_0000 * h[9] as int == p.abiVersion
  {
    assert LittleEndian(SNAPSHOT_VERSION, 2) == [ByteOf(2), ByteOf(0)];
    var a := p.abiVersion;
    assert LittleEndian(a / 256 / 256 / 256, 1) == [ByteOf(a / 256 / 256 / 256)];
    assert LittleEndian(a / 256 / 256, 2) == [ByteOf(a / 256 / 256)] + LittleEndian(a / 256 / 256 / 256, 1);
    assert LittleEndian(a / 256, 3) == [ByteOf(a / 256)] + LittleEndian(a / 256 / 256, 2);
    assert LittleEndian(a, 4) == [ByteOf(a), ByteOf(a / 256), ByteOf(a / 256 / 256), ByteOf(a / 256 / 256 / 256)];
  }

  lemma {:induction false} MagicChecked(b: Bytes, pos: nat, expected: Bytes)
    requires pos <= |b|
    ensures ReadMagic(b, pos, expected) == None <==> pos + |expected| <= |b| && b[pos..pos + |expected|] == expected
    decreases |expected|
  {
    if expected != [] {
      if pos < |b| {
        MagicChecked(b, pos + 1, expected[1..]);
      }
      if pos + |expected| <= |b| {
        var piece := b[pos..pos + |expected|];
        assert piece == [b[pos]] + b[pos + 1..pos + |expected|] && expected == [expected[0]] + expected[1..];
        assert b[pos + 1..pos + 1 + |expected[1..]|] == piece[1..] && b[pos] == piece[0];
      }
    }
  }

  lemma HeaderChecked(p: Program, b: Bytes)
    ensures ReadHeader(p, b) == None ==> |b| >= 10 && b[..10] == HeaderBytes(p)
  {
    if ReadHeader(p, b) == None {
      MagicChecked(b, 0, MAGIC);
      LittleEndianOf(b[4..6]);
      LittleEndianOf(b[6..10]);
      assert b[..10] == b[0..4] + (b[4..6] + b[6..10]);
    }
  }

  lemma {:induction false} LittleEndianOf(b: Bytes)
    ensures LittleEndian(UnsignedOf(b), |b|) == b
    decreases |b|
  {
    if b != [] {
      LittleEndianOf(b[1..]);
    }
  }

  // ----- restore inverts snapshot -----

  ghost predicate ValuesFit(vs: seq<Value>) {
    |vs| <= 1_000_000 && forall i :: 0 <= i < |vs| ==> ValueFits(vs[i])
  }

  ghost predicate ValueFits(v: Value) {
    v.Str? ==> |v.text| <= 1_000_000
  }

  /** What the format can carry: 64-bit counters, bounded banks, bounded strings. */
  ghost predicate Fits(p: Program, s: VmState) {
    && s.ip < TWO_64 && s.total < TWO_64
    && ValuesFit(s.stack) && ValuesFit(s.locals) && ValuesFit(s.globals)
    && |s.globals| == |p.globalDefaults|
  }

  lemma {:induction false} UnsignedOfLittleEndian(n: nat, width: nat)
    requires n < Pow256(width)
    ensures UnsignedOf(LittleEndian(n, width)) == n
  {
    if width > 0 {
      UnsignedOfLittleEndian(n / 256, width - 1);
    }
  }

  lemma {:induction false} UnsignedBound(b: Bytes)
    ensures UnsignedOf(b) < Pow256(|b|)
  {
    if b != [] {
      UnsignedBound(b[1..]);
    }
  }

  lemma Pow256Values()
    ensures Pow256(1) == 256 && Pow256(2) == 0x1_0000 && Pow256(4) == TWO_32 && Pow256(8) == TWO_64
  {
    assert Pow256(3) == 0x100_0000;
    assert Pow256(4) == TWO_32;
    assert Pow256(6) == 0x1_0000 * TWO_32;
  }

  lemma ReadUnsignedBack(b: Bytes, pos: nat, n: nat, width: nat)
    requires At(b, pos, LittleEndian(n, width)) && n < Pow256(width)
    ensures ReadUnsigned(b, pos, width) == Got(n, pos + width)
  {
    UnsignedOfLittleEndian(n, width);
  }

  lemma ReadByteBack(b: Bytes, pos: nat, c: Byte)
    requires At(b, pos, [c])
    ensures ReadUnsigned(b, pos, 1) == Got(c as int, pos + 1)
  {
    assert b[pos..pos + 1] == [c];
    assert UnsignedOf([c]) == c as int + 256 * UnsignedOf([]);
  }

  lemma ReadValueBack(b: Bytes, pos: nat, v: Value)
    requires At(b, pos, ValueBytes(v)) && ValueFits(v)
    ensures ReadValue(b, pos) == Got(v, pos + |ValueBytes(v)|)
  {
    Pow256Values();
    match v
    case Str(s) =>
      assert ValueBytes(v) == [2 as char] + (LittleEndian(|s|, 4) + s);
      AtSplit(b, pos, [2 as char], LittleEndian(|s|, 4) + s);
      AtSplit(b, pos + 1, LittleEndian(|s|, 4), s);
      ReadByteBack(b, pos, 2 as char);
      ReadUnsignedBack(b, pos + 1, |s|, 4);
    case Int(n) =>
      AtSplit(b, pos, [1 as char], LittleEndian(n % TWO_32, 4));
      ReadByteBack(b, pos, 1 as char);
      ReadUnsignedBack(b, pos + 1, n % TWO_32, 4);
  }

  lemma {:induction false} ReadManyBack(b: Bytes, pos: nat, vs: seq<Value>)
    requires At(b, pos, AllValueBytes(vs))
    requires forall i :: 0 <= i < |vs| ==> ValueFits(vs[i])
    ensures ReadMany(b, pos, |vs|) == Got(vs, pos + |AllValueBytes(vs)|)
    decreases |vs|
  {
    hide ReadValue, ValueBytes;
    if vs != [] {
      AtSplit(b, pos, ValueBytes(vs[0]), AllValueBytes(vs[1..]));
      ReadValueBack(b, pos, vs[0]);
      ReadManyBack(b, pos + |ValueBytes(vs[0])|, vs[1..]);
      assert vs == [vs[0]] + vs[1..];
    }
  }

  lemma ReadBankBack(b: Bytes, pos: nat, vs: seq<Value>)
    requires At(b, pos, BankBytes(vs)) && ValuesFit(vs)
    ensures ReadBank(b, pos) == Got(vs, pos + |BankBytes(vs)|)
  {
    Pow256Values();
    AtSplit(b, pos, LittleEndian(|vs|, 4), AllValueBytes(vs));
    ReadUnsignedBack(b, pos, |vs|, 4);
    ReadManyBack(b, pos + 4, vs);
  }

  /** Whatever the bytes, a bank that reads at all reads as one that fits. */
  lemma {:induction false} ReadManyFits(b: Bytes, pos: nat, count: nat)
    requires ReadMany(b, pos, count).Got?
    ensures var vs := ReadMany(b, pos, count).value;
      |vs| == count && forall i :: 0 <= i < |vs| ==> ValueFits(vs[i])
    decreases count
  {
    if count > 0 {
      ReadManyFits(b, ReadValue(b, pos).next, count - 1);
    }
  }

  lemma ReadBankFits(b: Bytes, pos: nat)
    requires ReadBank(b, pos).Got?
    ensures ValuesFit(ReadBank(b, pos).value)
  {
    var count := ReadUnsigned(b, pos, 4);
    ReadManyFits(b, count.next, count.value);
  }

  lemma HeaderBack(p: Program, b: Bytes)
    requires At(b, 0, HeaderBytes(p))
    ensures ReadHeader(p, b) == None
  {
    Pow256Values();
    AtSplit(b, 0, MAGIC, LittleEndian(SNAPSHOT_VERSION, 2) + LittleEndian(p.abiVersion, 4));
    AtSplit(b, 4, LittleEndian(SNAPSHOT_VERSION, 2), LittleEndian(p.abiVersion, 4));
    ReadUnsignedBack(b, 4, SNAPSHOT_VERSION, 2);
    ReadUnsignedBack(b, 6, p.abiVersion, 4);
    MagicBack(b, 0, MAGIC);
  }

  lemma {:induction false} MagicBack(b: Bytes, pos: nat, expected: Bytes)
    requires At(b, pos, expected)
    ensures ReadMagic(b, pos, expected) == None
    decreases |expected|
  {
    if expected != [] {
      AtSplit(b, pos, [expected[0]], expected[1..]);
      MagicBack(b, pos + 1, expected[1..]);
    }
  }

  lemma ScalarsBack(p: Program, s: VmState, t: VmState, b: Bytes, pos: nat)
    requires At(b, pos, ScalarBytes(s)) && s.ip < TWO_64 && s.total < TWO_64
    ensures RestoreScalars(p, t, b, pos) ==
      RestoreBanks(p, t.(ip := s.ip, finished := s.finished, total := s.total), b, pos + 17)
  {
    Pow256Values();
    var flag := if s.finished then 1 as char else 0 as char;
    AtSplit(b, pos, LittleEndian(s.ip, 8), [flag] + LittleEndian(s.total, 8));
    AtSplit(b, pos + 8, [flag], LittleEndian(s.total, 8));
    ReadUnsignedBack(b, pos, s.ip, 8);
    ReadByteBack(b, pos + 8, flag);
    ReadUnsignedBack(b, pos + 9, s.total, 8);
  }

  lemma BanksBack(p: Program, s: VmState, t: VmState, b: Bytes, pos: nat)
    requires At(b, pos, BankBytes(s.stack) + (BankBytes(s.locals) + BankBytes(s.globals)))
    requires Fits(p, s)
    ensures RestoreBanks(p, t, b, pos) ==
      Restored(t.(stack := s.stack, locals := s.locals, globals := s.globals), None)
  {
    hide ReadBank, BankBytes;
    AtSplit(b, pos, BankBytes(s.stack), BankBytes(s.locals) + BankBytes(s.globals));
    var p1 := pos + |BankBytes(s.stack)|;
    AtSplit(b, p1, BankBytes(s.locals), BankBytes(s.globals));
    ReadBankBack(b, pos, s.stack);
    ReadBankBack(b, p1, s.locals);
    ReadBankBack(b, p1 + |BankBytes(s.locals)|, s.globals);
  }

  /** Restoring a snapshot into any machine `t` of the same program reproduces every
      captured field exactly when the snapshot's limits hold; the error text, and the
      outside world's trace, are the receiving machine's own. */
  lemma RestoreInvertsSnapshot(p: Program, s: VmState, t: VmState)
    ensures Restore(p, t, SnapshotBytes(p, s)) == Restored(s.(error := t.error, trace := t.trace), None)
       <==> Fits(p, s)
  {
    var b := SnapshotBytes(p, s);
    if Fits(p, s) {
      RestoresFitting(p, s, t);
    }
    var r := Restore(p, t, b);
    if r.error.None? {
      RestoredFits(p, t, b);
    }
  }

  lemma RestoresFitting(p: Program, s: VmState, t: VmState)
    requires Fits(p, s)
    ensures Restore(p, t, SnapshotBytes(p, s)) == Restored(s.(error := t.error, trace := t.trace), None)
  {
    var b := SnapshotBytes(p, s);
    var banks := BankBytes(s.stack) + (BankBytes(s.locals) + BankBytes(s.globals));
    assert At(b, 0, HeaderBytes(p) + (ScalarBytes(s) + banks));
    AtSplit(b, 0, HeaderBytes(p), ScalarBytes(s) + banks);
    HeaderBack(p, b);
    AtSplit(b, 10, ScalarBytes(s), banks);
    ScalarsBack(p, s, t, b, 10);
    BanksBack(p, s, t.(ip := s.ip, finished := s.finished, total := s.total), b, 27);
  }

  /** No byte string at all can restore a machine outside the limits. */
  lemma RestoredFits(p: Program, t: VmState, b: Bytes)
    requires Restore(p, t, b).error.None?
    ensures Fits(p, Restore(p, t, b).state)
  {
    Pow256Values();
    UnsignedBound(b[10..18]);
    UnsignedBound(b[19..27]);
    ReadBankFits(b, 27);
    var p1 := ReadBank(b, 27).next;
    ReadBankFits(b, p1);
    ReadBankFits(b, ReadBank(b, p1).next);
  }

  // ----- the buffer and the cursor that do it in place -----

  lemma {:induction false} AllValueBytesSnoc(vs: seq<Value>, v: Value)
    ensures AllValueBytes(vs + [v]) == AllValueBytes(vs) + ValueBytes(v)
  {
    if vs == [] {
      assert AllValueBytes([v]) == ValueBytes(v) + AllValueBytes([]);
    } else {
      AllValueBytesSnoc(vs[1..], v);
      assert (vs + [v])[1..] == vs[1..] + [v];
    }
  }

  class ByteWriter {
    var bytes: Bytes

    constructor ()
      ensures bytes == []
    {
      bytes := [];
    }

    method WriteByte(n: nat)
      modifies this
      ensures bytes == old(bytes) + [ByteOf(n)]
    {
      bytes := bytes + [ByteOf(n)];
    }

    method WriteUnsigned(n: nat, width: nat)
      modifies this
      ensures bytes == old(bytes) + LittleEndian(n, width)
    {
      var rest := n;
      var i := 0;
      while i < width
        invariant i <= width
        invariant old(bytes) + LittleEndian(n, width) == bytes + LittleEndian(rest, width - i)
      {
        assert LittleEndian(rest, width - i) == [ByteOf(rest)] + LittleEndian(rest / 256, width - i - 1);
        WriteByte(rest);
        rest := rest / 256;
        i := i + 1;
      }
    }

    method WriteText(s: Bytes)
      modifies this
      ensures bytes == old(bytes) + s
    {
      var i := 0;
      while i < |s|
        invariant i <= |s|
        invariant bytes == old(bytes) + s[..i]
      {
        WriteByte(s[i] as int);
        i := i + 1;
      }
    }

    method WriteValue(v: Value)
      modifies this
      ensures bytes == old(bytes) + ValueBytes(v)
    {
      match v {
        case Str(s) =>
          WriteByte(2);
          WriteUnsigned(|s|, 4);
          WriteText(s);
        case Int(n) =>
          WriteByte(1);
          WriteUnsigned(n % TWO_32, 4);
      }
    }

    method WriteValues(vs: seq<Value>)
      modifies this
      ensures bytes == old(bytes) + BankBytes(vs)
    {
      hide ValueBytes, LittleEndian, AllValueBytes;
      WriteUnsigned(|vs|, 4);
      assert AllValueBytes(vs[..0]) == [] by { NoValueBytes(vs); }
      var i := 0;
      while i < |vs|
        invariant i <= |vs|
        invariant bytes == old(bytes) + LittleEndian(|vs|, 4) + AllValueBytes(vs[..i])
      {
        WriteValue(vs[i]);
        AllValueBytesSnoc(vs[..i], vs[i]);
        assert vs[..i + 1] == vs[..i] + [vs[i]];
        i := i + 1;
      }
      assert vs[..|vs|] == vs;
    }
  }

  lemma NoValueBytes(vs: seq<Value>)
    ensures AllValueBytes(vs[..0]) == []
  {
  }

  class ByteReader {
    const bytes: Bytes
    var pos: nat

    constructor (bytes: Bytes)
      ensures this.bytes == bytes && pos == 0
    {
      this.bytes := bytes;
      pos := 0;
    }

    method ReadByte() returns (r: Result<Byte, SnapshotError>)
      requires pos <= |bytes|
      modifies this
      ensures pos <= |bytes|
      ensures old(pos) < |bytes| ==> r == Ok(bytes[old(pos)]) && pos == old(pos) + 1
      ensures old(pos) >= |bytes| ==> r == Err(Truncated) && pos == old(pos)
    {
      if pos >= |bytes| {
        return Err(Truncated);
      }
      r := Ok(bytes[pos]);
      pos := pos + 1;
    }

    method NextUnsigned(width: nat) returns (r: Result<nat, SnapshotError>)
      requires pos <= |bytes|
      modifies this
      ensures pos <= |bytes|
      ensures match ReadUnsigned(bytes, old(pos), width)
        case Got(n, next) => r == Ok(n) && pos == next
        case Bad(e) => r == Err(e)
    {
      var n := 0;
      var scale := 1;
      var i := 0;
      while i < width
        invariant i <= width && pos == old(pos) + i <= |bytes|
        invariant old(pos) + width <= |bytes| ==>
          UnsignedOf(bytes[old(pos)..old(pos) + width]) == n + scale * UnsignedOf(bytes[pos..old(pos) + width])
      {
        var c := ReadByte();
        if c.Err? {
          return Err(c.error);
        }
        ghost var tail := if old(pos) + width <= |bytes| then bytes[pos - 1..old(pos) + width] else [c.value];
        assert UnsignedOf(tail) == c.value as int + 256 * UnsignedOf(tail[1..]);
        Distribute(scale, c.value as int, UnsignedOf(tail[1..]));
        n := n + scale * c.value as int;
        scale := scale * 256;
        i := i + 1;
      }
      return Ok(n);
    }

    method NextText(len: nat) returns (r: Result<Bytes, SnapshotError>)
      requires pos <= |bytes|
      modifies this
      ensures pos <= |bytes|
      ensures if old(pos) + len <= |bytes|
        then r == Ok(bytes[old(pos)..old(pos) + len]) && pos == old(pos) + len
        else r == Err(Truncated)
    {
      var s: Bytes := [];
      var i := 0;
      while i < len
        invariant i <= len && pos == old(pos) + i <= |bytes|
        invariant s == bytes[old(pos)..pos]
      {
        var c := ReadByte();
        if c.Err? {
          return Err(c.error);
        }
        s := s + [c.value];
        i := i + 1;
      }
      return Ok(s);
    }

    method NextValue() returns (r: Result<Value, SnapshotError>)
      requires pos <= |bytes|
      modifies this
      ensures pos <= |bytes|
      ensures match ReadValue(bytes, old(pos))
        case Got(v, next) => r == Ok(v) && pos == next
        case Bad(e) => r == Err(e)
    {
      var tag := NextUnsigned(1);
      if tag.Err? {
        return Err(tag.error);
      }
      if tag.value == 2 {
        var len := NextUnsigned(4);
        if len.Err? {
          return Err(len.error);
        }
        if len.value > MAX_SNAPSHOT_VALUES {
          return Err(StringTooLong);
        }
        var s := NextText(len.value);
        return if s.Err? then Err(s.error) else Ok(Str(s.value));
      }
      if tag.value == 1 {
        var n := NextUnsigned(4);
        return if n.Err? then Err(n.error) else Ok(Int(Wrap32(n.value)));
      }
      return Err(UnknownTag);
    }

    method NextBank() returns (r: Result<seq<Value>, SnapshotError>)
      requires pos <= |bytes|
      modifies this
      ensures pos <= |bytes|
      ensures match ReadBank(bytes, old(pos))
        case Got(vs, next) => r == Ok(vs) && pos == next
        case Bad(e) => r == Err(e)
    {
      hide ReadValue;
      var count := NextUnsigned(4);
      if count.Err? {
        return Err(count.error);
      }
      if count.value > MAX_SNAPSHOT_VALUES {
        return Err(TooManyValues);
      }
      ghost var start := pos;
      var vs := [];
      var i := 0;
      PrependTwice([], [], ReadMany(bytes, pos, count.value));
      while i < count.value
        invariant i <= count.value && pos <= |bytes|
        invariant ReadMany(bytes, start, count.value) ==
          Prepend(vs, ReadMany(bytes, pos, count.value - i))
      {
        var v := NextValue();
        if v.Err? {
          return Err(v.error);
        }
        PrependTwice(vs, [v.value], ReadMany(bytes, pos, count.value - i - 1));
        vs := vs + [v.value];
        i := i + 1;
      }
      assert vs + [] == vs;
      return Ok(vs);
    }
  }

  lemma Distribute(a: int, b: int, c: int)
    ensures a * (b + 256 * c) == a * b + (a * 256) * c
  {
  }

  method TakeSnapshot(vm: VM) returns (b: Bytes)
    ensures b == SnapshotBytes(vm.program, vm.State())
  {
    hide BankBytes, HeaderBytes, ScalarBytes;
    var w := new ByteWriter();
    WriteHeader(w, vm.program);
    WriteScalars(w, vm);
    w.WriteValues(vm.stack);
    w.WriteValues(vm.locals);
    w.WriteValues(vm.globals);
    return w.bytes;
  }

  method WriteHeader(w: ByteWriter, p: Program)
    modifies w
    ensures w.bytes == old(w.bytes) + HeaderBytes(p)
  {
    w.WriteText(MAGIC);
    w.WriteUnsigned(SNAPSHOT_VERSION, 2);
    w.WriteUnsigned(p.abiVersion, 4);
  }

  method WriteScalars(w: ByteWriter, vm: VM)
    modifies w
    ensures w.bytes == old(w.bytes) + ScalarBytes(vm.State())
  {
    w.WriteUnsigned(vm.ip, 8);
    w.WriteByte(if vm.finished then 1 else 0);
    w.WriteUnsigned(vm.total, 8);
  }

  method CheckHeader(p: Program, r: ByteReader) returns (e: Option<SnapshotError>)
    requires r.pos == 0
    modifies r
    ensures e == ReadHeader(p, r.bytes)
    ensures e.None? ==> r.pos == 10 <= |r.bytes|
  {
    var i := 0;
    while i < 4
      invariant i <= 4 && r.pos == i <= |r.bytes|
      invariant ReadMagic(r.bytes, 0, MAGIC) == ReadMagic(r.bytes, i, MAGIC[i..])
    {
      var c := r.ReadByte();
      if c.Err? {
        return Some(c.error);
      }
      if c.value != MAGIC[i] {
        return Some(BadMagic);
      }
      assert MAGIC[i..][1..] == MAGIC[i + 1..];
      i := i + 1;
    }
    var version := r.NextUnsigned(2);
    if version.Err? {
      return Some(version.error);
    }
    if version.value != SNAPSHOT_VERSION {
      return Some(BadVersion);
    }
    var abi := r.NextUnsigned(4);
    if abi.Err? {
      return Some(abi.error);
    }
    return if abi.value != p.abiVersion then Some(BadAbi) else None;
  }

  method RestoreSnapshot(vm: VM, b: Bytes) returns (e: Option<SnapshotError>)
    modifies vm
    ensures Restored(vm.State(), e) == Restore(vm.program, old(vm.State()), b)
    ensures vm.host == old(vm.host)
  {
    hide ReadHeader, ReadBank;
    var r := new ByteReader(b);
    var header := CheckHeader(vm.program, r);
    if header.Some? {
      return header;
    }
    var ip := r.NextUnsigned(8);
    if ip.Err? {
      return Some(ip.error);
    }
    vm.ip := ip.value;
    var flag := r.NextUnsigned(1);
    if flag.Err? {
      return Some(flag.error);
    }
    vm.finished := flag.value != 0;
    var total := r.NextUnsigned(8);
    if total.Err? {
      return Some(total.error);
    }
    vm.total := total.value;
    e := RestoreValues(vm, r);
  }

  method RestoreValues(vm: VM, r: ByteReader) returns (e: Option<SnapshotError>)
    requires r.pos <= |r.bytes|
    modifies vm`stack, vm`locals, vm`globals, r
    ensures Restored(vm.State(), e) == RestoreBanks(vm.program, old(vm.State()), r.bytes, old(r.pos))
  {
    hide ReadBank;
    var stack := r.NextBank();
    if stack.Err? {
      return Some(stack.error);
    }
    vm.stack := stack.value;
    var locals := r.NextBank();
    if locals.Err? {
      return Some(locals.error);
    }
    vm.locals := locals.value;
    var globals := r.NextBank();
    if globals.Err? {
      return Some(globals.error);
    }
    if |globals.value| != |vm.program.globalDefaults| {
      return Some(GlobalCountMismatch);
    }
    vm.globals := globals.value;
    return None;
  }
}
