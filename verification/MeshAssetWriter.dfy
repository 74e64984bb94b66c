/** The mesh asset's writer as the source has it: loops that push bytes onto a buffer. Domains are
    found vertex by vertex, coordinates and bindings packed one at a time, and every entry of a
    submesh appended in the order the source appends it. */
module MeshAssetWriter {
  import opened Prelude
  import opened Llsd
  import L = LlsdObject
  import opened MeshQuantize
  import opened MeshAsset
  import Laws = MeshAssetLaws

  // ----- packing -----

  /** The domain of some vectors, axis by axis. */
  method FindBounds(vs: seq<Vector>, d: nat, nudge: Float -> Float) returns (low: Vector, high: Vector)
    requires Cloud(vs, d)
    ensures low == Low(vs, d) && high == High(vs, d, nudge)
  {
    hide LowOf, HighOf;
    low, high := seq(d, _ => MAX_FLOAT), seq(d, _ => -MAX_FLOAT);
    NoLowHigh();
    assert vs[..0] == [];
    var i := 0;
    while i < |vs|
      invariant i <= |vs| && |low| == |high| == d
      invariant forall a: nat :: a < d ==> low[a] == LowOf(vs[..i], a) && high[a] == HighOf(vs[..i], a)
    {
      var axis := 0;
      ghost var low0, high0 := low, high;
      while axis < d
        invariant axis <= d && |low| == |high| == d
        invariant forall a: nat :: a < axis ==> low[a] == LowOf(vs[..i + 1], a) && high[a] == HighOf(vs[..i + 1], a)
        invariant forall a: nat :: axis <= a < d ==> low[a] == low0[a] && high[a] == high0[a]
      {
        OneMoreVector(vs, i, axis);
        assert vs[i] in vs;
        if vs[i][axis] < low[axis] {
          low := low[axis := vs[i][axis]];
        }
        if high[axis] < vs[i][axis] {
          high := high[axis := vs[i][axis]];
        }
        axis := axis + 1;
      }
      i := i + 1;
    }
    assert vs[..i] == vs;
    var axis := 0;
    while axis < d
      invariant axis <= d && |high| == d
      invariant forall a: nat :: a < axis ==> high[a] == Top(vs, a, nudge)
      invariant forall a: nat :: axis <= a < d ==> high[a] == HighOf(vs, a)
    {
      if !(high[axis] > low[axis]) {
        high := high[axis := nudge(low[axis])];
      }
      axis := axis + 1;
    }
  }

  lemma NoLowHigh()
    ensures forall a :: LowOf([], a) == MAX_FLOAT && HighOf([], a) == -MAX_FLOAT
  {
  }

  lemma OneMoreVector(vs: seq<Vector>, i: nat, a: nat)
    requires i < |vs| && forall v :: v in vs ==> a < |v|
    ensures var x, low, high := vs[i][a], LowOf(vs[..i], a), HighOf(vs[..i], a);
      && LowOf(vs[..i + 1], a) == (if x < low then x else low)
      && HighOf(vs[..i + 1], a) == (if high < x then x else high)
  {
    assert vs[..i + 1][..i] == vs[..i] && vs[i] in vs;
  }

  method PackRow(v: Vector, low: Vector, high: Vector) returns (packed: Bytes)
    requires |v| == |low| == |high|
    ensures packed == Stream(Row(v, low, high))
  {
    hide Quantize, Stream, Short;
    packed := [];
    var axis := 0;
    ghost var row := Row(v, low, high);
    NoStream();
    assert row[..0] == [];
    while axis < |v|
      invariant axis <= |v| && packed == Stream(row[..axis])
    {
      packed := packed + Short(Quantize(v[axis], low[axis], high[axis]));
      OneMoreShort(row, axis);
      axis := axis + 1;
    }
    assert row[..axis] == row;
  }

  lemma NoStream()
    ensures Stream([]) == []
  {
  }

  lemma OneMoreShort(ns: seq<uint16>, i: nat)
    requires i < |ns|
    ensures Stream(ns[..i + 1]) == Stream(ns[..i]) + Short(ns[i])
  {
    assert ns[..i + 1] == ns[..i] + [ns[i]];
    StreamConcat(ns[..i], [ns[i]]);
    assert Stream([ns[i]]) == Short(ns[i]) + [];
  }

  method PackCloud(vs: seq<Vector>, low: Vector, high: Vector) returns (packed: Bytes)
    requires |low| == |high| && Cloud(vs, |low|)
    ensures packed == Stream(Quanta(vs, low, high))
  {
    hide Row, Stream;
    packed := [];
    var i := 0;
    assert vs[0..] == vs;
    while i < |vs|
      invariant i <= |vs| && packed + Stream(Quanta(vs[i..], low, high)) == Stream(Quanta(vs, low, high))
    {
      assert vs[i] in vs;
      var row := PackRow(vs[i], low, high);
      assert vs[i..][0] == vs[i] && vs[i..][1..] == vs[i + 1..];
      StreamConcat(Row(vs[i], low, high), Quanta(vs[i + 1..], low, high));
      assert packed + (row + Stream(Quanta(vs[i + 1..], low, high))) == packed + row + Stream(Quanta(vs[i + 1..], low, high));
      packed := packed + row;
      i := i + 1;
    }
    NoStream();
    assert vs[i..] == [];
  }

  method PackIndices(ns: seq<uint16>) returns (packed: Bytes)
    ensures packed == Stream(ns)
  {
    hide Stream, Short;
    packed := [];
    NoStream();
    assert ns[..0] == [];
    var i := 0;
    while i < |ns|
      invariant i <= |ns| && packed == Stream(ns[..i])
    {
      packed := packed + Short(ns[i]);
      OneMoreShort(ns, i);
      i := i + 1;
    }
    assert ns[..i] == ns;
  }

  /** One vertex's bindings. */
  method PackBindings(list: seq<Influence>) returns (weights: Bytes)
    ensures weights == Bindings(list, 0)
  {
    hide Scaled16, Short;
    weights := [];
    var i, written := 0, 0;
    assert list[0..] == list;
    while i < |list| && written != 4
      invariant i <= |list| && written <= 4 && weights + Bindings(list[i..], written) == Bindings(list, 0)
    {
      var b := list[i];
      assert list[i..][0] == b && list[i..][1..] == list[i + 1..];
      if b.joint < 255 {
        ghost var rest := Bindings(list[i + 1..], written + 1);
        var one := [b.joint as char] + Short(Scaled16(b.weight));
        assert weights + ([b.joint as char] + (Short(Scaled16(b.weight)) + rest)) == weights + one + rest;
        weights := weights + one;
        written := written + 1;
      }
      i := i + 1;
    }
    if written < 4 {
      weights := weights + [MARKER as char];
    }
  }

  method PackWeights(s: Submesh) returns (weights: Bytes)
    ensures weights == Weights(s, |s.positions|)
  {
    hide Bindings;
    weights := [];
    var vertex := 0;
    while vertex < |s.positions|
      invariant vertex <= |s.positions| && weights == Weights(s, vertex)
    {
      var one := PackBindings(if vertex < |s.influences| then s.influences[vertex] else []);
      weights := weights + one;
      vertex := vertex + 1;
    }
  }

  // ----- entries together -----

  lemma {:induction false} MembersTogether(a: seq<Member>, b: seq<Member>)
    ensures WriteMembers(a + b) == WriteMembers(a) + WriteMembers(b)
    decreases |a|
  {
    hide WriteMember;
    if a == [] {
      assert a + b == b;
    } else {
      assert (a + b)[0] == a[0] && (a + b)[1..] == a[1..] + b;
      MembersTogether(a[1..], b);
    }
  }

  lemma {:induction false} PartMembersTogether(p: Platform, a: seq<Part>, b: seq<Part>)
    ensures PartMembers(p, a + b) == PartMembers(p, a) + PartMembers(p, b)
    decreases |a|
  {
    hide PartMember;
    if a == [] {
      assert a + b == b;
    } else {
      assert (a + b)[0] == a[0] && (a + b)[1..] == a[1..] + b;
      PartMembersTogether(p, a[1..], b);
    }
  }

  /** The bytes of some parts. */
  function PartBytes(p: Platform, parts: seq<Part>): Bytes {
    WriteMembers(PartMembers(p, parts))
  }

  lemma PartsTogether(p: Platform, a: seq<Part>, b: seq<Part>)
    ensures PartBytes(p, a + b) == PartBytes(p, a) + PartBytes(p, b)
  {
    hide WriteMembers, PartMembers;
    PartMembersTogether(p, a, b);
    MembersTogether(PartMembers(p, a), PartMembers(p, b));
  }

  lemma OnePart(p: Platform, part: Part)
    ensures PartBytes(p, [part]) == WriteMember(PartMember(p, part))
  {
    hide PartMember, WriteMember;
    assert [part][1..] == [] && PartMembers(p, [part]) == [PartMember(p, part)];
    OneMember(PartMember(p, part));
  }

  lemma OneMember(m: Member)
    ensures WriteMembers([m]) == WriteMember(m)
  {
    hide WriteMember;
    assert [m][1..] == [] && WriteMembers([m]) == WriteMember(m) + [];
  }

  lemma NoParts(p: Platform)
    ensures PartBytes(p, []) == []
  {
  }

  lemma TwoParts(p: Platform, a: Part, b: Part)
    ensures PartBytes(p, [a, b]) == WriteMember(PartMember(p, a)) + WriteMember(PartMember(p, b))
  {
    hide PartMember, WriteMember, PartBytes;
    assert [a, b] == [a] + [b];
    PartsTogether(p, [a], [b]);
    OnePart(p, a);
    OnePart(p, b);
  }

  class Buffer {
    var out: Bytes

    constructor ()
      ensures out == []
    {
      out := [];
    }

    method PutU32(value: nat)
      modifies this
      ensures out == old(out) + BigEndian(value, 4)
    {
      L.FourDigits(value);
      out := out + [ByteOf(value / 0x100_0000)];
      out := out + [ByteOf(value / 0x1_0000)];
      out := out + [ByteOf(value / 0x100)];
      out := out + [ByteOf(value)];
    }

    method Open(tag: Byte, entries: nat)
      modifies this
      ensures out == old(out) + ([tag] + BigEndian(entries, 4))
    {
      hide BigEndian;
      out := out + [tag];
      PutU32(entries);
    }

    method Close(tag: Byte)
      modifies this
      ensures out == old(out) + [tag]
    {
      out := out + [tag];
    }

    method PutReal(p: Platform, value: Float)
      modifies this
      ensures out == old(out) + Write(Real(p.bits(value)))
    {
      hide BigEndian;
      var bits := p.bits(value);
      out := out + ['r'];
      L.HighAndLow(bits);
      PutU32(bits / TWO_32);
      PutU32(bits % TWO_32);
    }

    method PutInteger(value: int32)
      modifies this
      ensures out == old(out) + Write(Integer(value))
    {
      hide BigEndian;
      out := out + ['i'];
      PutU32(value % TWO_32);
    }

    /** A tag, a length and the bytes: a key, a string or a binary. */
    method PutTagged(tag: Byte, text: Bytes)
      modifies this
      ensures out == old(out) + ([tag] + Counted(text))
    {
      hide BigEndian;
      out := out + [tag];
      PutU32(|text|);
      out := out + text;
    }

    method PutBoolean(value: bool)
      modifies this
      ensures out == old(out) + Write(Boolean(value))
    {
      out := out + [if value then '1' else '0'];
    }

    method PutVector(p: Platform, xs: Vector)
      modifies this
      ensures out == old(out) + Write(Array(Numbers(p, xs)))
    {
      hide BigEndian;
      ghost var es := Numbers(p, xs);
      Open('[', |xs|);
      ghost var start := out;
      var i := 0;
      assert es[0..] == es;
      while i < |xs|
        invariant i <= |xs| && out + WriteElements(es[i..]) == start + WriteElements(es)
      {
        ghost var before := out;
        PutReal(p, xs[i]);
        assert es[i..][0] == es[i] && es[i..][1..] == es[i + 1..];
        assert out + WriteElements(es[i + 1..]) == before + (Write(es[i]) + WriteElements(es[i + 1..]));
        i := i + 1;
      }
      assert es[i..] == [];
      NoElements();
      Close(']');
      ArrayInOrder(old(out), es);
    }

    method PutVectorEntry(p: Platform, name: Bytes, xs: Vector)
      modifies this
      ensures out == old(out) + WriteMember(Member(name, Array(Numbers(p, xs))))
    {
      hide BigEndian, WriteElements, Write, Numbers, Counted;
      PutTagged('k', name);
      PutVector(p, xs);
    }

    method PutBounds(p: Platform, name: Bytes, low: Vector, high: Vector)
      modifies this
      ensures out == old(out) + WriteMember(Member(name, Bounds(p, low, high)))
    {
      hide BigEndian, WriteMember, Write, Numbers, Counted;
      PutTagged('k', name);
      Open('{', 2);
      PutVectorEntry(p, MIN, low);
      PutVectorEntry(p, MAX, high);
      Close('}');
      BoundsInOrder(p, old(out), name, low, high);
    }

    method PutPayload(name: Bytes, payload: Bytes)
      modifies this
      ensures out == old(out) + WriteMember(Member(name, Binary(payload)))
    {
      hide BigEndian;
      PutTagged('k', name);
      PutTagged('b', payload);
    }

    method PutPlacing(p: Platform, s: Submesh)
      modifies this
      ensures out == old(out) + PartBytes(p, Placing(p, s))
    {
      hide WriteMember, PartBytes, Low, High, Stream, Quanta, Bounds;
      var low, high := FindBounds(s.positions, 3, p.nudge);
      TwoParts(p, PositionDomain(low, high), Packed(POSITION, Coordinates(p, s.positions, 3)));
      PutBounds(p, POSITION_DOMAIN, low, high);
      var packed := PackCloud(s.positions, low, high);
      PutPayload(POSITION, packed);
    }

    method PutBinding(p: Platform, s: Submesh)
      modifies this
      ensures out == old(out) + PartBytes(p, Binding(s))
    {
      hide WriteMember, PartBytes, Weights;
      NoParts(p);
      if s.influences != [] {
        var weights := PackWeights(s);
        OnePart(p, Packed(WEIGHTS, weights));
        PutPayload(WEIGHTS, weights);
      }
    }

    method PutFacing(p: Platform, s: Submesh)
      modifies this
      ensures out == old(out) + PartBytes(p, Facing(s))
    {
      hide WriteMember, PartBytes, Stream, Quanta;
      NoParts(p);
      if s.normals != [] {
        var packed := PackCloud(s.normals, UNIT_LOW, UNIT_HIGH);
        OnePart(p, Packed(NORMAL, packed));
        PutPayload(NORMAL, packed);
      }
    }

    method PutDressing(p: Platform, s: Submesh)
      modifies this
      ensures out == old(out) + PartBytes(p, Dressing(p, s))
    {
      hide WriteMember, PartBytes, Low, High, Stream, Quanta, Bounds;
      NoParts(p);
      if s.texcoords != [] {
        var low, high := FindBounds(s.texcoords, 2, p.nudge);
        TwoParts(p, TexcoordDomain(low, high), Packed(TEXCOORD, Coordinates(p, s.texcoords, 2)));
        PutBounds(p, TEXCOORD_DOMAIN, low, high);
        var packed := PackCloud(s.texcoords, low, high);
        PutPayload(TEXCOORD, packed);
      }
    }

    method PutListing(p: Platform, s: Submesh)
      modifies this
      ensures out == old(out) + PartBytes(p, Listing(s))
    {
      hide WriteMember, PartBytes, Stream;
      var packed := PackIndices(s.indices);
      OnePart(p, Packed(TRIANGLES, packed));
      PutPayload(TRIANGLES, packed);
    }

    method PutSubmesh(p: Platform, s: Submesh)
      modifies this
      ensures out == old(out) + Write(SubmeshDocument(p, s))
    {
      hide PartBytes, Placing, Binding, Facing, Dressing, Listing, BigEndian;
      var entries := 3;
      if s.normals != [] {
        entries := entries + 1;
      }
      if s.texcoords != [] {
        entries := entries + 2;
      }
      if s.influences != [] {
        entries := entries + 1;
      }
      Entries(p, s);
      Open('{', entries);
      PutPlacing(p, s);
      PutBinding(p, s);
      PutFacing(p, s);
      PutDressing(p, s);
      PutListing(p, s);
      Close('}');
      SubmeshInOrder(p, s, old(out), entries);
    }

    method PutLevel(p: Platform, level: Level)
      modifies this
      ensures out == old(out) + LevelText(p, level)
    {
      hide BigEndian, SubmeshDocument, Write;
      ghost var es := SubmeshDocuments(p, level);
      Open('[', |level|);
      ghost var start := out;
      assert level[0..] == level;
      var i := 0;
      while i < |level|
        invariant i <= |level| && out + WriteElements(SubmeshDocuments(p, level[i..])) == start + WriteElements(es)
      {
        ghost var before, rest := out, SubmeshDocuments(p, level[i + 1..]);
        PutSubmesh(p, level[i]);
        assert level[i..][0] == level[i] && level[i..][1..] == level[i + 1..];
        FirstElement(SubmeshDocument(p, level[i]), rest);
        assert out + WriteElements(rest) == before + (Write(SubmeshDocument(p, level[i])) + WriteElements(rest));
        i := i + 1;
      }
      assert level[i..] == [];
      NoElements();
      Close(']');
      ArrayInOrder(old(out), es);
    }

    method PutHull(p: Platform, hull: seq<Vec3>)
      modifies this
      ensures out == old(out) + HullText(p, hull)
    {
      hide BigEndian, WriteMember, Write, Numbers, Low, High, Stream, Quanta, HullText;
      var low, high := FindBounds(hull, 3, p.nudge);
      Open('{', 3);
      PutVectorEntry(p, MIN, low);
      PutVectorEntry(p, MAX, high);
      var packed := PackCloud(hull, low, high);
      PutPayload(VERTICES, packed);
      Close('}');
      HullInOrder(p, old(out), hull);
    }
  }

  lemma BoundsInOrder(p: Platform, o: Bytes, name: Bytes, low: Vector, high: Vector)
    ensures var a, b := WriteMember(Member(MIN, Array(Numbers(p, low)))), WriteMember(Member(MAX, Array(Numbers(p, high))));
      o + (['k'] + Counted(name)) + (['{'] + BigEndian(2, 4)) + a + b + ['}'] == o + WriteMember(Member(name, Bounds(p, low, high)))
  {
    hide BigEndian, WriteMember, Write, Numbers, Counted;
    var a, b := Member(MIN, Array(Numbers(p, low))), Member(MAX, Array(Numbers(p, high)));
    Laws.TwoEntries(a, b);
    KeyAndValue(Member(name, Bounds(p, low, high)));
  }

  lemma KeyAndValue(m: Member)
    ensures WriteMember(m) == ['k'] + (Counted(m.key) + Write(m.value))
  {
  }

  lemma HullInOrder(p: Platform, o: Bytes, hull: seq<Vec3>)
    ensures var a := WriteMember(Member(MIN, Array(Numbers(p, Low(hull, 3)))));
      var b := WriteMember(Member(MAX, Array(Numbers(p, High(hull, 3, p.nudge)))));
      var c := WriteMember(Member(VERTICES, Binary(Coordinates(p, hull, 3))));
      o + (['{'] + BigEndian(3, 4)) + a + b + c + ['}'] == o + HullText(p, hull)
  {
    hide BigEndian, WriteMember, Write, Numbers, Coordinates, Low, High;
    var a, b := Member(MIN, Array(Numbers(p, Low(hull, 3)))), Member(MAX, Array(Numbers(p, High(hull, 3, p.nudge))));
    Laws.ThreeEntries(a, b, Member(VERTICES, Binary(Coordinates(p, hull, 3))));
  }

  lemma Entries(p: Platform, s: Submesh)
    ensures |SubmeshParts(p, s)|
         == 3 + (if s.normals != [] then 1 else 0) + (if s.texcoords != [] then 2 else 0) + (if s.influences != [] then 1 else 0)
  {
    hide Low, High, Coordinates, Stream, Quanta, Weights;
  }

  lemma SubmeshInOrder(p: Platform, s: Submesh, o: Bytes, entries: nat)
    requires entries == |SubmeshParts(p, s)|
    ensures o + (['{'] + BigEndian(entries, 4)) + PartBytes(p, Placing(p, s)) + PartBytes(p, Binding(s))
              + PartBytes(p, Facing(s)) + PartBytes(p, Dressing(p, s)) + PartBytes(p, Listing(s)) + ['}']
         == o + Write(SubmeshDocument(p, s))
  {
    hide WriteMembers, PartMembers, Placing, Binding, Facing, Dressing, Listing, BigEndian;
    var a, b, c, d, e := Placing(p, s), Binding(s), Facing(s), Dressing(p, s), Listing(s);
    PartsTogether(p, a + b + c + d, e);
    PartsTogether(p, a + b + c, d);
    PartsTogether(p, a + b, c);
    PartsTogether(p, a, b);
    var body := WriteMembers(PartMembers(p, SubmeshParts(p, s)));
    assert Write(SubmeshDocument(p, s)) == ['{'] + (BigEndian(entries, 4) + (body + ['}']));
  }

  lemma FirstElement(e: Llsd, rest: seq<Llsd>)
    ensures WriteElements([e] + rest) == Write(e) + WriteElements(rest)
  {
    assert ([e] + rest)[1..] == rest;
  }

  lemma NoElements()
    ensures WriteElements([]) == []
  {
  }

  lemma ArrayInOrder(o: Bytes, es: seq<Llsd>)
    ensures o + (['['] + BigEndian(|es|, 4)) + WriteElements(es) + [']'] == o + Write(Array(es))
  {
    hide BigEndian, WriteElements;
  }
}
