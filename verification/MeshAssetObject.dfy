/** Reading a whole mesh asset, with the source's loops over entries, vertices and blocks: bytes
    are unpacked axis by axis, buffers grow until a block fits, and levels that are absent are the
    high one again. Every method answers what the reading function of the same bytes answers. */
module MeshAssetObject {
  import opened Prelude
  import opened Llsd
  import opened LlsdObject
  import opened MeshQuantize
  import opened MeshAsset
  import opened MeshAssetReader

  // ----- unpacking -----

  lemma {:induction false} ShortsDrop(b: Bytes, i: nat)
    requires 2 * i <= |b|
    ensures Shorts(b)[i..] == Shorts(b[2 * i..])
  {
    if i == 0 {
      assert b[0..] == b;
    } else {
      ShortsDrop(b[2..], i - 1);
      assert b[2..][2 * (i - 1)..] == b[2 * i..];
      assert Shorts(b)[i..] == Shorts(b[2..])[i - 1..];
    }
  }

  /** The vectors packed in some bytes, axis by axis. */
  method Unpack(b: Bytes, low: Vector, high: Vector) returns (vs: seq<Vector>)
    requires 0 < |low| == |high|
    ensures vs == Points(Shorts(b), low, high)
  {
    hide Dequantize, Points, Point, Shorts;
    var d := |low|;
    var start := 0;
    vs := [];
    assert b[0..] == b && [] + Points(Shorts(b), low, high) == Points(Shorts(b), low, high);
    while start + 2 * d <= |b|
      invariant start <= |b|
      invariant Points(Shorts(b), low, high) == vs + Points(Shorts(b[start..]), low, high)
    {
      var v := UnpackOne(b, start, low, high);
      OnePoint(b[start..], low, high);
      assert b[start..][2 * d..] == b[start + 2 * d..];
      Regroup(vs, v, Points(Shorts(b[start + 2 * d..]), low, high));
      vs := vs + [v];
      start := start + 2 * d;
    }
    NoPoint(b[start..], low, high);
    assert vs + [] == vs;
  }

  lemma Regroup(vs: seq<Vector>, v: Vector, rest: seq<Vector>)
    ensures vs + ([v] + rest) == vs + [v] + rest
  {
  }

  lemma NoPoint(b: Bytes, low: Vector, high: Vector)
    requires 0 < |low| == |high| && |b| < 2 * |low|
    ensures Points(Shorts(b), low, high) == []
  {
  }

  lemma OnePoint(b: Bytes, low: Vector, high: Vector)
    requires 0 < |low| == |high| && 2 * |low| <= |b|
    ensures Points(Shorts(b), low, high)
         == [Point(Shorts(b)[..|low|], low, high)] + Points(Shorts(b[2 * |low|..]), low, high)
  {
    hide Shorts, Point;
    ShortsDrop(b, |low|);
  }

  method UnpackOne(b: Bytes, start: nat, low: Vector, high: Vector) returns (v: Vector)
    requires 0 < |low| == |high| && start + 2 * |low| <= |b|
    ensures v == Point(Shorts(b[start..])[..|low|], low, high)
  {
    hide Dequantize, Shorts;
    v := [];
    while |v| < |low|
      invariant |v| <= |low|
      invariant forall a :: 0 <= a < |v| ==> v[a] == Dequantize(Shorts(b[start..])[a], low[a], high[a])
    {
      var axis := |v|;
      ShortsAt(b[start..], axis);
      assert ShortAt(b[start..], 2 * axis) == ShortAt(b, start + 2 * axis);
      v := v + [Dequantize(ShortAt(b, start + 2 * axis), low[axis], high[axis])];
    }
  }

  method UnpackIndices(b: Bytes) returns (ns: seq<uint16>)
    ensures ns == Shorts(b)
  {
    hide Shorts;
    ns := [];
    var position := 0;
    while position + 1 < |b|
      invariant position == 2 * |ns| && position <= |b|
      invariant forall i :: 0 <= i < |ns| ==> i < |Shorts(b)| && ns[i] == Shorts(b)[i]
    {
      ShortsAt(b, |ns|);
      ns := ns + [ShortAt(b, position)];
      position := position + 2;
    }
  }

  method Assemble(f: Fields) returns (r: Option<Submesh>)
    ensures r == Assembled(f)
  {
    hide Points, Shorts;
    if |f.positions| % 6 != 0 || |f.triangles| % 6 != 0 {
      return None;
    }
    var positions := Unpack(f.positions, f.low, f.high);
    var normals: seq<Vec3>, texcoords: seq<Vec2> := [], [];
    if f.normals != [] {
      if |f.normals| != |f.positions| {
        return None;
      }
      normals := Unpack(f.normals, UNIT_LOW, UNIT_HIGH);
    }
    if f.texcoords != [] {
      if |f.texcoords| != |f.positions| / 6 * 4 {
        return None;
      }
      texcoords := Unpack(f.texcoords, f.uvLow, f.uvHigh);
    }
    var indices := UnpackIndices(f.triangles);
    return Some(Submesh(positions, normals, texcoords, indices, []));
  }

  // ----- levels -----

  method ReadDomainOf(reader: Cursor, p: Platform, domain: Domain) returns (r: Option<Domain>)
    requires |domain.low| == |domain.high|
    modifies reader
    ensures Answers(ReadDomain(p, reader.data, old(reader.at), |domain.low|, domain), r, reader.at)
  {
    hide ReadOpen, ReadVector, ReadKey;
    var count := reader.Open('{');
    if count == None {
      return None;
    }
    var d := |domain.low|;
    var bounds, index := domain, 0;
    ghost var start := reader.at;
    while index < count.value
      invariant index <= count.value && |bounds.low| == |bounds.high| == d
      invariant ReadBounds(p, reader.data, start, count.value, d, domain)
             == ReadBounds(p, reader.data, reader.at, count.value - index, d, bounds)
    {
      var name := reader.Key();
      if name == None {
        return None;
      }
      var value := reader.Components(p, d);
      if value == None {
        return None;
      }
      bounds := if name.value == MIN then bounds.(low := value.value) else bounds.(high := value.value);
      index := index + 1;
    }
    var ok := reader.Expect('}');
    return if ok then Some(bounds) else None;
  }

  method ReadFieldOf(reader: Cursor, p: Platform, name: Bytes, f: Fields) returns (r: Option<Fields>)
    modifies reader
    ensures Answers(ReadField(p, reader.data, old(reader.at), name, f), r, reader.at)
  {
    hide ReadDomain, ReadTagged, Skip, WithPayload;
    if name == POSITION_DOMAIN {
      var d := ReadDomainOf(reader, p, Domain(f.low, f.high));
      return if d == None then None else Some(f.(low := d.value.low, high := d.value.high));
    } else if name == TEXCOORD_DOMAIN {
      var d := ReadDomainOf(reader, p, Domain(f.uvLow, f.uvHigh));
      return if d == None then None else Some(f.(uvLow := d.value.low, uvHigh := d.value.high));
    } else if name == POSITION || name == NORMAL || name == TEXCOORD || name == TRIANGLES {
      var payload := reader.Tagged('b');
      return if payload == None then None else Some(WithPayload(f, name, payload.value));
    } else {
      var ok := reader.Skip();
      return if ok then Some(f) else None;
    }
  }

  method ReadSubmeshOf(reader: Cursor, p: Platform) returns (r: Option<Submesh>)
    modifies reader
    ensures Answers(ReadSubmesh(p, reader.data, old(reader.at)), r, reader.at)
  {
    hide ReadOpen, ReadKey, ReadField, Assembled;
    var count := reader.Open('{');
    if count == None {
      return None;
    }
    var f, index := NO_FIELDS, 0;
    ghost var start := reader.at;
    while index < count.value
      invariant index <= count.value
      invariant ReadFields(p, reader.data, start, count.value, NO_FIELDS)
             == ReadFields(p, reader.data, reader.at, count.value - index, f)
    {
      var name := reader.Key();
      if name == None {
        return None;
      }
      var g := ReadFieldOf(reader, p, name.value, f);
      if g == None {
        return None;
      }
      f := g.value;
      index := index + 1;
    }
    var ok := reader.Expect('}');
    if !ok {
      return None;
    }
    r := Assemble(f);
  }

  /** What `Decompress` says, by growing a buffer. */
  method DecompressBlock(p: Platform, packed: Bytes) returns (raw: Bytes)
    ensures raw == Decompress(p, packed)
  {
    var capacity := FirstCapacity(packed);
    var result := p.inflate(packed);
    while capacity <= LARGEST
      invariant capacity > 0 && Decompress(p, packed) == Inflated(p, packed, capacity)
      decreases LARGEST - capacity
    {
      if result == None {
        return [];
      }
      if |result.value| <= capacity {
        return result.value;
      }
      capacity := 4 * capacity;
    }
    return [];
  }

  method DecodeLevel(p: Platform, packed: Bytes) returns (r: Option<Level>)
    ensures r == ReadLevel(p, Decompress(p, packed))
  {
    hide ReadOpen, ReadSubmesh, Decompress;
    var raw := DecompressBlock(p, packed);
    if raw == [] {
      return None;
    }
    var reader := new Cursor(raw);
    var count := reader.Open('[');
    if count == None {
      return None;
    }
    var level: Level := [];
    ghost var start := reader.at;
    AfterNone(ReadSubmeshes(p, raw, start, count.value));
    while |level| < count.value
      invariant |level| <= count.value && reader.data == raw
      invariant ReadSubmeshes(p, raw, start, count.value)
             == After(level, ReadSubmeshes(p, raw, reader.at, count.value - |level|))
    {
      ghost var before := reader.at;
      var submesh := ReadSubmeshOf(reader, p);
      if submesh == None {
        return None;
      }
      ghost var rest := ReadSubmeshes(p, raw, reader.at, count.value - |level| - 1);
      AfterOne(level, submesh.value, rest);
      assert ReadSubmeshes(p, raw, before, count.value - |level|) == Before(submesh.value, rest);
      level := level + [submesh.value];
    }
    assert level + [] == level;
    var ok := reader.Expect(']');
    return if ok then Some(level) else None;
  }

  // ----- the hull -----

  method ReadHullFieldOf(reader: Cursor, p: Platform, name: Bytes, f: HullFields) returns (r: Option<HullFields>)
    modifies reader
    ensures Answers(ReadHullField(p, reader.data, old(reader.at), name, f), r, reader.at)
  {
    hide ReadVector, ReadTagged, Skip;
    if name == MIN || name == MAX {
      var v := reader.Components(p, 3);
      return if v == None then None else Some(if name == MIN then f.(low := v.value) else f.(high := v.value));
    } else if name == VERTICES {
      var payload := reader.Tagged('b');
      return if payload == None then None else Some(f.(vertices := payload.value));
    } else {
      var ok := reader.Skip();
      return if ok then Some(f) else None;
    }
  }

  method DecodeHull(p: Platform, packed: Bytes) returns (r: Option<seq<Vec3>>)
    ensures r == ReadHull(p, Decompress(p, packed))
  {
    hide ReadOpen, ReadKey, ReadHullField, Decompress, Points, Shorts;
    var raw := DecompressBlock(p, packed);
    if raw == [] {
      return None;
    }
    var reader := new Cursor(raw);
    var count := reader.Open('{');
    if count == None {
      return None;
    }
    var f, index := HullFields([0.0, 0.0, 0.0], [0.0, 0.0, 0.0], []), 0;
    ghost var start, none := reader.at, f;
    while index < count.value
      invariant index <= count.value && reader.data == raw
      invariant ReadHullFields(p, raw, start, count.value, none) == ReadHullFields(p, raw, reader.at, count.value - index, f)
    {
      var name := reader.Key();
      if name == None {
        return None;
      }
      var g := ReadHullFieldOf(reader, p, name.value, f);
      if g == None {
        return None;
      }
      f := g.value;
      index := index + 1;
    }
    if |f.vertices| % 6 != 0 {
      return None;
    }
    var hull := Unpack(f.vertices, f.low, f.high);
    return Some(hull);
  }

  // ----- the skin -----

  method ReadNamesOf(reader: Cursor) returns (r: Option<seq<Bytes>>)
    modifies reader
    ensures Answers(ReadNameArray(reader.data, old(reader.at)), r, reader.at)
  {
    hide ReadOpen, ReadTagged;
    var count := reader.Open('[');
    if count == None {
      return None;
    }
    var names: seq<Bytes> := [];
    ghost var start := reader.at;
    AfterNone(ReadNames(reader.data, start, count.value));
    while |names| < count.value
      invariant |names| <= count.value
      invariant ReadNames(reader.data, start, count.value)
             == After(names, ReadNames(reader.data, reader.at, count.value - |names|))
    {
      ghost var before := reader.at;
      var name := reader.Tagged('s');
      if name == None {
        return None;
      }
      ghost var rest := ReadNames(reader.data, reader.at, count.value - |names| - 1);
      AfterOne(names, name.value, rest);
      assert ReadNames(reader.data, before, count.value - |names|) == Before(name.value, rest);
      names := names + [name.value];
    }
    assert names + [] == names;
    var ok := reader.Expect(']');
    return if ok then Some(names) else None;
  }

  method ReadMatricesOf(reader: Cursor, p: Platform) returns (r: Option<seq<Matrix>>)
    modifies reader
    ensures Answers(ReadMatrixArray(p, reader.data, old(reader.at)), r, reader.at)
  {
    hide ReadOpen, ReadVector;
    var count := reader.Open('[');
    if count == None {
      return None;
    }
    var matrices: seq<Matrix> := [];
    ghost var start := reader.at;
    AfterNone(ReadMatrices(p, reader.data, start, count.value));
    while |matrices| < count.value
      invariant |matrices| <= count.value
      invariant ReadMatrices(p, reader.data, start, count.value)
             == After(matrices, ReadMatrices(p, reader.data, reader.at, count.value - |matrices|))
    {
      ghost var before := reader.at;
      var matrix := reader.Components(p, 16);
      if matrix == None {
        return None;
      }
      ghost var rest := ReadMatrices(p, reader.data, reader.at, count.value - |matrices| - 1);
      AfterOne(matrices, matrix.value, rest);
      assert ReadMatrices(p, reader.data, before, count.value - |matrices|) == Before(matrix.value, rest);
      matrices := matrices + [matrix.value];
    }
    assert matrices + [] == matrices;
    var ok := reader.Expect(']');
    return if ok then Some(matrices) else None;
  }

  method ReadSkinFieldOf(reader: Cursor, p: Platform, name: Bytes, s: Skin) returns (r: Option<Skin>)
    modifies reader
    ensures Answers(ReadSkinField(p, reader.data, old(reader.at), name, s), r, reader.at)
  {
    hide ReadNameArray, ReadMatrixArray, ReadVector, ReadReal, ReadBoolean, Skip;
    if name == JOINTS {
      var names := ReadNamesOf(reader);
      return if names == None then None else Some(s.(joints := s.joints + names.value));
    } else if name == INVERSE_BIND {
      var ms := ReadMatricesOf(reader, p);
      return if ms == None then None else Some(s.(inverseBind := s.inverseBind + ms.value));
    } else if name == ALTERNATE_BIND {
      var ms := ReadMatricesOf(reader, p);
      return if ms == None then None else Some(s.(alternateInverseBind := s.alternateInverseBind + ms.value));
    } else if name == BIND_SHAPE {
      var m := reader.Components(p, 16);
      return if m == None then None else Some(s.(bindShape := m.value));
    } else if name == PELVIS {
      var x := reader.Real(p);
      return if x == None then None else Some(s.(pelvisOffset := x.value));
    } else if name == LOCK_SCALE {
      var x := reader.Boolean();
      return if x == None then None else Some(s.(lockScale := x.value));
    } else {
      var ok := reader.Skip();
      return if ok then Some(s) else None;
    }
  }

  method DecodeSkin(p: Platform, packed: Bytes) returns (r: Option<Skin>)
    ensures r == ReadSkin(p, Decompress(p, packed))
  {
    hide ReadOpen, ReadKey, ReadSkinField, Decompress;
    var raw := DecompressBlock(p, packed);
    if raw == [] {
      return None;
    }
    var reader := new Cursor(raw);
    var count := reader.Open('{');
    if count == None {
      return None;
    }
    var skin, index := NO_SKIN, 0;
    ghost var start := reader.at;
    while index < count.value
      invariant index <= count.value && reader.data == raw
      invariant ReadSkinFields(p, raw, start, count.value, NO_SKIN) == ReadSkinFields(p, raw, reader.at, count.value - index, skin)
    {
      var name := reader.Key();
      if name == None {
        return None;
      }
      var more := ReadSkinFieldOf(reader, p, name.value, skin);
      if more == None {
        return None;
      }
      skin := more.value;
      index := index + 1;
    }
    return if skin.joints == [] || |skin.joints| != |skin.inverseBind| then None else Some(skin);
  }

  // ----- the whole asset -----

  method ReadExtentOf(reader: Cursor) returns (r: Option<Extent>)
    modifies reader
    ensures Answers(ReadExtent(reader.data, old(reader.at)), r, reader.at)
  {
    hide ReadOpen, ReadKey, ReadInteger, WithExtent;
    var count := reader.Open('{');
    if count == None {
      return None;
    }
    var extent, index := Extent(0, 0), 0;
    ghost var start := reader.at;
    while index < count.value
      invariant index <= count.value
      invariant ReadExtentFields(reader.data, start, count.value, Extent(0, 0))
             == ReadExtentFields(reader.data, reader.at, count.value - index, extent)
    {
      var name := reader.Key();
      if name == None {
        return None;
      }
      var value := reader.Integer();
      if value == None {
        return None;
      }
      extent := WithExtent(extent, name.value, value.value % TWO_32);
      index := index + 1;
    }
    var ok := reader.Expect('}');
    return if ok then Some(extent) else None;
  }

  method ReadEntryOf(reader: Cursor, name: Bytes, known: Extents) returns (r: Option<Extents>)
    modifies reader
    ensures Answers(ReadDirectoryEntry(reader.data, old(reader.at), name, known), r, reader.at)
  {
    hide ReadExtent, Skip;
    var next := reader.Peek();
    if next == Some('{') {
      var extent := ReadExtentOf(reader);
      return if extent == None then None else Some(known[name := extent.value]);
    }
    var ok := reader.Skip();
    return if ok then Some(known) else None;
  }

  method ReadHeaderOf(reader: Cursor) returns (r: Option<Extents>)
    requires reader.at == 0
    modifies reader
    ensures Answers(ReadHeader(reader.data), r, reader.at)
  {
    hide ReadOpen, ReadKey, ReadDirectoryEntry;
    var count := reader.Open('{');
    if count == None {
      return None;
    }
    var known: Extents, index := map[], 0;
    ghost var start := reader.at;
    while index < count.value
      invariant index <= count.value
      invariant ReadExtents(reader.data, start, count.value, map[])
             == ReadExtents(reader.data, reader.at, count.value - index, known)
    {
      var name := reader.Key();
      if name == None {
        return None;
      }
      var more := ReadEntryOf(reader, name.value, known);
      if more == None {
        return None;
      }
      known := more.value;
      index := index + 1;
    }
    var ok := reader.Expect('}');
    return if ok then Some(known) else None;
  }

  method ReadLevelOr(p: Platform, block: Option<Bytes>, high: Level) returns (r: Option<Level>)
    ensures r == LevelOr(p, block, high)
  {
    hide ReadLevel, Decompress;
    if block == None {
      return Some(high);
    }
    r := DecodeLevel(p, block.value);
  }

  method ParseAsset(p: Platform, content: Bytes) returns (r: Option<Mesh>)
    ensures r == Parse(p, content)
  {
    hide ReadHeader, BlockAt, ReadLevel, ReadHull, ReadSkin, Decompress, LevelOr;
    var reader := new Cursor(content);
    var known := ReadHeaderOf(reader);
    if known == None {
      return None;
    }
    var begin, named := reader.at, known.value;
    var block := BlockAt(content, begin, named, HIGH_LOD);
    if block == None {
      return None;
    }
    var high := DecodeLevel(p, block.value);
    if high == None {
      return None;
    }
    var medium := ReadLevelOr(p, BlockAt(content, begin, named, MEDIUM_LOD), high.value);
    if medium == None {
      return None;
    }
    var low := ReadLevelOr(p, BlockAt(content, begin, named, LOW_LOD), high.value);
    if low == None {
      return None;
    }
    var lowest := ReadLevelOr(p, BlockAt(content, begin, named, LOWEST_LOD), high.value);
    if lowest == None {
      return None;
    }
    var skin, hull: seq<Vec3> := None, [];
    block := BlockAt(content, begin, named, SKIN);
    if block.Some? {
      skin := DecodeSkin(p, block.value);
      if skin == None {
        return None;
      }
    }
    block := BlockAt(content, begin, named, PHYSICS);
    if block.Some? {
      var points := DecodeHull(p, block.value);
      if points == None {
        return None;
      }
      hull := points.value;
    }
    return Some(Mesh(high.value, medium.value, low.value, lowest.value, hull, skin));
  }
}
