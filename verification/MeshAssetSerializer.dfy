/** Writing a skin and a whole mesh asset, with the source's loops: the tables of a skin, the
    check of what can be carried, the blocks, and the directory that says where each of them lies.
    Every method ends with exactly the bytes of the document it is named after. */
module MeshAssetSerializer {
  import opened Prelude
  import opened Llsd
  import opened MeshAsset
  import opened MeshAssetWriter
  import Laws = MeshAssetLaws

  // ----- the skin -----

  method PutNames(buffer: Buffer, names: seq<Bytes>)
    modifies buffer
    ensures buffer.out == old(buffer.out) + Write(Array(Texts(names)))
  {
    hide BigEndian, Counted;
    ghost var es := Texts(names);
    buffer.Open('[', |names|);
    ghost var start := buffer.out;
    assert names[0..] == names;
    var i := 0;
    while i < |names|
      invariant i <= |names| && buffer.out + WriteElements(Texts(names[i..])) == start + WriteElements(es)
    {
      ghost var before, rest := buffer.out, Texts(names[i + 1..]);
      buffer.PutTagged('s', names[i]);
      assert names[i..][0] == names[i] && names[i..][1..] == names[i + 1..];
      FirstElement(Text(names[i]), rest);
      assert buffer.out + WriteElements(rest) == before + (Write(Text(names[i])) + WriteElements(rest));
      i := i + 1;
    }
    assert names[i..] == [];
    NoElements();
    buffer.Close(']');
    ArrayInOrder(old(buffer.out), es);
  }

  method PutMatrices(buffer: Buffer, p: Platform, ms: seq<Matrix>)
    modifies buffer
    ensures buffer.out == old(buffer.out) + Write(Array(MatrixDocuments(p, ms)))
  {
    hide BigEndian, Numbers;
    ghost var es := MatrixDocuments(p, ms);
    buffer.Open('[', |ms|);
    ghost var start := buffer.out;
    assert ms[0..] == ms;
    var i := 0;
    while i < |ms|
      invariant i <= |ms| && buffer.out + WriteElements(MatrixDocuments(p, ms[i..])) == start + WriteElements(es)
    {
      ghost var before, rest := buffer.out, MatrixDocuments(p, ms[i + 1..]);
      buffer.PutVector(p, ms[i]);
      assert ms[i..][0] == ms[i] && ms[i..][1..] == ms[i + 1..];
      FirstElement(Array(Numbers(p, ms[i])), rest);
      assert buffer.out + WriteElements(rest) == before + (Write(Array(Numbers(p, ms[i]))) + WriteElements(rest));
      i := i + 1;
    }
    assert ms[i..] == [];
    NoElements();
    buffer.Close(']');
    ArrayInOrder(old(buffer.out), es);
  }

  method PutMatrixEntry(buffer: Buffer, p: Platform, name: Bytes, ms: seq<Matrix>)
    modifies buffer
    ensures buffer.out == old(buffer.out) + WriteMember(Member(name, Array(MatrixDocuments(p, ms))))
  {
    hide Write, Counted, MatrixDocuments;
    buffer.PutTagged('k', name);
    PutMatrices(buffer, p, ms);
  }

  /** What some entries of a skin come to. */
  function SkinBytes(p: Platform, parts: seq<SkinPart>): Bytes {
    WriteMembers(SkinMembers(p, parts))
  }

  lemma {:induction false} OneMoreSkinPart(p: Platform, parts: seq<SkinPart>, part: SkinPart)
    ensures SkinBytes(p, parts + [part]) == SkinBytes(p, parts) + WriteMember(SkinMember(p, part))
    decreases |parts|
  {
    hide SkinMember, WriteMember;
    if parts == [] {
      assert [] + [part] == [part] && [part][1..] == [] && SkinMembers(p, [part]) == [SkinMember(p, part)];
      OneMember(SkinMember(p, part));
    } else {
      assert (parts + [part])[0] == parts[0] && (parts + [part])[1..] == parts[1..] + [part];
      OneMoreSkinPart(p, parts[1..], part);
      SkinHead(p, parts);
      SkinHead(p, parts + [part]);
    }
  }

  lemma SkinHead(p: Platform, parts: seq<SkinPart>)
    requires parts != []
    ensures SkinBytes(p, parts) == WriteMember(SkinMember(p, parts[0])) + SkinBytes(p, parts[1..])
  {
    assert SkinMembers(p, parts)[1..] == SkinMembers(p, parts[1..]);
  }

  method PutSkinPart(buffer: Buffer, p: Platform, part: SkinPart)
    modifies buffer
    ensures buffer.out == old(buffer.out) + WriteMember(SkinMember(p, part))
  {
    hide Write, Counted, MatrixDocuments, Texts, Numbers;
    match part {
      case Joints(names) =>
        buffer.PutTagged('k', JOINTS);
        PutNames(buffer, names);
      case InverseBind(ms) => PutMatrixEntry(buffer, p, INVERSE_BIND, ms);
      case BindShape(m) => buffer.PutVectorEntry(p, BIND_SHAPE, m);
      case AlternateBind(ms) => PutMatrixEntry(buffer, p, ALTERNATE_BIND, ms);
      case Pelvis(x) =>
        buffer.PutTagged('k', PELVIS);
        buffer.PutReal(p, x);
      case LockScale(locked) =>
        buffer.PutTagged('k', LOCK_SCALE);
        buffer.PutBoolean(locked);
    }
  }

  /** Nothing when the tables of a skin disagree in length. */
  method EncodeSkin(p: Platform, s: Skin) returns (packed: Bytes)
    ensures packed == if ValidSkin(s) then p.deflate(SkinText(p, s)) else []
  {
    hide BigEndian, WriteMember, SkinBytes, SkinMember;
    if s.joints == [] || |s.joints| != |s.inverseBind| {
      return [];
    }
    if s.alternateInverseBind != [] && |s.alternateInverseBind| != |s.joints| {
      return [];
    }
    var buffer := new Buffer();
    var entries := if s.alternateInverseBind != [] then 6 else 5;
    buffer.Open('{', entries);
    ghost var start := buffer.out;
    NoSkinParts(p);
    ghost var done: seq<SkinPart> := [];
    PutSkinPart(buffer, p, Joints(s.joints));
    OneMoreSkinPart(p, done, Joints(s.joints));
    done := done + [Joints(s.joints)];
    PutSkinPart(buffer, p, InverseBind(s.inverseBind));
    OneMoreSkinPart(p, done, InverseBind(s.inverseBind));
    done := done + [InverseBind(s.inverseBind)];
    PutSkinPart(buffer, p, BindShape(s.bindShape));
    OneMoreSkinPart(p, done, BindShape(s.bindShape));
    done := done + [BindShape(s.bindShape)];
    assert buffer.out == start + SkinBytes(p, done);
    if s.alternateInverseBind != [] {
      PutSkinPart(buffer, p, AlternateBind(s.alternateInverseBind));
      OneMoreSkinPart(p, done, AlternateBind(s.alternateInverseBind));
      done := done + [AlternateBind(s.alternateInverseBind)];
    }
    PutSkinPart(buffer, p, Pelvis(s.pelvisOffset));
    OneMoreSkinPart(p, done, Pelvis(s.pelvisOffset));
    done := done + [Pelvis(s.pelvisOffset)];
    PutSkinPart(buffer, p, LockScale(s.lockScale));
    OneMoreSkinPart(p, done, LockScale(s.lockScale));
    done := done + [LockScale(s.lockScale)];
    assert buffer.out == start + SkinBytes(p, done);
    buffer.Close('}');
    assert done == SkinParts(s) && entries == |done|;
    SkinInOrder(p, s);
    return p.deflate(buffer.out);
  }

  lemma NoSkinParts(p: Platform)
    ensures SkinBytes(p, []) == []
  {
  }

  lemma SkinInOrder(p: Platform, s: Skin)
    ensures [] + (['{'] + BigEndian(|SkinParts(s)|, 4)) + SkinBytes(p, SkinParts(s)) + ['}'] == SkinText(p, s)
  {
    hide BigEndian, WriteMembers, SkinMembers, SkinParts;
  }

  // ----- what can be carried -----

  method IsValidLevel(level: Level) returns (ok: bool)
    ensures ok == ValidLevel(level)
  {
    var i := 0;
    while i < |level|
      invariant i <= |level| && forall s :: s in level[..i] ==> ValidSubmesh(s)
    {
      var s := level[i];
      assert s in level;
      if s.positions == [] || s.indices == [] || |s.indices| % 3 != 0 {
        return false;
      }
      if |s.positions| > 65535 {
        return false;
      }
      if s.normals != [] && |s.normals| != |s.positions| {
        return false;
      }
      if s.texcoords != [] && |s.texcoords| != |s.positions| {
        return false;
      }
      var k := 0;
      while k < |s.indices|
        invariant k <= |s.indices| && forall j :: 0 <= j < k ==> s.indices[j] < |s.positions|
      {
        if s.indices[k] >= |s.positions| {
          assert s.indices[k] in s.indices;
          return false;
        }
        k := k + 1;
      }
      assert ValidSubmesh(s);
      i := i + 1;
    }
    assert level[..i] == level;
    return level != [];
  }

  method EncodeLevel(p: Platform, level: Level) returns (packed: Bytes)
    ensures packed == p.deflate(LevelText(p, level))
  {
    hide LevelText;
    var buffer := new Buffer();
    buffer.PutLevel(p, level);
    assert buffer.out == LevelText(p, level);
    return p.deflate(buffer.out);
  }

  method EncodeHull(p: Platform, hull: seq<Vec3>) returns (packed: Bytes)
    ensures packed == p.deflate(HullText(p, hull))
  {
    hide HullText;
    var buffer := new Buffer();
    buffer.PutHull(p, hull);
    assert buffer.out == HullText(p, hull);
    return p.deflate(buffer.out);
  }

  // ----- the whole asset -----

  method PutDirectoryEntry(buffer: Buffer, block: Block, offset: nat)
    modifies buffer
    ensures buffer.out == old(buffer.out) + WriteMember(DirectoryEntry(block, offset))
  {
    hide BigEndian, Write, Counted, WriteMember, Wrap32;
    ghost var at, long := Member(OFFSET, Integer(Wrap32(offset))), Member(SIZE, Integer(Wrap32(|block.bytes|)));
    buffer.PutTagged('k', block.name);
    buffer.Open('{', 2);
    PutIntegerEntry(buffer, OFFSET, Wrap32(offset));
    PutIntegerEntry(buffer, SIZE, Wrap32(|block.bytes|));
    buffer.Close('}');
    Laws.TwoEntries(at, long);
    KeyAndValue(DirectoryEntry(block, offset));
    EntryInOrder(old(buffer.out), ['k'] + Counted(block.name), BigEndian(2, 4), WriteMember(at), WriteMember(long));
  }

  lemma EntryInOrder(o: Bytes, name: Bytes, count: Bytes, a: Bytes, b: Bytes)
    ensures o + name + (['{'] + count) + a + b + ['}'] == o + (name + (['{'] + (count + ((a + b) + ['}']))))
  {
  }

  method PutIntegerEntry(buffer: Buffer, name: Bytes, n: int32)
    modifies buffer
    ensures buffer.out == old(buffer.out) + WriteMember(Member(name, Integer(n)))
  {
    hide BigEndian, Counted;
    buffer.PutTagged('k', name);
    buffer.PutInteger(n);
  }

  method PutHeader(buffer: Buffer, blocks: seq<Block>)
    modifies buffer
    ensures buffer.out == old(buffer.out) + Header(blocks)
  {
    hide BigEndian, WriteMember, DirectoryEntry;
    ghost var entries, version := Directory(blocks, 0), Member(VERSION, Integer(1));
    buffer.Open('{', |blocks| + 1);
    PutIntegerEntry(buffer, VERSION, 1);
    ghost var start := buffer.out;
    var offset: nat, i := 0, 0;
    assert blocks[0..] == blocks;
    while i < |blocks|
      invariant i <= |blocks|
      invariant buffer.out + WriteMembers(Directory(blocks[i..], offset)) == start + WriteMembers(entries)
    {
      ghost var before := buffer.out;
      PutDirectoryEntry(buffer, blocks[i], offset);
      assert blocks[i..][0] == blocks[i] && blocks[i..][1..] == blocks[i + 1..];
      ghost var rest := Directory(blocks[i + 1..], (offset + |blocks[i].bytes|) % TWO_32);
      FirstMember(DirectoryEntry(blocks[i], offset), rest);
      assert buffer.out + WriteMembers(rest) == before + (WriteMember(DirectoryEntry(blocks[i], offset)) + WriteMembers(rest));
      offset := (offset + |blocks[i].bytes|) % TWO_32;
      i := i + 1;
    }
    assert blocks[i..] == [];
    buffer.Close('}');
    FirstMember(version, entries);
    HeadInOrder(old(buffer.out), version, entries);
  }

  lemma FirstMember(m: Member, rest: seq<Member>)
    ensures WriteMembers([m] + rest) == WriteMember(m) + WriteMembers(rest)
    ensures WriteMembers([]) == []
  {
    assert ([m] + rest)[1..] == rest;
  }

  lemma MapInOrder(o: Bytes, ms: seq<Member>)
    ensures o + (['{'] + BigEndian(|ms|, 4)) + WriteMembers(ms) + ['}'] == o + Write(Map(ms))
  {
    hide BigEndian, WriteMembers;
  }

  lemma HeadInOrder(o: Bytes, version: Member, entries: seq<Member>)
    ensures o + (['{'] + BigEndian(|entries| + 1, 4)) + WriteMember(version) + WriteMembers(entries) + ['}']
         == o + Write(Map([version] + entries))
  {
    hide BigEndian, WriteMember, WriteMembers, Write;
    FirstMember(version, entries);
    MapInOrder(o, [version] + entries);
    assert |[version] + entries| == |entries| + 1;
  }

  /** The asset's bytes, or none when it cannot be carried. */
  method SerializeAsset(p: Platform, m: Mesh) returns (out: Bytes)
    ensures out == Serialize(p, m)
  {
    hide ValidLevel, ValidSkin, LevelText, HullText, SkinText, Header, Contents;
    var high := IsValidLevel(m.high);
    var medium := IsValidLevel(m.medium);
    var low := IsValidLevel(m.low);
    var lowest := IsValidLevel(m.lowest);
    if !high || !medium || !low || !lowest || m.hull == [] {
      return [];
    }
    var blocks := EncodeBlocks(p, m);
    if m.skin.Some? {
      var encoded := EncodeSkin(p, m.skin.value);
      if encoded == [] {
        SkinMissing(p, m);
        return [];
      }
      blocks := blocks + [Block(SKIN, encoded)];
    }
    assert blocks == Blocks(p, m);
    var i := 0;
    while i < |blocks|
      invariant i <= |blocks| && forall b :: b in blocks[..i] ==> b.bytes != []
    {
      if blocks[i].bytes == [] {
        assert blocks[i] in blocks;
        return [];
      }
      i := i + 1;
    }
    assert blocks[..i] == blocks;
    var buffer := new Buffer();
    PutHeader(buffer, blocks);
    out := AppendBlocks(buffer.out, blocks);
    assert buffer.out == Header(blocks);
  }

  method EncodeBlocks(p: Platform, m: Mesh) returns (blocks: seq<Block>)
    ensures blocks == Blocks(p, m.(skin := None))
  {
    hide LevelText, HullText, SkinText;
    var high := EncodeLevel(p, m.high);
    var medium := EncodeLevel(p, m.medium);
    var low := EncodeLevel(p, m.low);
    var lowest := EncodeLevel(p, m.lowest);
    var hull := EncodeHull(p, m.hull);
    blocks := [Block(HIGH_LOD, high)];
    blocks := blocks + [Block(MEDIUM_LOD, medium)];
    blocks := blocks + [Block(LOW_LOD, low)];
    blocks := blocks + [Block(LOWEST_LOD, lowest)];
    blocks := blocks + [Block(PHYSICS, hull)];
  }

  lemma SkinMissing(p: Platform, m: Mesh)
    requires m.skin.Some? && (ValidSkin(m.skin.value) ==> p.deflate(SkinText(p, m.skin.value)) == [])
    ensures !ValidMesh(m) || SomeEmpty(Blocks(p, m))
  {
    hide ValidLevel, ValidSkin, LevelText, HullText, SkinText;
    if ValidMesh(m) {
      assert Blocks(p, m)[5] in Blocks(p, m);
    }
  }

  method AppendBlocks(header: Bytes, blocks: seq<Block>) returns (out: Bytes)
    ensures out == header + Contents(blocks)
  {
    out := header;
    var i := 0;
    assert blocks[0..] == blocks;
    while i < |blocks|
      invariant i <= |blocks| && out + Contents(blocks[i..]) == header + Contents(blocks)
    {
      assert blocks[i..][0] == blocks[i] && blocks[i..][1..] == blocks[i + 1..];
      assert out + (blocks[i].bytes + Contents(blocks[i + 1..])) == out + blocks[i].bytes + Contents(blocks[i + 1..]);
      out := out + blocks[i].bytes;
      i := i + 1;
    }
    assert blocks[i..] == [];
  }
}
