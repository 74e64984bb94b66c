/** A mesh asset comes back from its bytes, once rounded and never again. */
module MeshAssetInverse {
  import opened Prelude
  import opened Llsd
  import opened LlsdInverse
  import opened MeshQuantize
  import opened MeshAsset
  import opened MeshAssetLaws

  // ----- the skin -----

  predicate SkinReadable(p: Platform, part: SkinPart) {
    match part
    case Joints(_) => true
    case InverseBind(ms) => forall m :: m in ms ==> Carries(p, m)
    case BindShape(m) => Carries(p, m)
    case AlternateBind(ms) => forall m :: m in ms ==> Carries(p, m)
    case Pelvis(x) => Carries(p, [x])
    case LockScale(_) => true
  }

  function SkinApplied(s: Skin, part: SkinPart): Skin {
    match part
    case Joints(names) => s.(joints := s.joints + names)
    case InverseBind(ms) => s.(inverseBind := s.inverseBind + ms)
    case BindShape(m) => s.(bindShape := m)
    case AlternateBind(ms) => s.(alternateInverseBind := s.alternateInverseBind + ms)
    case Pelvis(x) => s.(pelvisOffset := x)
    case LockScale(locked) => s.(lockScale := locked)
  }

  function SkinAppliedAll(s: Skin, parts: seq<SkinPart>): Skin
    decreases |parts|
  {
    if parts == [] then s else SkinAppliedAll(SkinApplied(s, parts[0]), parts[1..])
  }

  lemma {:induction false} NamesRead(b: Bytes, pos: nat, names: seq<Bytes>)
    requires |b| < TWO_32 && At(b, pos, WriteElements(Texts(names)))
    ensures ReadNames(b, pos, |names|) == Got(names, pos + |WriteElements(Texts(names))|)
    decreases |names|
  {
    hide ReadTagged, BigEndian;
    if names != [] {
      var es := Texts(names);
      assert es[0] == Text(names[0]) && es[1..] == Texts(names[1..]);
      AtSplit(b, pos, Write(es[0]), WriteElements(es[1..]));
      NameReads(b, pos, names[0]);
      NamesRead(b, pos + |Write(es[0])|, names[1..]);
      assert [names[0]] + names[1..] == names;
    }
  }

  lemma NameReads(b: Bytes, pos: nat, name: Bytes)
    requires At(b, pos, Write(Text(name))) && |b| < TWO_32
    ensures ReadTagged(b, pos, 's') == Got(name, pos + |Write(Text(name))|)
  {
    hide ReadCounted, BigEndian;
    ReadsTag(b, pos, 's', Counted(name));
    ReadsCounted(b, pos + 1, name);
  }

  lemma {:induction false} MatricesRead(p: Platform, b: Bytes, pos: nat, ms: seq<Matrix>)
    requires (forall m :: m in ms ==> Carries(p, m)) && At(b, pos, WriteElements(MatrixDocuments(p, ms)))
    ensures ReadMatrices(p, b, pos, |ms|) == Got(ms, pos + |WriteElements(MatrixDocuments(p, ms))|)
    decreases |ms|
  {
    hide ReadVector, Write, Carries;
    if ms != [] {
      var es := MatrixDocuments(p, ms);
      assert es[0] == Array(Numbers(p, ms[0])) && es[1..] == MatrixDocuments(p, ms[1..]);
      AtSplit(b, pos, Write(es[0]), WriteElements(es[1..]));
      VectorReads(p, b, pos, ms[0]);
      MatricesRead(p, b, pos + |Write(es[0])|, ms[1..]);
      assert [ms[0]] + ms[1..] == ms;
    }
  }

  lemma MatrixArrayReads(p: Platform, b: Bytes, pos: nat, ms: seq<Matrix>)
    requires (forall m :: m in ms ==> Carries(p, m)) && |b| < TWO_32 && At(b, pos, Write(Array(MatrixDocuments(p, ms))))
    ensures ReadMatrixArray(p, b, pos) == Got(ms, pos + |Write(Array(MatrixDocuments(p, ms)))|)
  {
    hide WriteElements, ReadMatrices, Carries, BigEndian, ReadOpen;
    var es := MatrixDocuments(p, ms);
    ElementsLength(es);
    OpenReads(b, pos, '[', |es|, WriteElements(es), ']');
    MatricesRead(p, b, pos + 5, ms);
  }

  lemma NameArrayReads(b: Bytes, pos: nat, names: seq<Bytes>)
    requires |b| < TWO_32 && At(b, pos, Write(Array(Texts(names))))
    ensures ReadNameArray(b, pos) == Got(names, pos + |Write(Array(Texts(names)))|)
  {
    hide WriteElements, ReadNames, BigEndian, ReadOpen;
    var es := Texts(names);
    ElementsLength(es);
    OpenReads(b, pos, '[', |es|, WriteElements(es), ']');
    NamesRead(b, pos + 5, names);
  }

  lemma FlagReads(b: Bytes, pos: nat, x: bool)
    requires At(b, pos, Write(Boolean(x)))
    ensures ReadBoolean(b, pos) == Got(x, pos + |Write(Boolean(x))|)
  {
    ReadsTag(b, pos, if x then '1' else '0', []);
  }

  lemma SkinPartReads(p: Platform, b: Bytes, pos: nat, part: SkinPart, s: Skin)
    requires SkinReadable(p, part) && |b| < TWO_32 && At(b, pos, WriteMember(SkinMember(p, part)))
    ensures var m := SkinMember(p, part);
      && ReadKey(b, pos).Got? && ReadKey(b, pos).value == m.key
      && ReadSkinField(p, b, ReadKey(b, pos).next, m.key, s) == Got(SkinApplied(s, part), pos + |WriteMember(m)|)
  {
    hide Write, WriteMember, At, ReadKey, Carries, ReadNameArray, ReadMatrixArray, ReadVector, ReadReal, ReadBoolean, Skip, Numbers;
    var m := SkinMember(p, part);
    KeyReads(b, pos, m);
    var next := pos + 5 + |m.key|;
    match part {
      case Joints(names) => NameArrayReads(b, next, names);
      case InverseBind(ms) => MatrixArrayReads(p, b, next, ms);
      case BindShape(shape) => VectorReads(p, b, next, shape);
      case AlternateBind(ms) => MatrixArrayReads(p, b, next, ms);
      case Pelvis(x) =>
        RealReads(p, b, next, x);
        NineBytes(p.bits(x));
      case LockScale(locked) => FlagReads(b, next, locked);
    }
  }

  lemma {:induction false} SkinPartsRead(p: Platform, b: Bytes, pos: nat, parts: seq<SkinPart>, s: Skin)
    requires forall part :: part in parts ==> SkinReadable(p, part)
    requires |b| < TWO_32 && At(b, pos, WriteMembers(SkinMembers(p, parts)))
    ensures ReadSkinFields(p, b, pos, |parts|, s)
         == Got(SkinAppliedAll(s, parts), pos + |WriteMembers(SkinMembers(p, parts))|)
    decreases |parts|
  {
    hide SkinReadable, SkinMember, WriteMember, ReadSkinField, ReadKey, SkinApplied;
    if parts != [] {
      var m := SkinMember(p, parts[0]);
      assert SkinMembers(p, parts)[0] == m && SkinMembers(p, parts)[1..] == SkinMembers(p, parts[1..]);
      AtSplit(b, pos, WriteMember(m), WriteMembers(SkinMembers(p, parts[1..])));
      SkinPartReads(p, b, pos, parts[0], s);
      SkinPartsRead(p, b, pos + |WriteMember(m)|, parts[1..], SkinApplied(s, parts[0]));
    }
  }

  lemma SkinStep(s: Skin, parts: seq<SkinPart>, i: nat)
    requires i < |parts|
    ensures SkinAppliedAll(s, parts[i..]) == SkinAppliedAll(SkinApplied(s, parts[i]), parts[i + 1..])
  {
    assert parts[i..][1..] == parts[i + 1..];
  }

  lemma SkinPartsMake(s: Skin)
    ensures SkinAppliedAll(NO_SKIN, SkinParts(s)) == s
  {
    hide SkinAppliedAll;
    var parts := SkinParts(s);
    assert [] + s.joints == s.joints && [] + s.inverseBind == s.inverseBind;
    assert [] + s.alternateInverseBind == s.alternateInverseBind;
    assert parts[0..] == parts;
    SkinStep(NO_SKIN, parts, 0);
    var s1 := NO_SKIN.(joints := s.joints);
    SkinStep(s1, parts, 1);
    var s2 := s1.(inverseBind := s.inverseBind);
    SkinStep(s2, parts, 2);
    var s3 := s2.(bindShape := s.bindShape);
    var s4 := s3.(alternateInverseBind := s.alternateInverseBind);
    var n := if s.alternateInverseBind == [] then 3 else 4;
    if n == 4 {
      SkinStep(s3, parts, 3);
    }
    SkinStep(s4, parts, n);
    SkinStep(s4.(pelvisOffset := s.pelvisOffset), parts, n + 1);
    SkinNone(s);
    assert parts[n + 2..] == [];
  }

  lemma SkinNone(s: Skin)
    ensures SkinAppliedAll(s, []) == s
  {
  }

  /** A skin comes back as it was. */
  lemma SkinReads(p: Platform, s: Skin)
    requires ValidSkin(s) && CarriesSkin(p, s) && |SkinText(p, s)| < TWO_32
    ensures ReadSkin(p, SkinText(p, s)) == Some(s)
  {
    hide WriteMembers, ReadSkin, BigEndian, SkinParts, SkinMembers, CarriesSkin;
    SkinReadsFrom(p, SkinText(p, s), s);
  }

  lemma SkinReadsFrom(p: Platform, b: Bytes, s: Skin)
    requires ValidSkin(s) && CarriesSkin(p, s) && |b| < TWO_32
    requires var ms := SkinMembers(p, SkinParts(s));
      b == ['{'] + (BigEndian(|ms|, 4) + (WriteMembers(ms) + ['}']))
    ensures ReadSkin(p, b) == Some(s)
  {
    hide WriteMembers, ReadSkinFields, BigEndian, SkinParts, SkinMembers, Carries, ReadOpen, SkinReadable;
    var parts := SkinParts(s);
    var ms := SkinMembers(p, parts);
    Whole(b);
    MembersLength(ms);
    OpenReads(b, 0, '{', |ms|, WriteMembers(ms), '}');
    SkinIsReadable(p, s);
    SkinPartsRead(p, b, 5, parts, NO_SKIN);
    SkinPartsMake(s);
  }

  lemma SkinIsReadable(p: Platform, s: Skin)
    requires CarriesSkin(p, s)
    ensures forall part :: part in SkinParts(s) ==> SkinReadable(p, part)
  {
    hide Carries;
  }

  // ----- the directory -----

  lemma WrapsBack(n: int)
    ensures Wrap32(n) % TWO_32 == n % TWO_32 && Wrap32(n % TWO_32) == Wrap32(n)
  {
  }

  lemma IntegerReads(b: Bytes, pos: nat, n: int)
    requires At(b, pos, Write(Integer(Wrap32(n))))
    ensures ReadInteger(b, pos) == Got(Wrap32(n), pos + 5) && |Write(Integer(Wrap32(n)))| == 5
  {
    hide BigEndian, ReadWord, Wrap32;
    WrapsBack(n);
    ReadsTag(b, pos, 'i', BigEndian(n % TWO_32, 4));
    ReadsWord(b, pos + 1, n % TWO_32, 4);
  }

  lemma ExtentField(b: Bytes, pos: nat, count: nat, name: Bytes, n: nat, e: Extent)
    requires count > 0 && |name| < TWO_32 && At(b, pos, WriteMember(Member(name, Integer(Wrap32(n)))))
    ensures ReadExtentFields(b, pos, count, e)
         == ReadExtentFields(b, pos + 10 + |name|, count - 1, WithExtent(e, name, n % TWO_32))
    ensures |WriteMember(Member(name, Integer(Wrap32(n))))| == 10 + |name|
  {
    hide Write, ReadKey, ReadInteger, Wrap32, WithExtent, At;
    KeyReads(b, pos, Member(name, Integer(Wrap32(n))));
    IntegerReads(b, pos + 5 + |name|, n);
    WrapsBack(n);
  }

  lemma ExtentReads(b: Bytes, pos: nat, block: Block, offset: nat)
    requires At(b, pos, Write(DirectoryEntry(block, offset).value))
    ensures ReadExtent(b, pos) == Got(Extent(offset % TWO_32, |block.bytes| % TWO_32), pos + |Write(DirectoryEntry(block, offset).value)|)
    ensures pos < |b| && b[pos] == '{'
  {
    hide Write, WriteMember, BigEndian, Wrap32, ReadExtentFields;
    var at, long := Member(OFFSET, Integer(Wrap32(offset))), Member(SIZE, Integer(Wrap32(|block.bytes|)));
    var body := WriteMember(at) + WriteMember(long);
    TwoEntries(at, long);
    OpenReads(b, pos, '{', 2, body, '}');
    AtSplit(b, pos + 5, WriteMember(at), WriteMember(long));
    ExtentField(b, pos + 5, 2, OFFSET, offset, Extent(0, 0));
    ExtentField(b, pos + 21, 1, SIZE, |block.bytes|, Extent(offset % TWO_32, 0));
    NoExtentFields(b, pos + 35, Extent(offset % TWO_32, |block.bytes| % TWO_32));
  }

  lemma NoExtentFields(b: Bytes, pos: nat, e: Extent)
    ensures ReadExtentFields(b, pos, 0, e) == Got(e, pos)
  {
  }

  /** What a directory says. */
  function Listed(blocks: seq<Block>, offset: nat, known: Extents): Extents
    decreases |blocks|
  {
    if blocks == [] then known
    else
      Listed(blocks[1..], (offset + |blocks[0].bytes|) % TWO_32,
             known[blocks[0].name := Extent(offset % TWO_32, |blocks[0].bytes| % TWO_32)])
  }

  lemma {:induction false} DirectoryReads(b: Bytes, pos: nat, blocks: seq<Block>, offset: nat, known: Extents)
    requires forall block :: block in blocks ==> |block.name| < TWO_32
    requires At(b, pos, WriteMembers(Directory(blocks, offset)))
    ensures ReadExtents(b, pos, |blocks|, known)
         == Got(Listed(blocks, offset, known), pos + |WriteMembers(Directory(blocks, offset))|)
    decreases |blocks|
  {
    hide WriteMember, ReadDirectoryEntry, ReadKey, DirectoryEntry;
    if blocks != [] {
      var block, next := blocks[0], (offset + |blocks[0].bytes|) % TWO_32;
      var m, rest := DirectoryEntry(block, offset), Directory(blocks[1..], next);
      assert Directory(blocks, offset)[0] == m && Directory(blocks, offset)[1..] == rest;
      AtSplit(b, pos, WriteMember(m), WriteMembers(rest));
      EntryReads(b, pos, block, offset, known);
      DirectoryReads(b, pos + |WriteMember(m)|, blocks[1..], next, known[block.name := Extent(offset % TWO_32, |block.bytes| % TWO_32)]);
    }
  }

  lemma EntryReads(b: Bytes, pos: nat, block: Block, offset: nat, known: Extents)
    requires |block.name| < TWO_32 && At(b, pos, WriteMember(DirectoryEntry(block, offset)))
    ensures ReadKey(b, pos).Got? && ReadKey(b, pos).value == block.name
    ensures ReadDirectoryEntry(b, ReadKey(b, pos).next, block.name, known)
         == Got(known[block.name := Extent(offset % TWO_32, |block.bytes| % TWO_32)], pos + |WriteMember(DirectoryEntry(block, offset))|)
  {
    hide Write, WriteMember, ReadKey, ReadExtent, At;
    KeyReads(b, pos, DirectoryEntry(block, offset));
    ExtentReads(b, pos + 5 + |block.name|, block, offset);
  }

  lemma HeaderReads(blocks: seq<Block>, rest: Bytes)
    requires (forall block :: block in blocks ==> |block.name| < TWO_32) && |blocks| < 100
    ensures ReadHeader(Header(blocks) + rest) == Got(Listed(blocks, 0, map[]), |Header(blocks)|)
  {
    hide WriteMember, WriteMembers, BigEndian, ReadExtents, Directory, Listed, Wrap32, ReadOpen;
    var version := Member(VERSION, Integer(1));
    var entries := Directory(blocks, 0);
    var body := WriteMembers([version] + entries);
    var b := Header(blocks) + rest;
    assert At(b, 0, Header(blocks)) by { assert b[0..0 + |Header(blocks)|] == Header(blocks); }
    OpenReads(b, 0, '{', 1 + |blocks|, body, '}');
    assert body == WriteMember(version) + WriteMembers(entries) by { FirstOf(version, entries); }
    AtSplit(b, 5, WriteMember(version), WriteMembers(entries));
    VersionReads(b, 5, |blocks|, version);
    DirectoryReads(b, 5 + |WriteMember(version)|, blocks, 0, map[]);
  }

  lemma FirstOf(m: Member, ms: seq<Member>)
    ensures WriteMembers([m] + ms) == WriteMember(m) + WriteMembers(ms)
  {
    assert ([m] + ms)[1..] == ms;
  }

  /** The version is stepped over. */
  lemma VersionReads(b: Bytes, pos: nat, count: nat, version: Member)
    requires version == Member(VERSION, Integer(1)) && At(b, pos, WriteMember(version))
    ensures ReadExtents(b, pos, count + 1, map[]) == ReadExtents(b, pos + |WriteMember(version)|, count, map[])
  {
    hide ReadKey, Write, WriteMember, Skip;
    KeyReads(b, pos, version);
    IntegerSkips(b, pos + 5 + |VERSION|, 1);
  }

  lemma IntegerSkips(b: Bytes, pos: nat, n: nat)
    requires n < TWO_32 && At(b, pos, Write(Integer(n)))
    ensures Skip(b, pos) == Some(pos + |Write(Integer(n))|)
    ensures pos < |b| && b[pos] != '{'
  {
    hide BigEndian, ReadWord, SkipMembers, SkipElements;
    ReadsTag(b, pos, 'i', BigEndian(n, 4));
    ReadsWord(b, pos + 1, n, 4);
  }

  function Total(blocks: seq<Block>): nat {
    if blocks == [] then 0 else |blocks[0].bytes| + Total(blocks[1..])
  }

  predicate DistinctNames(blocks: seq<Block>) {
    forall i, j :: 0 <= i < j < |blocks| ==> blocks[i].name != blocks[j].name
  }

  lemma {:induction false} ListedElsewhere(blocks: seq<Block>, offset: nat, known: Extents, name: Bytes)
    requires forall block :: block in blocks ==> block.name != name
    ensures name in Listed(blocks, offset, known) <==> name in known
    ensures name in known ==> Listed(blocks, offset, known)[name] == known[name]
    decreases |blocks|
  {
    if blocks != [] {
      var more := known[blocks[0].name := Extent(offset % TWO_32, |blocks[0].bytes| % TWO_32)];
      assert blocks[0].name != name;
      ListedElsewhere(blocks[1..], (offset + |blocks[0].bytes|) % TWO_32, more, name);
    }
  }

  lemma ListedStep(blocks: seq<Block>, offset: nat, known: Extents)
    requires blocks != [] && offset + |blocks[0].bytes| < TWO_32
    ensures Listed(blocks, offset, known)
         == Listed(blocks[1..], offset + |blocks[0].bytes|, known[blocks[0].name := Extent(offset, |blocks[0].bytes|)])
  {
  }

  lemma TotalSplits(blocks: seq<Block>, i: nat)
    requires 0 < i < |blocks|
    ensures Total(blocks) == |blocks[0].bytes| + Total(blocks[1..])
    ensures Total(blocks[..i]) == |blocks[0].bytes| + Total(blocks[1..][..i - 1])
  {
    assert blocks[..i][0] == blocks[0] && blocks[..i][1..] == blocks[1..][..i - 1];
  }

  /** Each block is listed where it lies, as long as the offsets fit their 32 bits. */
  lemma {:induction false} ListedAt(blocks: seq<Block>, offset: nat, known: Extents, i: nat)
    requires DistinctNames(blocks) && offset + Total(blocks) < TWO_32 && i < |blocks|
    ensures Total(blocks[..i]) + |blocks[i].bytes| <= Total(blocks)
    ensures blocks[i].name in Listed(blocks, offset, known)
    ensures Listed(blocks, offset, known)[blocks[i].name] == Extent(offset + Total(blocks[..i]), |blocks[i].bytes|)
    decreases |blocks|
  {
    hide Listed;
    var rest, next := blocks[1..], offset + |blocks[0].bytes|;
    var more := known[blocks[0].name := Extent(offset, |blocks[0].bytes|)];
    ListedStep(blocks, offset, known);
    if i == 0 {
      assert blocks[..0] == [];
      ListedElsewhere(rest, next, more, blocks[0].name);
    } else {
      hide Total;
      TotalSplits(blocks, i);
      ListedAt(rest, next, more, i - 1);
    }
  }

  lemma {:induction false} ContentsAt(blocks: seq<Block>, i: nat)
    requires i < |blocks|
    ensures At(Contents(blocks), Total(blocks[..i]), blocks[i].bytes)
    ensures |Contents(blocks)| == Total(blocks)
    decreases |blocks|
  {
    var rest := blocks[1..];
    if i == 0 {
      assert blocks[..0] == [];
      ContentsLength(blocks);
    } else {
      ContentsAt(rest, i - 1);
      assert blocks[..i][0] == blocks[0] && blocks[..i][1..] == rest[..i - 1];
      Later(blocks[0].bytes, Contents(rest), Total(rest[..i - 1]), blocks[i].bytes);
    }
  }

  lemma {:induction false} ContentsLength(blocks: seq<Block>)
    ensures |Contents(blocks)| == Total(blocks)
  {
    if blocks != [] {
      ContentsLength(blocks[1..]);
    }
  }

  lemma Later(a: Bytes, b: Bytes, pos: nat, piece: Bytes)
    requires At(b, pos, piece)
    ensures At(a + b, |a| + pos, piece)
  {
    assert (a + b)[|a| + pos..|a| + pos + |piece|] == b[pos..pos + |piece|];
  }

  lemma Earlier(a: Bytes, b: Bytes, pos: nat, piece: Bytes)
    requires At(a, pos, piece)
    ensures At(a + b, pos, piece)
  {
    assert (a + b)[pos..pos + |piece|] == a[pos..pos + |piece|];
  }

  /** A listed block that is not empty is found, and it is the bytes that were put there. */
  lemma BlockFound(blocks: seq<Block>, trailing: Bytes, i: nat)
    requires DistinctNames(blocks) && Total(blocks) < TWO_32 && i < |blocks| && blocks[i].bytes != []
    ensures BlockAt(Header(blocks) + (Contents(blocks) + trailing), |Header(blocks)|, Listed(blocks, 0, map[]), blocks[i].name)
         == Some(blocks[i].bytes)
  {
    hide Header, Contents, Listed, Total;
    ListedAt(blocks, 0, map[], i);
    ContentsAt(blocks, i);
    Earlier(Contents(blocks), trailing, Total(blocks[..i]), blocks[i].bytes);
    Later(Header(blocks), Contents(blocks) + trailing, Total(blocks[..i]), blocks[i].bytes);
  }

  lemma BlockMissing(blocks: seq<Block>, b: Bytes, begin: nat, name: Bytes)
    requires forall block :: block in blocks ==> block.name != name
    ensures BlockAt(b, begin, Listed(blocks, 0, map[]), name) == None
  {
    ListedElsewhere(blocks, 0, map[], name);
  }

  // ----- whole assets -----

  predicate AllInflatable(p: Platform, m: Mesh) {
    && Inflatable(p, LevelText(p, m.high)) && Inflatable(p, LevelText(p, m.medium))
    && Inflatable(p, LevelText(p, m.low)) && Inflatable(p, LevelText(p, m.lowest))
    && Inflatable(p, HullText(p, m.hull)) && (m.skin.Some? ==> Inflatable(p, SkinText(p, m.skin.value)))
  }

  lemma LevelReturns(p: Platform, level: Level)
    requires Faithful(p) && ValidLevel(level) && CarriesLevel(p, level)
    ensures ReadLevel(p, Decompress(p, p.deflate(LevelText(p, level))))
         == if Inflatable(p, LevelText(p, level)) then Some(RoundedLevel(p, level)) else None
  {
    hide LevelText, ValidLevel, CarriesLevel, Decompress, RoundedLevel, ReadLevel, Inflatable, Faithful;
    Decompresses(p, LevelText(p, level));
    if Inflatable(p, LevelText(p, level)) {
      InflatableIsSmall(p, LevelText(p, level));
      LevelReads(p, level);
    } else {
      NothingReads(p);
    }
  }

  lemma NothingReads(p: Platform)
    ensures ReadLevel(p, []) == None && ReadHull(p, []) == None && ReadSkin(p, []) == None
  {
  }

  lemma InflatableIsSmall(p: Platform, raw: Bytes)
    requires Inflatable(p, raw)
    ensures |raw| <= LARGEST && 8 * |p.deflate(raw)| <= LARGEST
  {
  }

  lemma HullReturns(p: Platform, hull: seq<Vec3>)
    requires Faithful(p) && CarriesDomain(p, hull, 3)
    ensures ReadHull(p, Decompress(p, p.deflate(HullText(p, hull))))
         == if Inflatable(p, HullText(p, hull)) then Some(Reread(hull, 3, p.nudge)) else None
  {
    hide HullText, CarriesDomain, Decompress, Reread, ReadHull, Inflatable, Faithful;
    Decompresses(p, HullText(p, hull));
    if Inflatable(p, HullText(p, hull)) {
      InflatableIsSmall(p, HullText(p, hull));
      HullReads(p, hull);
    } else {
      NothingReads(p);
    }
  }

  lemma SkinReturns(p: Platform, s: Skin)
    requires Faithful(p) && ValidSkin(s) && CarriesSkin(p, s)
    ensures ReadSkin(p, Decompress(p, p.deflate(SkinText(p, s))))
         == if Inflatable(p, SkinText(p, s)) then Some(s) else None
  {
    hide SkinText, ValidSkin, CarriesSkin, Decompress, ReadSkin, Inflatable, Faithful;
    Decompresses(p, SkinText(p, s));
    if Inflatable(p, SkinText(p, s)) {
      InflatableIsSmall(p, SkinText(p, s));
      SkinReads(p, s);
    } else {
      NothingReads(p);
    }
  }

  /** The directory's 32-bit offsets reach every block. */
  predicate Reachable(p: Platform, m: Mesh) {
    Total(Blocks(p, m)) < TWO_32
  }

  lemma {:induction false} TotalBound(blocks: seq<Block>, most: nat)
    requires forall block :: block in blocks ==> |block.bytes| <= most
    ensures Total(blocks) <= |blocks| * most
  {
    if blocks != [] {
      TotalBound(blocks[1..], most);
      assert |blocks[0].bytes| <= most;
      assert |blocks| * most == |blocks[1..]| * most + most;
    }
  }

  /** Blocks the reader can inflate are small enough to be reached. */
  lemma InflatableIsReachable(p: Platform, m: Mesh)
    requires AllInflatable(p, m)
    ensures Reachable(p, m)
  {
    hide LevelText, HullText, SkinText;
    assert forall block :: block in Blocks(p, m) ==> |block.bytes| <= LARGEST by {
      hide Inflatable;
      InflatableIsSmall(p, LevelText(p, m.high));
      InflatableIsSmall(p, LevelText(p, m.medium));
      InflatableIsSmall(p, LevelText(p, m.low));
      InflatableIsSmall(p, LevelText(p, m.lowest));
      InflatableIsSmall(p, HullText(p, m.hull));
      if m.skin.Some? {
        InflatableIsSmall(p, SkinText(p, m.skin.value));
      }
    }
    TotalBound(Blocks(p, m), LARGEST);
  }

  lemma NamesDiffer(p: Platform, m: Mesh)
    ensures var blocks := Blocks(p, m);
      DistinctNames(blocks) && (forall block :: block in blocks ==> |block.name| < TWO_32)
      && (m.skin == None ==> forall block :: block in blocks ==> block.name != SKIN)
  {
    hide LevelText, HullText, SkinText;
  }

  lemma FindsAll(p: Platform, m: Mesh, trailing: Bytes)
    requires Reachable(p, m) && !SomeEmpty(Blocks(p, m))
    ensures var blocks := Blocks(p, m);
      var b, begin, known := Header(blocks) + (Contents(blocks) + trailing), |Header(blocks)|, Listed(blocks, 0, map[]);
      && ReadHeader(b) == Got(known, begin)
      && BlockAt(b, begin, known, HIGH_LOD) == Some(p.deflate(LevelText(p, m.high)))
      && BlockAt(b, begin, known, MEDIUM_LOD) == Some(p.deflate(LevelText(p, m.medium)))
      && BlockAt(b, begin, known, LOW_LOD) == Some(p.deflate(LevelText(p, m.low)))
      && BlockAt(b, begin, known, LOWEST_LOD) == Some(p.deflate(LevelText(p, m.lowest)))
      && BlockAt(b, begin, known, PHYSICS) == Some(p.deflate(HullText(p, m.hull)))
      && BlockAt(b, begin, known, SKIN)
         == match m.skin case None => None case Some(s) => Some(p.deflate(SkinText(p, s)))
  {
    hide LevelText, HullText, SkinText, Header, Contents, Listed, BlockAt, ReadHeader, Total;
    var blocks := Blocks(p, m);
    NamesDiffer(p, m);
    HeaderReads(blocks, Contents(blocks) + trailing);
    forall i: nat | i < |blocks|
      ensures BlockAt(Header(blocks) + (Contents(blocks) + trailing), |Header(blocks)|, Listed(blocks, 0, map[]), blocks[i].name)
           == Some(blocks[i].bytes)
    {
      assert blocks[i] in blocks;
      BlockFound(blocks, trailing, i);
    }
    assert blocks[0].name == HIGH_LOD && blocks[1].name == MEDIUM_LOD && blocks[2].name == LOW_LOD;
    assert blocks[3].name == LOWEST_LOD && blocks[4].name == PHYSICS;
    if m.skin == None {
      BlockMissing(blocks, Header(blocks) + (Contents(blocks) + trailing), |Header(blocks)|, SKIN);
    } else {
      assert blocks[5].name == SKIN;
    }
  }

  /** An asset that was written reads back, whatever follows it, exactly when the reader's buffers
      can hold each of its blocks; and what it reads is the mesh rounded once. */
  lemma RoundTrip(p: Platform, m: Mesh, trailing: Bytes)
    requires Faithful(p) && CarriesMesh(p, m) && Serialize(p, m) != [] && Reachable(p, m)
    ensures Parse(p, Serialize(p, m) + trailing) == if AllInflatable(p, m) then Some(RoundedMesh(p, m)) else None
  {
    hide LevelText, HullText, SkinText, Header, Contents, Listed, BlockAt, ReadHeader, ReadLevel, ReadHull, ReadSkin, RoundedLevel;
    hide Decompress, Inflatable, ValidLevel, CarriesLevel, CarriesSkin, CarriesDomain, Blocks, Reachable, Reread, Faithful;
    var blocks := Blocks(p, m);
    assert Serialize(p, m) + trailing == Header(blocks) + (Contents(blocks) + trailing);
    FindsAll(p, m, trailing);
    LevelReturns(p, m.high);
    LevelReturns(p, m.medium);
    LevelReturns(p, m.low);
    LevelReturns(p, m.lowest);
    HullReturns(p, m.hull);
    if m.skin.Some? {
      SkinReturns(p, m.skin.value);
    }
  }

  // ----- what rounding does -----

  predicate UnitVectors(vs: seq<Vector>) {
    forall v :: v in vs ==> forall a :: 0 <= a < |v| ==> -1.0 <= v[a] <= 1.0
  }

  /** The same triangles and vertices, each coordinate within half a step of what its axis spans. */
  ghost predicate CloseSubmesh(s: Submesh, r: Submesh) {
    && r.indices == s.indices && |r.normals| == |s.normals|
    && (forall a: nat :: a < 3 ==> WithinHalf(s.positions, r.positions, a, Breadth(s.positions, a)))
    && (forall a: nat :: a < 2 ==> WithinHalf(s.texcoords, r.texcoords, a, Breadth(s.texcoords, a)))
    && (UnitVectors(s.normals) ==> forall a: nat :: a < 3 ==> WithinHalf(s.normals, r.normals, a, 2.0))
  }

  ghost predicate CloseLevel(level: Level, r: Level) {
    |r| == |level| && forall i :: 0 <= i < |level| ==> CloseSubmesh(level[i], r[i])
  }

  lemma NormalsNear(vs: seq<Vec3>, a: nat)
    requires UnitVectors(vs) && a < 3
    ensures WithinHalf(vs, Rounded(vs, UNIT_LOW, UNIT_HIGH), a, 2.0)
  {
    hide Quantize, Dequantize, Near, Rounded;
    forall i | 0 <= i < |vs|
      ensures Near(vs[i][a], Rounded(vs, UNIT_LOW, UNIT_HIGH)[i][a], 2.0)
    {
      assert vs[i] in vs;
      HalfAQuantum(vs[i][a], -1.0, 1.0);
    }
  }

  lemma SubmeshIsClose(p: Platform, s: Submesh)
    ensures CloseSubmesh(s, RoundedSubmesh(p, s))
  {
    hide WithinHalf, Reread, Rounded, Breadth, UnitVectors;
    forall a: nat | a < 3
      ensures WithinHalf(s.positions, Reread(s.positions, 3, p.nudge), a, Breadth(s.positions, a))
      ensures UnitVectors(s.normals) ==> WithinHalf(s.normals, Rounded(s.normals, UNIT_LOW, UNIT_HIGH), a, 2.0)
    {
      RereadNear(s.positions, 3, p.nudge, a);
      if UnitVectors(s.normals) {
        NormalsNear(s.normals, a);
      }
    }
    forall a: nat | a < 2
      ensures WithinHalf(s.texcoords, Reread(s.texcoords, 2, p.nudge), a, Breadth(s.texcoords, a))
    {
      RereadNear(s.texcoords, 2, p.nudge, a);
    }
  }

  lemma LevelIsClose(p: Platform, level: Level)
    ensures CloseLevel(level, RoundedLevel(p, level))
  {
    hide CloseSubmesh, RoundedSubmesh;
    forall i | 0 <= i < |level|
      ensures CloseSubmesh(level[i], RoundedLevel(p, level)[i])
    {
      SubmeshIsClose(p, level[i]);
    }
  }

  /** Rounding moves nothing by more than half a step, and leaves structure and skin alone. */
  lemma RoundingIsClose(p: Platform, m: Mesh)
    ensures var r := RoundedMesh(p, m);
      && CloseLevel(m.high, r.high) && CloseLevel(m.medium, r.medium) && CloseLevel(m.low, r.low)
      && CloseLevel(m.lowest, r.lowest) && r.skin == m.skin
      && forall a: nat :: a < 3 ==> WithinHalf(m.hull, r.hull, a, Breadth(m.hull, a))
  {
    hide CloseLevel, RoundedLevel, WithinHalf, Reread, Breadth;
    LevelIsClose(p, m.high);
    LevelIsClose(p, m.medium);
    LevelIsClose(p, m.low);
    LevelIsClose(p, m.lowest);
    forall a: nat | a < 3
      ensures WithinHalf(m.hull, Reread(m.hull, 3, p.nudge), a, Breadth(m.hull, a))
    {
      RereadNear(m.hull, 3, p.nudge, a);
    }
  }

  // ----- nothing further is lost -----

  function Unrigged(level: Level): (r: Level)
    ensures |r| == |level| && forall i :: 0 <= i < |level| ==> r[i] == level[i].(influences := [])
  {
    if level == [] then [] else [level[0].(influences := [])] + Unrigged(level[1..])
  }

  /** The reader drops every vertex's bindings. */
  function UnriggedMesh(m: Mesh): Mesh {
    m.(high := Unrigged(m.high), medium := Unrigged(m.medium), low := Unrigged(m.low), lowest := Unrigged(m.lowest))
  }

  lemma CoordinatesAgain(p: Platform, vs: seq<Vector>, d: nat)
    requires Cloud(vs, d) && vs != []
    ensures var rs := Reread(vs, d, p.nudge);
      && Low(rs, d) == Low(vs, d) && High(rs, d, p.nudge) == High(vs, d, p.nudge)
      && Coordinates(p, rs, d) == Coordinates(p, vs, d) && Reread(rs, d, p.nudge) == rs
  {
    hide Low, High, Quanta, Reread;
    RereadKeepsDomain(vs, d, p.nudge);
  }

  lemma SubmeshAgain(p: Platform, s: Submesh)
    requires ValidSubmesh(s)
    ensures RoundedSubmesh(p, RoundedSubmesh(p, s)) == RoundedSubmesh(p, s) && ValidSubmesh(RoundedSubmesh(p, s))
    ensures SubmeshDocument(p, RoundedSubmesh(p, s)) == SubmeshDocument(p, s.(influences := []))
  {
    hide Low, High, Quanta, Reread, Rounded, Coordinates, Stream, PartMembers;
    CoordinatesAgain(p, s.positions, 3);
    if s.texcoords != [] {
      CoordinatesAgain(p, s.texcoords, 2);
    }
    NoneReread(p.nudge);
    QuantaAgain(s.normals, UNIT_LOW, UNIT_HIGH);
    RoundedAgain(s.normals, UNIT_LOW, UNIT_HIGH);
  }

  lemma {:induction false} LevelAgain(p: Platform, level: Level)
    requires forall s :: s in level ==> ValidSubmesh(s)
    ensures RoundedLevel(p, RoundedLevel(p, level)) == RoundedLevel(p, level)
    ensures forall s :: s in RoundedLevel(p, level) ==> ValidSubmesh(s)
    ensures SubmeshDocuments(p, RoundedLevel(p, level)) == SubmeshDocuments(p, Unrigged(level))
    decreases |level|
  {
    hide ValidSubmesh, RoundedSubmesh, SubmeshDocument;
    if level != [] {
      SubmeshAgain(p, level[0]);
      LevelAgain(p, level[1..]);
    }
  }

  lemma UnriggedIsValid(level: Level)
    requires ValidLevel(level)
    ensures ValidLevel(Unrigged(level))
  {
    forall s | s in Unrigged(level)
      ensures ValidSubmesh(s)
    {
      var i :| 0 <= i < |level| && Unrigged(level)[i] == s;
      assert level[i] in level;
    }
  }

  lemma LevelTextAgain(p: Platform, level: Level)
    requires ValidLevel(level)
    ensures RoundedLevel(p, RoundedLevel(p, level)) == RoundedLevel(p, level)
    ensures ValidLevel(RoundedLevel(p, level)) && ValidLevel(Unrigged(level))
    ensures LevelText(p, RoundedLevel(p, level)) == LevelText(p, Unrigged(level))
  {
    hide RoundedLevel, SubmeshDocuments, Unrigged, ValidSubmesh, Write;
    LevelAgain(p, level);
    UnriggedIsValid(level);
  }

  lemma HullTextAgain(p: Platform, hull: seq<Vec3>)
    requires hull != []
    ensures HullText(p, Reread(hull, 3, p.nudge)) == HullText(p, hull)
    ensures Reread(Reread(hull, 3, p.nudge), 3, p.nudge) == Reread(hull, 3, p.nudge)
  {
    hide Low, High, Reread, Coordinates, Write, Numbers;
    CoordinatesAgain(p, hull, 3);
  }

  /** The rounded mesh's blocks are those of the mesh without bindings. */
  lemma BlocksAgain(p: Platform, m: Mesh)
    requires ValidMesh(m)
    ensures var r, u := RoundedMesh(p, m), UnriggedMesh(m);
      ValidMesh(r) && ValidMesh(u) && Blocks(p, r) == Blocks(p, u) && AllInflatable(p, r) == AllInflatable(p, u)
  {
    hide ValidLevel, RoundedLevel, Unrigged, LevelText, HullText, Reread, ValidSkin, SkinText, Inflatable;
    LevelTextAgain(p, m.high);
    LevelTextAgain(p, m.medium);
    LevelTextAgain(p, m.low);
    LevelTextAgain(p, m.lowest);
    HullTextAgain(p, m.hull);
  }

  /** What was read is written to the same bytes as what it was read from, less the bindings, and
      comes back from them unchanged. */
  lemma NothingFurtherIsLost(p: Platform, m: Mesh)
    requires ValidMesh(m)
    ensures Serialize(p, RoundedMesh(p, m)) == Serialize(p, UnriggedMesh(m))
    ensures RoundedMesh(p, RoundedMesh(p, m)) == RoundedMesh(p, m)
  {
    hide ValidLevel, RoundedLevel, Unrigged, LevelText, HullText, Reread, ValidSkin, SkinText, SomeEmpty, Header, Contents, Blocks;
    hide Inflatable;
    BlocksAgain(p, m);
    LevelTextAgain(p, m.high);
    LevelTextAgain(p, m.medium);
    LevelTextAgain(p, m.low);
    LevelTextAgain(p, m.lowest);
    HullTextAgain(p, m.hull);
  }

  lemma DomainCarriesAgain(p: Platform, vs: seq<Vector>, d: nat)
    requires Cloud(vs, d) && vs != [] && CarriesDomain(p, vs, d)
    ensures CarriesDomain(p, Reread(vs, d, p.nudge), d)
  {
    hide Low, High, Reread, Carries, Coordinates;
    CoordinatesAgain(p, vs, d);
  }

  lemma LevelCarriesAgain(p: Platform, level: Level)
    requires ValidLevel(level) && CarriesLevel(p, level)
    ensures CarriesLevel(p, RoundedLevel(p, level))
  {
    hide CarriesDomain, Reread, Rounded;
    forall r | r in RoundedLevel(p, level)
      ensures CarriesSubmesh(p, r)
    {
      var i :| 0 <= i < |level| && RoundedLevel(p, level)[i] == r;
      var s := level[i];
      assert s in level && CarriesSubmesh(p, s) && ValidSubmesh(s);
      DomainCarriesAgain(p, s.positions, 3);
      NoneReread(p.nudge);
      if s.texcoords != [] {
        DomainCarriesAgain(p, s.texcoords, 2);
      }
    }
  }

  lemma MeshCarriesAgain(p: Platform, m: Mesh)
    requires ValidMesh(m) && CarriesMesh(p, m)
    ensures CarriesMesh(p, RoundedMesh(p, m))
  {
    hide ValidLevel, CarriesLevel, RoundedLevel, CarriesSkin, CarriesDomain, Reread, ValidSkin;
    LevelCarriesAgain(p, m.high);
    LevelCarriesAgain(p, m.medium);
    LevelCarriesAgain(p, m.low);
    LevelCarriesAgain(p, m.lowest);
    DomainCarriesAgain(p, m.hull, 3);
  }

  /** What was parsed, written again and parsed again is what was parsed the first time, exactly
      when the blocks without the bindings can be inflated. */
  lemma RoundTripTwice(p: Platform, m: Mesh, trailing: Bytes)
    requires Faithful(p) && CarriesMesh(p, m) && ValidMesh(m) && Reachable(p, UnriggedMesh(m))
    ensures var r := RoundedMesh(p, m);
      Parse(p, Serialize(p, r) + trailing) == if AllInflatable(p, UnriggedMesh(m)) then Some(r) else None
    ensures UnriggedMesh(m) == m && AllInflatable(p, m) ==>
      Parse(p, Serialize(p, m)).Some? && Serialize(p, Parse(p, Serialize(p, m)).value) == Serialize(p, m)
  {
    hide ValidMesh, CarriesMesh, AllInflatable, Blocks, Parse, Contents, SomeEmpty, Faithful, RoundedMesh, UnriggedMesh, Header;
    var r := RoundedMesh(p, m);
    BlocksAgain(p, m);
    MeshCarriesAgain(p, m);
    NothingFurtherIsLost(p, m);
    IsWritten(p, m);
    IsWritten(p, r);
    RoundTrip(p, r, trailing);
    if UnriggedMesh(m) == m {
      RoundTrip(p, m, []);
      assert Serialize(p, m) + [] == Serialize(p, m);
    }
  }

  /** zlib never gives back nothing, so a valid mesh is written. */
  lemma IsWritten(p: Platform, m: Mesh)
    requires Faithful(p) && ValidMesh(m)
    ensures Serialize(p, m) != []
  {
    hide LevelText, HullText, SkinText, Header, Contents, ValidMesh;
    assert !SomeEmpty(Blocks(p, m));
    HeaderIsSomething(Blocks(p, m));
  }

  lemma HeaderIsSomething(blocks: seq<Block>)
    ensures Header(blocks) != []
  {
    hide WriteMembers, BigEndian;
  }

  // ----- a mesh that is written and cannot be read -----

  /** A level whose block no buffer holds is not read, whatever its numbers. */
  lemma HighTooLarge(p: Platform, m: Mesh, trailing: Bytes)
    requires Faithful(p) && ValidMesh(m) && Reachable(p, m) && !Inflatable(p, LevelText(p, m.high))
    ensures Serialize(p, m) != [] && Parse(p, Serialize(p, m) + trailing) == None
  {
    hide LevelText, HullText, SkinText, Header, Contents, Listed, BlockAt, ReadHeader, ReadLevel, ReadHull, ReadSkin, Decompress, Inflatable;
    hide Blocks, Reachable, Faithful, ValidMesh;
    IsWritten(p, m);
    var blocks := Blocks(p, m);
    assert Serialize(p, m) + trailing == Header(blocks) + (Contents(blocks) + trailing);
    FindsAll(p, m, trailing);
    Decompresses(p, LevelText(p, m.high));
    NothingReads(p);
  }

  const TRIANGLE := Submesh([[0.0, 0.0, 0.0], [1.0, 0.0, 0.0], [0.0, 1.0, 0.0]], [], [], [0, 1, 2], [])

  /** Eleven million triangles over one vertex: two more index bytes than the largest buffer holds. */
  const PILE: Submesh := TRIANGLE.(indices := seq(33554433, _ => 0))

  const LARGE: Mesh := Mesh([PILE], [TRIANGLE], [TRIANGLE], [TRIANGLE], TRIANGLE.positions, None)

  /** A valid mesh of one face that is written and, wherever the directory can name its blocks,
      cannot be read. */
  lemma TooLargeToRead(p: Platform)
    requires Faithful(p) && Reachable(p, LARGE)
    ensures ValidMesh(LARGE) && Serialize(p, LARGE) != [] && Parse(p, Serialize(p, LARGE)) == None
  {
    hide LevelText, HullText, Reachable, Parse, Contents, Serialize, Faithful, Inflatable;
    LargeIsValid();
    LargeDoesNotFit(p);
    HighTooLarge(p, LARGE, []);
    assert Serialize(p, LARGE) + [] == Serialize(p, LARGE);
  }

  lemma LargeIsValid()
    ensures ValidMesh(LARGE)
  {
    assert ValidSubmesh(PILE) && ValidSubmesh(TRIANGLE);
  }

  lemma {:induction false} LongestMember(ms: seq<Member>, i: nat)
    requires i < |ms|
    ensures |WriteMember(ms[i])| <= |WriteMembers(ms)|
    decreases |ms|
  {
    hide WriteMember;
    if i > 0 {
      LongestMember(ms[1..], i - 1);
    }
  }

  lemma PayloadFits(p: Platform, name: Bytes, payload: Bytes)
    ensures |payload| <= |WriteMember(PartMember(p, Packed(name, payload)))|
  {
    hide BigEndian;
  }

  lemma {:induction false} PartMemberAt(p: Platform, parts: seq<Part>, i: nat)
    requires i < |parts|
    ensures PartMembers(p, parts)[i] == PartMember(p, parts[i])
    decreases |parts|
  {
    if i > 0 {
      PartMemberAt(p, parts[1..], i - 1);
    }
  }

  /** A submesh's text is at least as long as its packed indices. */
  lemma IndicesFit(p: Platform, s: Submesh)
    ensures 2 * |s.indices| <= |Write(SubmeshDocument(p, s))|
  {
    hide WriteMember, BigEndian, PartMember, SubmeshParts, WriteMembers, Stream;
    var parts := SubmeshParts(p, s);
    var last := |parts| - 1;
    assert last >= 0 && parts[last] == Packed(TRIANGLES, Stream(s.indices)) by {
      LastPart(p, s);
    }
    PartMemberAt(p, parts, last);
    LongestMember(PartMembers(p, parts), last);
    PayloadFits(p, TRIANGLES, Stream(s.indices));
  }

  lemma LastPart(p: Platform, s: Submesh)
    ensures var parts := SubmeshParts(p, s); parts != [] && parts[|parts| - 1] == Packed(TRIANGLES, Stream(s.indices))
  {
    hide Placing, Binding, Facing, Dressing, Stream;
  }

  lemma LargeDoesNotFit(p: Platform)
    ensures !Inflatable(p, LevelText(p, LARGE.high))
  {
    hide BigEndian, FirstCapacity, Write, SubmeshDocument;
    var e := SubmeshDocument(p, PILE);
    IndicesFit(p, PILE);
    assert LARGE.high == [PILE] && [PILE][1..] == [];
    assert SubmeshDocuments(p, [PILE]) == [e] && [e][1..] == [];
    assert WriteElements([e]) == Write(e) + [];
    ArrayIsLonger([e]);
  }

  lemma ArrayIsLonger(es: seq<Llsd>)
    ensures |WriteElements(es)| < |Write(Array(es))|
  {
    hide WriteElements, BigEndian;
  }
}
