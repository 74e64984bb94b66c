/** The mesh asset by the names and sizes its other readers know. */
module MeshWire {
  import opened Prelude
  import opened Llsd
  import opened MeshQuantize
  import opened MeshAsset
  import opened MeshAssetLaws

  /** The value under a key. */
  function Under(ms: seq<Member>, key: Bytes): Option<Llsd> {
    if ms == [] then None else if ms[0].key == key then Some(ms[0].value) else Under(ms[1..], key)
  }

  lemma {:induction false} UnderAt(ms: seq<Member>, i: nat)
    requires i < |ms| && forall j :: 0 <= j < i ==> ms[j].key != ms[i].key
    ensures Under(ms, ms[i].key) == Some(ms[i].value)
    decreases i
  {
    if i > 0 {
      UnderAt(ms[1..], i - 1);
    }
  }

  lemma {:induction false} UnderNone(ms: seq<Member>, key: Bytes)
    requires forall j :: 0 <= j < |ms| ==> ms[j].key != key
    ensures Under(ms, key) == None
    decreases |ms|
  {
    if ms != [] {
      UnderNone(ms[1..], key);
    }
  }

  // ----- a submesh -----

  lemma SubmeshNames()
    ensures POSITION_DOMAIN == "PositionDomain" && POSITION == "Position" && WEIGHTS == "Weights" && NORMAL == "Normal"
    ensures TEXCOORD_DOMAIN == "TexCoord0Domain" && TEXCOORD == "TexCoord0" && TRIANGLES == "TriangleList"
    ensures MIN == "Min" && MAX == "Max" && VERTICES == "BoundingVerts"
  {
  }

  lemma {:induction false} PartMemberOf(p: Platform, parts: seq<Part>, i: nat)
    requires i < |parts|
    ensures PartMembers(p, parts)[i] == PartMember(p, parts[i])
    decreases i
  {
    hide PartMember;
    if i > 0 {
      PartMemberOf(p, parts[1..], i - 1);
    }
  }

  function KeyOf(part: Part): Bytes {
    match part
    case PositionDomain(_, _) => "PositionDomain"
    case TexcoordDomain(_, _) => "TexCoord0Domain"
    case Packed(name, _) => name
  }

  lemma PartKeys(p: Platform, parts: seq<Part>)
    ensures forall i :: 0 <= i < |parts| ==> PartMembers(p, parts)[i].key == KeyOf(parts[i])
  {
    SubmeshNames();
    forall i | 0 <= i < |parts|
      ensures PartMembers(p, parts)[i].key == KeyOf(parts[i])
    {
      PartMemberOf(p, parts, i);
    }
  }

  /** A part whose key no earlier part has is what stands under its key. */
  lemma PartUnder(p: Platform, parts: seq<Part>, i: nat)
    requires i < |parts| && forall j :: 0 <= j < i ==> KeyOf(parts[j]) != KeyOf(parts[i])
    ensures Under(PartMembers(p, parts), KeyOf(parts[i])) == Some(PartMember(p, parts[i]).value)
  {
    hide KeyOf, PartMember;
    PartKeys(p, parts);
    PartMemberOf(p, parts, i);
    UnderAt(PartMembers(p, parts), i);
  }

  lemma NoPartUnder(p: Platform, parts: seq<Part>, key: Bytes)
    requires forall j :: 0 <= j < |parts| ==> KeyOf(parts[j]) != key
    ensures Under(PartMembers(p, parts), key) == None
  {
    hide KeyOf;
    PartKeys(p, parts);
    UnderNone(PartMembers(p, parts), key);
  }

  /** Where each part of a submesh stands in its list, if it is there. */
  lemma PartPlaces(p: Platform, s: Submesh)
    ensures var parts := SubmeshParts(p, s);
      var w := if s.influences == [] then 0 else 1; var n := if s.normals == [] then 0 else 1;
      var t := if s.texcoords == [] then 0 else 2;
      && |parts| == 3 + w + n + t && parts[0] == Placing(p, s)[0] && parts[1] == Placing(p, s)[1]
      && (w == 1 ==> parts[2] == Binding(s)[0]) && (n == 1 ==> parts[2 + w] == Facing(s)[0])
      && (t == 2 ==> parts[2 + w + n] == Dressing(p, s)[0] && parts[3 + w + n] == Dressing(p, s)[1])
      && parts[2 + w + n + t] == Listing(s)[0]
  {
    hide Coordinates, Low, High, Stream, Quanta, Weights;
  }

  lemma KeysOfParts(p: Platform, s: Submesh)
    ensures KeyOf(Placing(p, s)[0]) == "PositionDomain" && KeyOf(Placing(p, s)[1]) == "Position"
    ensures s.influences != [] ==> KeyOf(Binding(s)[0]) == "Weights"
    ensures s.normals != [] ==> KeyOf(Facing(s)[0]) == "Normal"
    ensures s.texcoords != [] ==> KeyOf(Dressing(p, s)[0]) == "TexCoord0Domain" && KeyOf(Dressing(p, s)[1]) == "TexCoord0"
    ensures KeyOf(Listing(s)[0]) == "TriangleList"
  {
    SubmeshNames();
    hide Coordinates, Low, High, Stream, Quanta, Weights;
  }

  lemma KeysApart()
    ensures |"PositionDomain"| == 14 && |"Position"| == 8 && |"Weights"| == 7 && |"Normal"| == 6
    ensures |"TexCoord0Domain"| == 15 && |"TexCoord0"| == 9 && |"TriangleList"| == 12
  {
  }

  /** Positions and triangles always. */
  lemma ShapeOnTheWire(p: Platform, s: Submesh)
    ensures SubmeshDocument(p, s).Map?
    ensures var ms := SubmeshDocument(p, s).members;
      && Under(ms, "PositionDomain") == Some(Bounds(p, Low(s.positions, 3), High(s.positions, 3, p.nudge)))
      && Under(ms, "Position") == Some(Binary(Coordinates(p, s.positions, 3)))
      && Under(ms, "TriangleList") == Some(Binary(Stream(s.indices)))
  {
    KeysApart();
    KeysOfParts(p, s);
    PartPlaces(p, s);
    PartValues(p, s);
    hide KeyOf, SubmeshParts, PartMember, Placing, Binding, Facing, Dressing, Listing, Coordinates, Low, High, Stream, Quanta, Weights, Bounds, Under;
    var parts := SubmeshParts(p, s);
    PartUnder(p, parts, 0);
    PartUnder(p, parts, 1);
    PartUnder(p, parts, |parts| - 1);
  }

  /** Bindings and normals when there are any. */
  lemma SurfaceOnTheWire(p: Platform, s: Submesh)
    ensures SubmeshDocument(p, s).Map?
    ensures var ms := SubmeshDocument(p, s).members;
      && Under(ms, "Weights") == (if s.influences == [] then None else Some(Binary(Weights(s, |s.positions|))))
      && Under(ms, "Normal")
         == if s.normals == [] then None else Some(Binary(Stream(Quanta(s.normals, UNIT_LOW, UNIT_HIGH))))
  {
    KeysApart();
    KeysOfParts(p, s);
    PartPlaces(p, s);
    PartValues(p, s);
    hide KeyOf, SubmeshParts, PartMember, Placing, Binding, Facing, Dressing, Listing, Coordinates, Low, High, Stream, Quanta, Weights, Bounds, Under;
    var parts := SubmeshParts(p, s);
    if s.influences != [] {
      PartUnder(p, parts, 2);
    } else {
      NoPartUnder(p, parts, "Weights");
    }
    if s.normals != [] {
      PartUnder(p, parts, if s.influences == [] then 2 else 3);
    } else {
      NoPartUnder(p, parts, "Normal");
    }
  }

  /** Texture coordinates, with a domain of their own, when there are any. */
  lemma TextureOnTheWire(p: Platform, s: Submesh)
    ensures SubmeshDocument(p, s).Map?
    ensures var ms := SubmeshDocument(p, s).members;
      && Under(ms, "TexCoord0Domain")
         == (if s.texcoords == [] then None else Some(Bounds(p, Low(s.texcoords, 2), High(s.texcoords, 2, p.nudge))))
      && Under(ms, "TexCoord0") == if s.texcoords == [] then None else Some(Binary(Coordinates(p, s.texcoords, 2)))
  {
    KeysApart();
    KeysOfParts(p, s);
    PartPlaces(p, s);
    PartValues(p, s);
    hide KeyOf, SubmeshParts, PartMember, Placing, Binding, Facing, Dressing, Listing, Coordinates, Low, High, Stream, Quanta, Weights, Bounds, Under;
    var parts := SubmeshParts(p, s);
    if s.texcoords != [] {
      PartUnder(p, parts, |parts| - 3);
      PartUnder(p, parts, |parts| - 2);
    } else {
      NoPartUnder(p, parts, "TexCoord0Domain");
      NoPartUnder(p, parts, "TexCoord0");
    }
  }

  lemma PartValues(p: Platform, s: Submesh)
    ensures PartMember(p, Placing(p, s)[0]).value == Bounds(p, Low(s.positions, 3), High(s.positions, 3, p.nudge))
    ensures PartMember(p, Placing(p, s)[1]).value == Binary(Coordinates(p, s.positions, 3))
    ensures PartMember(p, Listing(s)[0]).value == Binary(Stream(s.indices))
    ensures s.influences != [] ==> PartMember(p, Binding(s)[0]).value == Binary(Weights(s, |s.positions|))
    ensures s.normals != [] ==> PartMember(p, Facing(s)[0]).value == Binary(Stream(Quanta(s.normals, UNIT_LOW, UNIT_HIGH)))
    ensures s.texcoords != [] ==>
      && PartMember(p, Dressing(p, s)[0]).value == Bounds(p, Low(s.texcoords, 2), High(s.texcoords, 2, p.nudge))
      && PartMember(p, Dressing(p, s)[1]).value == Binary(Coordinates(p, s.texcoords, 2))
  {
    hide Coordinates, Low, High, Stream, Quanta, Weights, Bounds;
  }

  /** A domain's ends by name, and a hull's. */
  lemma BoundsOnTheWire(p: Platform, low: Vector, high: Vector)
    ensures Bounds(p, low, high) == Map([Member("Min", Array(Numbers(p, low))), Member("Max", Array(Numbers(p, high)))])
  {
    SubmeshNames();
  }

  lemma HullOnTheWire(p: Platform, hull: seq<Vec3>)
    ensures HullText(p, hull) == Write(Map([
      Member("Min", Array(Numbers(p, Low(hull, 3)))), Member("Max", Array(Numbers(p, High(hull, 3, p.nudge)))),
      Member("BoundingVerts", Binary(Coordinates(p, hull, 3)))]))
  {
    SubmeshNames();
    hide Coordinates, Low, High, Numbers, Write;
  }

  /** Every vertex's bindings stand one after the other, none for a vertex that has no list. */
  lemma WeightsInOrder(s: Submesh, vertices: nat, v: nat)
    requires v < vertices
    ensures |Weights(s, v)| <= |Weights(s, v + 1)| <= |Weights(s, vertices)|
    ensures Weights(s, vertices)[|Weights(s, v)|..|Weights(s, v + 1)|]
      == Bindings(if v < |s.influences| then s.influences[v] else [], 0)
    decreases vertices
  {
    hide Bindings;
    if v + 1 < vertices {
      WeightsInOrder(s, vertices - 1, v);
    }
  }

  /** A weight is written as its part of 65535, rounded down, held between nothing and all of it. */
  lemma WeightIsClose(w: Float)
    ensures var n := Scaled16(w) as real;
      && (w <= 0.0 ==> n == 0.0) && (w >= 1.0 ==> n == 65535.0)
      && (0.0 <= w <= 1.0 ==> n / 65535.0 <= w < (n + 1.0) / 65535.0)
  {
  }

  // ----- a skin -----

  lemma SkinNames()
    ensures JOINTS == "joint_names" && INVERSE_BIND == "inverse_bind_matrix" && BIND_SHAPE == "bind_shape_matrix"
    ensures ALTERNATE_BIND == "alt_inverse_bind_matrix" && PELVIS == "pelvis_offset"
    ensures LOCK_SCALE == "lock_scale_if_joint_position"
  {
  }

  /** A skin's entries by name and in order, the alternate matrices only where there are any. */
  lemma SkinOnTheWire(p: Platform, s: Skin)
    ensures SkinMembers(p, SkinParts(s)) ==
      [Member("joint_names", Array(Texts(s.joints))), Member("inverse_bind_matrix", Array(MatrixDocuments(p, s.inverseBind))),
       Member("bind_shape_matrix", Array(Numbers(p, s.bindShape)))]
      + (if s.alternateInverseBind == [] then []
         else [Member("alt_inverse_bind_matrix", Array(MatrixDocuments(p, s.alternateInverseBind)))])
      + [Member("pelvis_offset", Real(p.bits(s.pelvisOffset))), Member("lock_scale_if_joint_position", Boolean(s.lockScale))]
  {
    SkinNames();
    hide JOINTS, INVERSE_BIND, BIND_SHAPE, ALTERNATE_BIND, PELVIS, LOCK_SCALE, Texts, MatrixDocuments, Numbers;
    var tail := [Pelvis(s.pelvisOffset), LockScale(s.lockScale)];
    var middle := if s.alternateInverseBind == [] then [] else [AlternateBind(s.alternateInverseBind)];
    assert SkinParts(s) == [Joints(s.joints)] + ([InverseBind(s.inverseBind)] + ([BindShape(s.bindShape)] + (middle + tail)));
    OneSkinMember(p, Joints(s.joints), [InverseBind(s.inverseBind)] + ([BindShape(s.bindShape)] + (middle + tail)));
    OneSkinMember(p, InverseBind(s.inverseBind), [BindShape(s.bindShape)] + (middle + tail));
    OneSkinMember(p, BindShape(s.bindShape), middle + tail);
    if s.alternateInverseBind != [] {
      OneSkinMember(p, middle[0], tail);
      assert [middle[0]] + tail == middle + tail;
    } else {
      assert middle + tail == tail;
    }
    assert tail == [tail[0]] + ([tail[1]] + []);
    OneSkinMember(p, tail[0], [tail[1]] + []);
    OneSkinMember(p, tail[1], []);
  }

  lemma OneSkinMember(p: Platform, part: SkinPart, rest: seq<SkinPart>)
    ensures SkinMembers(p, [part] + rest) == [SkinMember(p, part)] + SkinMembers(p, rest)
  {
    hide SkinMember;
    assert ([part] + rest)[1..] == rest;
  }

  /** A skin that is read starts out as one that names nothing: no joints, an identity shape, no
      offset, and joints not locked. */
  lemma SkinStartsEmpty()
    ensures NO_SKIN.joints == [] && NO_SKIN.inverseBind == [] && NO_SKIN.alternateInverseBind == []
    ensures NO_SKIN.bindShape == [1.0, 0.0, 0.0, 0.0, 0.0, 1.0, 0.0, 0.0, 0.0, 0.0, 1.0, 0.0, 0.0, 0.0, 0.0, 1.0]
    ensures NO_SKIN.pelvisOffset == 0.0 && !NO_SKIN.lockScale
  {
  }

  // ----- the directory -----

  lemma BlockNames()
    ensures HIGH_LOD == "high_lod" && MEDIUM_LOD == "medium_lod" && LOW_LOD == "low_lod" && LOWEST_LOD == "lowest_lod"
    ensures PHYSICS == "physics_convex" && SKIN == "skin" && OFFSET == "offset" && SIZE == "size" && VERSION == "version"
  {
  }

  /** What is compressed under each name. */
  lemma BlocksOnTheWire(p: Platform, m: Mesh)
    ensures var blocks := Blocks(p, m);
      && blocks[..5] == [
           Block("high_lod", p.deflate(LevelText(p, m.high))), Block("medium_lod", p.deflate(LevelText(p, m.medium))),
           Block("low_lod", p.deflate(LevelText(p, m.low))), Block("lowest_lod", p.deflate(LevelText(p, m.lowest))),
           Block("physics_convex", p.deflate(HullText(p, m.hull)))]
      && blocks[5..] == if m.skin == None then [] else [Block("skin", p.deflate(SkinText(p, m.skin.value)))]
  {
    BlockNames();
    hide LevelText, HullText, SkinText;
  }

  function SizeBefore(blocks: seq<Block>, i: nat): nat
    requires i <= |blocks|
  {
    if i == 0 then 0 else SizeBefore(blocks, i - 1) + |blocks[i - 1].bytes|
  }

  lemma {:induction false} SizeShifts(blocks: seq<Block>, i: nat)
    requires i < |blocks|
    ensures SizeBefore(blocks, i + 1) == |blocks[0].bytes| + SizeBefore(blocks[1..], i)
    decreases i
  {
    if i > 0 {
      SizeShifts(blocks, i - 1);
    }
  }

  lemma {:induction false} SizesGrow(blocks: seq<Block>, i: nat)
    requires i <= |blocks|
    ensures SizeBefore(blocks, i) <= SizeBefore(blocks, |blocks|)
    decreases |blocks| - i
  {
    if i < |blocks| {
      SizesGrow(blocks, i + 1);
    }
  }

  lemma {:induction false} EntryOnTheWire(blocks: seq<Block>, offset: nat, i: nat)
    requires i < |blocks| && offset + SizeBefore(blocks, |blocks|) < 0x8000_0000
    ensures offset + SizeBefore(blocks, i) < 0x8000_0000 && |blocks[i].bytes| < 0x8000_0000
    ensures Directory(blocks, offset)[i] == Member(blocks[i].name, Map([
      Member("offset", Integer(offset + SizeBefore(blocks, i))), Member("size", Integer(|blocks[i].bytes|))]))
    decreases i
  {
    BlockNames();
    hide OFFSET, SIZE;
    SizesGrow(blocks, i);
    SizesGrow(blocks, i + 1);
    SizesGrow(blocks, 1);
    if i > 0 {
      SizeShifts(blocks, i - 1);
      SizeShifts(blocks, |blocks| - 1);
      EntryOnTheWire(blocks[1..], offset + |blocks[0].bytes|, i - 1);
    }
  }

  /** The directory: version 1, then each block's name, the size of the blocks before it, and its own. */
  lemma DirectoryOnTheWire(blocks: seq<Block>, i: nat) returns (ms: seq<Member>)
    requires i < |blocks| && SizeBefore(blocks, |blocks|) < 0x8000_0000
    ensures Header(blocks) == Write(Map(ms)) && |ms| == |blocks| + 1 && ms[0] == Member("version", Integer(1))
    ensures SizeBefore(blocks, i) < 0x8000_0000 && |blocks[i].bytes| < 0x8000_0000
    ensures ms[i + 1] == Member(blocks[i].name, Map([
      Member("offset", Integer(SizeBefore(blocks, i))), Member("size", Integer(|blocks[i].bytes|))]))
  {
    BlockNames();
    hide VERSION, Write, Directory;
    EntryOnTheWire(blocks, 0, i);
    ms := [Member(VERSION, Integer(1))] + Directory(blocks, 0);
  }

  // ----- buffers -----

  function Fourfold(c: nat, n: nat): nat
    decreases n
  {
    if n == 0 then c else Fourfold(4 * c, n - 1)
  }

  lemma {:induction false} FourfoldGrows(c: nat, n: nat)
    ensures c <= Fourfold(c, n)
    decreases n
  {
    if n > 0 {
      FourfoldGrows(4 * c, n - 1);
    }
  }

  /** Some fourfold of the buffer is within the limit and large enough. */
  ghost predicate Fits(c: nat, raw: nat) {
    exists n: nat :: Fourfold(c, n) <= 0x400_0000 && raw <= Fourfold(c, n)
  }

  lemma FitsLater(c: nat, raw: nat)
    ensures Fits(4 * c, raw) ==> Fits(c, raw)
    ensures Fits(c, raw) && 4 * c <= 0x400_0000 ==> Fits(4 * c, raw)
    ensures Fits(c, raw) && 4 * c > 0x400_0000 ==> raw <= c <= 0x400_0000
  {
    if n: nat :| Fourfold(4 * c, n) <= 0x400_0000 && raw <= Fourfold(4 * c, n) {
      assert Fourfold(c, n + 1) == Fourfold(4 * c, n);
    }
    if n: nat :| Fourfold(c, n) <= 0x400_0000 && raw <= Fourfold(c, n) {
      if n == 0 {
        assert Fourfold(4 * c, 0) == 4 * c;
      } else {
        FourfoldGrows(4 * c, n - 1);
      }
    }
  }

  lemma {:induction false} LastIsFourfold(c: nat, raw: nat)
    requires 0 < c <= LARGEST
    ensures raw <= LastCapacity(c) <==> Fits(c, raw)
    decreases LARGEST - c
  {
    hide Fits;
    FitsLater(c, raw);
    if 4 * c > LARGEST {
      assert raw <= c ==> Fits(c, raw) by { FitsNow(c, raw); }
    } else {
      LastIsFourfold(4 * c, raw);
    }
  }

  lemma FitsNow(c: nat, raw: nat)
    requires c <= 0x400_0000
    ensures raw <= c ==> Fits(c, raw)
  {
    assert Fourfold(c, 0) == c;
  }

  /** A block can be inflated exactly when its text fits eight times the block's size, or 64 KiB if
      that is more, or a fourfold of it again and again up to 64 MiB. */
  lemma InflatableIs(p: Platform, raw: Bytes)
    ensures var packed := |p.deflate(raw)|; var first := if 8 * packed > 0x1_0000 then 8 * packed else 0x1_0000;
      Inflatable(p, raw) <==> Fits(first, |raw|)
  {
    hide Fits;
    var first := FirstCapacity(p.deflate(raw));
    if first <= LARGEST {
      LastIsFourfold(first, |raw|);
    } else {
      assert !Fits(first, |raw|) by { TooMuchToFit(first, |raw|); }
    }
  }

  lemma TooMuchToFit(c: nat, raw: nat)
    requires c > 0x400_0000
    ensures !Fits(c, raw)
  {
    forall n: nat
      ensures Fourfold(c, n) > 0x400_0000
    {
      FourfoldGrows(c, n);
    }
  }
}
