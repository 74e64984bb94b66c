/** The mesh asset: quantized levels, a hull and a skin, each a compressed LLSD document that a
    directory at the front names. Its writer fills in documents; its reader is written by hand over
    the bytes. zlib, and the eight bytes of a double, are given. */
module MeshAsset {
  import opened Prelude
  import opened Llsd
  import opened MeshQuantize

  type Vec3 = v: Vector | |v| == 3 witness [0.0, 0.0, 0.0]

  type Vec2 = v: Vector | |v| == 2 witness [0.0, 0.0]

  const IDENTITY: Vector := [1.0, 0.0, 0.0, 0.0, 0.0, 1.0, 0.0, 0.0, 0.0, 0.0, 1.0, 0.0, 0.0, 0.0, 0.0, 1.0]

  type Matrix = v: Vector | |v| == 16 witness IDENTITY

  type uint8 = x: int | 0 <= x < 0x100

  datatype Influence = Influence(joint: uint8, weight: Float)

  datatype Submesh = Submesh(
    positions: seq<Vec3>, normals: seq<Vec3>, texcoords: seq<Vec2>, indices: seq<uint16>,
    influences: seq<seq<Influence>>)

  type Level = seq<Submesh>

  datatype Skin = Skin(
    joints: seq<Bytes>, inverseBind: seq<Matrix>, bindShape: Matrix, alternateInverseBind: seq<Matrix>,
    pelvisOffset: Float, lockScale: bool)

  datatype Mesh = Mesh(
    high: Level, medium: Level, low: Level, lowest: Level, hull: seq<Vec3>, skin: Option<Skin>)

  /** What the format leaves to others: a double's bits, the widening of a flat axis, and zlib. */
  datatype Platform = Platform(
    bits: Float -> uint64, value: uint64 -> Float, nudge: Float -> Float,
    deflate: Bytes -> Bytes, inflate: Bytes -> Option<Bytes>)

  // ----- names -----

  const POSITION_DOMAIN: Bytes := "PositionDomain"
  const TEXCOORD_DOMAIN: Bytes := "TexCoord0Domain"
  const POSITION: Bytes := "Position"
  const WEIGHTS: Bytes := "Weights"
  const NORMAL: Bytes := "Normal"
  const TEXCOORD: Bytes := "TexCoord0"
  const TRIANGLES: Bytes := "TriangleList"
  const MIN: Bytes := "Min"
  const MAX: Bytes := "Max"
  const VERTICES: Bytes := "BoundingVerts"
  const JOINTS: Bytes := "joint_names"
  const INVERSE_BIND: Bytes := "inverse_bind_matrix"
  const BIND_SHAPE: Bytes := "bind_shape_matrix"
  const ALTERNATE_BIND: Bytes := "alt_inverse_bind_matrix"
  const PELVIS: Bytes := "pelvis_offset"
  const LOCK_SCALE: Bytes := "lock_scale_if_joint_position"
  const HIGH_LOD: Bytes := "high_lod"
  const MEDIUM_LOD: Bytes := "medium_lod"
  const LOW_LOD: Bytes := "low_lod"
  const LOWEST_LOD: Bytes := "lowest_lod"
  const PHYSICS: Bytes := "physics_convex"
  const SKIN: Bytes := "skin"
  const OFFSET: Bytes := "offset"
  const SIZE: Bytes := "size"
  const VERSION: Bytes := "version"

  // ----- zlib -----

  const SMALLEST: nat := 0x1_0000
  const LARGEST: nat := 0x400_0000

  /** Grow and retry: the buffer quadruples until the text fits or the buffer may grow no more. */
  function Inflated(p: Platform, packed: Bytes, capacity: nat): Bytes
    requires capacity > 0
    decreases LARGEST - capacity
  {
    if capacity > LARGEST then []
    else
      match p.inflate(packed)
      case None => []
      case Some(raw) => if |raw| <= capacity then raw else Inflated(p, packed, 4 * capacity)
  }

  function FirstCapacity(packed: Bytes): (c: nat)
    ensures c > 0
  {
    if 8 * |packed| > SMALLEST then 8 * |packed| else SMALLEST
  }

  function Decompress(p: Platform, packed: Bytes): Bytes {
    Inflated(p, packed, FirstCapacity(packed))
  }

  // ----- writing -----

  function Numbers(p: Platform, xs: Vector): (r: seq<Llsd>)
    ensures |r| == |xs| && forall i :: 0 <= i < |xs| ==> r[i] == Real(p.bits(xs[i]))
  {
    seq(|xs|, i requires 0 <= i < |xs| => Real(p.bits(xs[i])))
  }

  function Bounds(p: Platform, low: Vector, high: Vector): Llsd {
    Map([Member(MIN, Array(Numbers(p, low))), Member(MAX, Array(Numbers(p, high)))])
  }

  function Coordinates(p: Platform, vs: seq<Vector>, d: nat): Bytes
    requires Cloud(vs, d)
  {
    Stream(Quanta(vs, Low(vs, d), High(vs, d, p.nudge)))
  }

  const UNIT_LOW: Vec3 := [-1.0, -1.0, -1.0]
  const UNIT_HIGH: Vec3 := [1.0, 1.0, 1.0]

  const MARKER: uint8 := 255

  /** A vertex's bindings: at most four, without those the format has no index for, ended by a
      marker when fewer. */
  function Bindings(list: seq<Influence>, written: nat): Bytes {
    if list == [] || written == 4 then if written < 4 then [MARKER as char] else []
    else if list[0].joint >= MARKER then Bindings(list[1..], written)
    else [list[0].joint as char] + (Short(Scaled16(list[0].weight)) + Bindings(list[1..], written + 1))
  }

  function Scaled16(weight: Float): uint16 {
    (Clamp(weight) * STEPS).Floor
  }

  function BindingsAt(s: Submesh, vertex: nat): Bytes {
    Bindings(if vertex < |s.influences| then s.influences[vertex] else [], 0)
  }

  function Weights(s: Submesh, vertices: nat): Bytes {
    if vertices == 0 then [] else Weights(s, vertices - 1) + BindingsAt(s, vertices - 1)
  }

  /** One entry of a submesh's map. */
  datatype Part =
    | PositionDomain(low: Vec3, high: Vec3)
    | TexcoordDomain(uvLow: Vec2, uvHigh: Vec2)
    | Packed(name: Bytes, payload: Bytes)

  function PartMember(p: Platform, part: Part): Member {
    match part
    case PositionDomain(low, high) => Member(POSITION_DOMAIN, Bounds(p, low, high))
    case TexcoordDomain(low, high) => Member(TEXCOORD_DOMAIN, Bounds(p, low, high))
    case Packed(name, payload) => Member(name, Binary(payload))
  }

  function PartMembers(p: Platform, parts: seq<Part>): (r: seq<Member>)
    ensures |r| == |parts|
  {
    if parts == [] then [] else [PartMember(p, parts[0])] + PartMembers(p, parts[1..])
  }

  function Placing(p: Platform, s: Submesh): seq<Part> {
    [PositionDomain(Low(s.positions, 3), High(s.positions, 3, p.nudge)), Packed(POSITION, Coordinates(p, s.positions, 3))]
  }

  function Binding(s: Submesh): seq<Part> {
    if s.influences == [] then [] else [Packed(WEIGHTS, Weights(s, |s.positions|))]
  }

  function Facing(s: Submesh): seq<Part> {
    if s.normals == [] then [] else [Packed(NORMAL, Stream(Quanta(s.normals, UNIT_LOW, UNIT_HIGH)))]
  }

  function Dressing(p: Platform, s: Submesh): seq<Part> {
    if s.texcoords == [] then []
    else [TexcoordDomain(Low(s.texcoords, 2), High(s.texcoords, 2, p.nudge)), Packed(TEXCOORD, Coordinates(p, s.texcoords, 2))]
  }

  function Listing(s: Submesh): seq<Part> {
    [Packed(TRIANGLES, Stream(s.indices))]
  }

  function SubmeshParts(p: Platform, s: Submesh): seq<Part> {
    Placing(p, s) + Binding(s) + Facing(s) + Dressing(p, s) + Listing(s)
  }

  function SubmeshDocument(p: Platform, s: Submesh): Llsd {
    Map(PartMembers(p, SubmeshParts(p, s)))
  }

  function SubmeshDocuments(p: Platform, level: Level): (r: seq<Llsd>)
    ensures |r| == |level|
  {
    if level == [] then [] else [SubmeshDocument(p, level[0])] + SubmeshDocuments(p, level[1..])
  }

  function LevelText(p: Platform, level: Level): Bytes {
    Write(Array(SubmeshDocuments(p, level)))
  }

  function HullText(p: Platform, hull: seq<Vec3>): Bytes {
    Write(Map([
      Member(MIN, Array(Numbers(p, Low(hull, 3)))), Member(MAX, Array(Numbers(p, High(hull, 3, p.nudge)))),
      Member(VERTICES, Binary(Coordinates(p, hull, 3)))]))
  }

  function Texts(names: seq<Bytes>): (r: seq<Llsd>)
    ensures |r| == |names|
  {
    if names == [] then [] else [Text(names[0])] + Texts(names[1..])
  }

  function MatrixDocuments(p: Platform, ms: seq<Matrix>): (r: seq<Llsd>)
    ensures |r| == |ms|
  {
    if ms == [] then [] else [Array(Numbers(p, ms[0]))] + MatrixDocuments(p, ms[1..])
  }

  /** One entry of the skin's map. */
  datatype SkinPart =
    | Joints(names: seq<Bytes>)
    | InverseBind(inverse: seq<Matrix>)
    | BindShape(shape: Matrix)
    | AlternateBind(alternate: seq<Matrix>)
    | Pelvis(offset: Float)
    | LockScale(locked: bool)

  function SkinMember(p: Platform, part: SkinPart): Member {
    match part
    case Joints(names) => Member(JOINTS, Array(Texts(names)))
    case InverseBind(ms) => Member(INVERSE_BIND, Array(MatrixDocuments(p, ms)))
    case BindShape(m) => Member(BIND_SHAPE, Array(Numbers(p, m)))
    case AlternateBind(ms) => Member(ALTERNATE_BIND, Array(MatrixDocuments(p, ms)))
    case Pelvis(x) => Member(PELVIS, Real(p.bits(x)))
    case LockScale(locked) => Member(LOCK_SCALE, Boolean(locked))
  }

  function SkinMembers(p: Platform, parts: seq<SkinPart>): (r: seq<Member>)
    ensures |r| == |parts|
  {
    if parts == [] then [] else [SkinMember(p, parts[0])] + SkinMembers(p, parts[1..])
  }

  function SkinParts(s: Skin): seq<SkinPart> {
    [Joints(s.joints), InverseBind(s.inverseBind), BindShape(s.bindShape)]
    + (if s.alternateInverseBind == [] then [] else [AlternateBind(s.alternateInverseBind)])
    + [Pelvis(s.pelvisOffset), LockScale(s.lockScale)]
  }

  function SkinText(p: Platform, s: Skin): Bytes {
    Write(Map(SkinMembers(p, SkinParts(s))))
  }

  /** A skin names as many joints as it has matrices; a partial override would move some joints only. */
  predicate ValidSkin(s: Skin) {
    && s.joints != [] && |s.joints| == |s.inverseBind|
    && (s.alternateInverseBind == [] || |s.alternateInverseBind| == |s.joints|)
  }

  predicate ValidSubmesh(s: Submesh) {
    && s.positions != [] && s.indices != [] && |s.indices| % 3 == 0 && |s.positions| <= 65535
    && (s.normals == [] || |s.normals| == |s.positions|)
    && (s.texcoords == [] || |s.texcoords| == |s.positions|)
    && forall i :: i in s.indices ==> i < |s.positions|
  }

  predicate ValidLevel(level: Level) {
    level != [] && forall s :: s in level ==> ValidSubmesh(s)
  }

  predicate ValidMesh(m: Mesh) {
    && ValidLevel(m.high) && ValidLevel(m.medium) && ValidLevel(m.low) && ValidLevel(m.lowest)
    && m.hull != [] && (m.skin.Some? ==> ValidSkin(m.skin.value))
  }

  datatype Block = Block(name: Bytes, bytes: Bytes)

  function Blocks(p: Platform, m: Mesh): seq<Block> {
    [Block(HIGH_LOD, p.deflate(LevelText(p, m.high))), Block(MEDIUM_LOD, p.deflate(LevelText(p, m.medium))),
     Block(LOW_LOD, p.deflate(LevelText(p, m.low))), Block(LOWEST_LOD, p.deflate(LevelText(p, m.lowest))),
     Block(PHYSICS, p.deflate(HullText(p, m.hull)))]
    + match m.skin case None => [] case Some(s) => [Block(SKIN, p.deflate(SkinText(p, s)))]
  }

  function DirectoryEntry(block: Block, offset: nat): Member {
    Member(block.name, Map([Member(OFFSET, Integer(Wrap32(offset))), Member(SIZE, Integer(Wrap32(|block.bytes|)))]))
  }

  /** Where each block is, counted from the first byte after the directory. */
  function Directory(blocks: seq<Block>, offset: nat): (r: seq<Member>)
    ensures |r| == |blocks|
  {
    if blocks == [] then []
    else [DirectoryEntry(blocks[0], offset)] + Directory(blocks[1..], (offset + |blocks[0].bytes|) % TWO_32)
  }

  function Header(blocks: seq<Block>): Bytes {
    Write(Map([Member(VERSION, Integer(1))] + Directory(blocks, 0)))
  }

  function Contents(blocks: seq<Block>): Bytes {
    if blocks == [] then [] else blocks[0].bytes + Contents(blocks[1..])
  }

  predicate SomeEmpty(blocks: seq<Block>) {
    exists b :: b in blocks && b.bytes == []
  }

  /** The bytes of an asset; nothing when the mesh cannot be carried. */
  function Serialize(p: Platform, m: Mesh): Bytes {
    if !ValidMesh(m) || SomeEmpty(Blocks(p, m)) then [] else Header(Blocks(p, m)) + Contents(Blocks(p, m))
  }

  // ----- reading: pieces -----

  function Expect(b: Bytes, pos: nat, tag: Byte): (r: Read<Byte>)
    ensures r.Got? ==> r.next == pos + 1 <= |b| && b[pos] == tag
  {
    if pos < |b| && b[pos] == tag then Got(tag, pos + 1) else Bad
  }

  /** An opening bracket and the count after it. */
  function ReadOpen(b: Bytes, pos: nat, tag: Byte): (r: Read<nat>)
    ensures r.Got? ==> r.next == pos + 5 <= |b| && r.value < TWO_32
  {
    match Expect(b, pos, tag)
    case Got(_, next) => ReadWord(b, next, 4)
    case Bad => Bad
  }

  function ReadReal(p: Platform, b: Bytes, pos: nat): (r: Read<Float>)
    ensures r.Got? ==> r.next == pos + 9 <= |b|
  {
    match Expect(b, pos, 'r')
    case Bad => Bad
    case Got(_, next) =>
      match ReadWord(b, next, 8)
      case Got(n, end) => Got(p.value(n), end)
      case Bad => Bad
  }

  function ReadInteger(b: Bytes, pos: nat): (r: Read<int32>)
    ensures r.Got? ==> r.next == pos + 5 <= |b|
  {
    match Expect(b, pos, 'i')
    case Bad => Bad
    case Got(_, next) =>
      match ReadWord(b, next, 4)
      case Got(n, end) => Got(Wrap32(n), end)
      case Bad => Bad
  }

  function ReadTagged(b: Bytes, pos: nat, tag: Byte): (r: Read<Bytes>)
    ensures r.Got? ==> pos + 5 <= r.next <= |b|
  {
    match Expect(b, pos, tag)
    case Got(_, next) => ReadCounted(b, next)
    case Bad => Bad
  }

  function ReadBoolean(b: Bytes, pos: nat): (r: Read<bool>)
    ensures r.Got? ==> r.next == pos + 1 <= |b|
  {
    if pos < |b| && (b[pos] == '1' || b[pos] == '0') then Got(b[pos] == '1', pos + 1) else Bad
  }

  /** Past one value of the kinds the format uses, whatever it holds. */
  function Skip(b: Bytes, pos: nat): (r: Option<nat>)
    ensures r.Some? ==> pos < r.value <= |b|
    decreases |b| - pos, 0, 0
  {
    if pos >= |b| then None
    else
      match b[pos]
      case 'r' => (match ReadWord(b, pos + 1, 8) case Got(_, next) => Some(next) case Bad => None)
      case 'i' => (match ReadWord(b, pos + 1, 4) case Got(_, next) => Some(next) case Bad => None)
      case 'b' => (match ReadCounted(b, pos + 1) case Got(_, next) => Some(next) case Bad => None)
      case '1' | '0' | '!' => Some(pos + 1)
      case '{' =>
        (match ReadWord(b, pos + 1, 4)
         case Bad => None
         case Got(count, next) => SkipEnd(b, SkipMembers(b, next, count), '}'))
      case '[' =>
        (match ReadWord(b, pos + 1, 4)
         case Bad => None
         case Got(count, next) => SkipEnd(b, SkipElements(b, next, count), ']'))
      case _ => None
  }

  function SkipEnd(b: Bytes, end: Option<nat>, tag: Byte): (r: Option<nat>)
    ensures r.Some? ==> end.Some? && r.value == end.value + 1 <= |b|
  {
    if end.Some? && Expect(b, end.value, tag).Got? then Some(end.value + 1) else None
  }

  function SkipMembers(b: Bytes, pos: nat, count: nat): (r: Option<nat>)
    ensures r.Some? ==> pos <= r.value
    decreases |b| - pos, 1, count
  {
    if count == 0 then Some(pos)
    else
      match ReadKey(b, pos)
      case Bad => None
      case Got(_, next) =>
        match Skip(b, next)
        case None => None
        case Some(end) => SkipMembers(b, end, count - 1)
  }

  function SkipElements(b: Bytes, pos: nat, count: nat): (r: Option<nat>)
    ensures r.Some? ==> pos <= r.value
    decreases |b| - pos, 1, count
  {
    if count == 0 then Some(pos)
    else
      match Skip(b, pos)
      case None => None
      case Some(end) => SkipElements(b, end, count - 1)
  }

  function Skipped<T>(b: Bytes, pos: nat, keep: T): (r: Read<T>)
    ensures r.Got? ==> pos < r.next <= |b|
  {
    match Skip(b, pos)
    case Some(next) => Got(keep, next)
    case None => Bad
  }

  function ReadReals(p: Platform, b: Bytes, pos: nat, count: nat): (r: Read<Vector>)
    ensures r.Got? ==> pos <= r.next && |r.value| == count && (pos <= |b| ==> r.next <= |b|)
    decreases count
  {
    if count == 0 then Got([], pos)
    else
      match ReadReal(p, b, pos)
      case Bad => Bad
      case Got(x, next) =>
        match ReadReals(p, b, next, count - 1)
        case Bad => Bad
        case Got(xs, end) => Got([x] + xs, end)
  }

  /** An array of exactly `d` reals. */
  function ReadVector(p: Platform, b: Bytes, pos: nat, d: nat): (r: Read<Vector>)
    ensures r.Got? ==> pos < r.next <= |b| && |r.value| == d
  {
    match ReadOpen(b, pos, '[')
    case Bad => Bad
    case Got(count, next) => if count != d then Bad else ReadEnd(b, ReadReals(p, b, next, d), ']')
  }

  // ----- reading: levels -----

  datatype Domain = Domain(low: Vector, high: Vector)

  /** Anything that is not called Min is taken for the upper bound. */
  function ReadBounds(p: Platform, b: Bytes, pos: nat, count: nat, d: nat, domain: Domain): (r: Read<Domain>)
    requires |domain.low| == |domain.high| == d
    ensures r.Got? ==> pos <= r.next && |r.value.low| == |r.value.high| == d && (pos <= |b| ==> r.next <= |b|)
    decreases count
  {
    if count == 0 then Got(domain, pos)
    else
      match ReadKey(b, pos)
      case Bad => Bad
      case Got(name, next) =>
        match ReadVector(p, b, next, d)
        case Bad => Bad
        case Got(v, end) =>
          ReadBounds(p, b, end, count - 1, d, if name == MIN then domain.(low := v) else domain.(high := v))
  }

  function ReadDomain(p: Platform, b: Bytes, pos: nat, d: nat, domain: Domain): (r: Read<Domain>)
    requires |domain.low| == |domain.high| == d
    ensures r.Got? ==> pos < r.next <= |b| && |r.value.low| == |r.value.high| == d
  {
    match ReadOpen(b, pos, '{')
    case Bad => Bad
    case Got(count, next) => ReadEnd(b, ReadBounds(p, b, next, count, d, domain), '}')
  }

  /** What the entries read so far have said about a submesh. */
  datatype Fields = Fields(
    low: Vec3, high: Vec3, uvLow: Vec2, uvHigh: Vec2,
    positions: Bytes, normals: Bytes, texcoords: Bytes, triangles: Bytes)

  const NO_FIELDS := Fields([0.0, 0.0, 0.0], [0.0, 0.0, 0.0], [0.0, 0.0], [1.0, 1.0], [], [], [], [])

  predicate PayloadName(name: Bytes) {
    name == POSITION || name == NORMAL || name == TEXCOORD || name == TRIANGLES
  }

  function WithPayload(f: Fields, name: Bytes, payload: Bytes): Fields {
    if name == POSITION then f.(positions := payload)
    else if name == NORMAL then f.(normals := payload)
    else if name == TEXCOORD then f.(texcoords := payload)
    else f.(triangles := payload)
  }

  function ReadField(p: Platform, b: Bytes, pos: nat, name: Bytes, f: Fields): (r: Read<Fields>)
    ensures r.Got? ==> pos < r.next <= |b|
  {
    if name == POSITION_DOMAIN then
      match ReadDomain(p, b, pos, 3, Domain(f.low, f.high))
      case Got(d, next) => Got(f.(low := d.low, high := d.high), next)
      case Bad => Bad
    else if name == TEXCOORD_DOMAIN then
      match ReadDomain(p, b, pos, 2, Domain(f.uvLow, f.uvHigh))
      case Got(d, next) => Got(f.(uvLow := d.low, uvHigh := d.high), next)
      case Bad => Bad
    else if PayloadName(name) then
      match ReadTagged(b, pos, 'b')
      case Got(payload, next) => Got(WithPayload(f, name, payload), next)
      case Bad => Bad
    else Skipped(b, pos, f)
  }

  function ReadFields(p: Platform, b: Bytes, pos: nat, count: nat, f: Fields): (r: Read<Fields>)
    ensures r.Got? ==> pos <= r.next && (pos <= |b| ==> r.next <= |b|)
    decreases count
  {
    if count == 0 then Got(f, pos)
    else
      match ReadKey(b, pos)
      case Bad => Bad
      case Got(name, next) =>
        match ReadField(p, b, next, name, f)
        case Bad => Bad
        case Got(g, end) => ReadFields(p, b, end, count - 1, g)
  }

  function Unpacked3(b: Bytes, low: Vec3, high: Vec3): seq<Vec3> {
    Points(Shorts(b), low, high)
  }

  function Unpacked2(b: Bytes, low: Vec2, high: Vec2): seq<Vec2> {
    Points(Shorts(b), low, high)
  }

  /** The submesh some fields make, if their sizes agree. */
  function Assembled(f: Fields): Option<Submesh> {
    if |f.positions| % 6 != 0 || |f.triangles| % 6 != 0 then None
    else if f.normals != [] && |f.normals| != |f.positions| then None
    else if f.texcoords != [] && |f.texcoords| != 4 * (|f.positions| / 6) then None
    else
      Some(Submesh(
        Unpacked3(f.positions, f.low, f.high),
        if f.normals == [] then [] else Unpacked3(f.normals, UNIT_LOW, UNIT_HIGH),
        if f.texcoords == [] then [] else Unpacked2(f.texcoords, f.uvLow, f.uvHigh),
        Shorts(f.triangles), []))
  }

  function ReadSubmesh(p: Platform, b: Bytes, pos: nat): (r: Read<Submesh>)
    ensures r.Got? ==> pos < r.next <= |b|
  {
    match ReadOpen(b, pos, '{')
    case Bad => Bad
    case Got(count, next) =>
      match ReadEnd(b, ReadFields(p, b, next, count, NO_FIELDS), '}')
      case Bad => Bad
      case Got(f, end) => match Assembled(f) case Some(s) => Got(s, end) case None => Bad
  }

  function ReadSubmeshes(p: Platform, b: Bytes, pos: nat, count: nat): (r: Read<Level>)
    ensures r.Got? ==> pos <= r.next && |r.value| == count && (pos <= |b| ==> r.next <= |b|)
    decreases count
  {
    if count == 0 then Got([], pos)
    else
      match ReadSubmesh(p, b, pos)
      case Bad => Bad
      case Got(s, next) =>
        match ReadSubmeshes(p, b, next, count - 1)
        case Bad => Bad
        case Got(rest, end) => Got([s] + rest, end)
  }

  function ReadLevel(p: Platform, raw: Bytes): Option<Level> {
    if raw == [] then None
    else
      match ReadOpen(raw, 0, '[')
      case Bad => None
      case Got(count, next) =>
        match ReadEnd(raw, ReadSubmeshes(p, raw, next, count), ']')
        case Got(level, _) => Some(level)
        case Bad => None
  }

  // ----- reading: the hull -----

  datatype HullFields = HullFields(low: Vec3, high: Vec3, vertices: Bytes)

  function ReadHullFields(p: Platform, b: Bytes, pos: nat, count: nat, f: HullFields): (r: Read<HullFields>)
    ensures r.Got? ==> pos <= r.next && (pos <= |b| ==> r.next <= |b|)
    decreases count
  {
    if count == 0 then Got(f, pos)
    else
      match ReadKey(b, pos)
      case Bad => Bad
      case Got(name, next) =>
        match ReadHullField(p, b, next, name, f)
        case Bad => Bad
        case Got(g, end) => ReadHullFields(p, b, end, count - 1, g)
  }

  function ReadHullField(p: Platform, b: Bytes, pos: nat, name: Bytes, f: HullFields): (r: Read<HullFields>)
    ensures r.Got? ==> pos < r.next <= |b|
  {
    if name == MIN || name == MAX then
      match ReadVector(p, b, pos, 3)
      case Got(v, next) => Got(if name == MIN then f.(low := v) else f.(high := v), next)
      case Bad => Bad
    else if name == VERTICES then
      match ReadTagged(b, pos, 'b')
      case Got(payload, next) => Got(f.(vertices := payload), next)
      case Bad => Bad
    else Skipped(b, pos, f)
  }

  /** The closing brace of this block is never looked at. */
  function ReadHull(p: Platform, raw: Bytes): Option<seq<Vec3>> {
    if raw == [] then None
    else
      match ReadOpen(raw, 0, '{')
      case Bad => None
      case Got(count, next) =>
        match ReadHullFields(p, raw, next, count, HullFields([0.0, 0.0, 0.0], [0.0, 0.0, 0.0], []))
        case Bad => None
        case Got(f, _) => if |f.vertices| % 6 != 0 then None else Some(Unpacked3(f.vertices, f.low, f.high))
  }

  // ----- reading: the skin -----

  const NO_SKIN := Skin([], [], IDENTITY, [], 0.0, false)

  function ReadNames(b: Bytes, pos: nat, count: nat): (r: Read<seq<Bytes>>)
    ensures r.Got? ==> pos <= r.next && (pos <= |b| ==> r.next <= |b|)
    decreases count
  {
    if count == 0 then Got([], pos)
    else
      match ReadTagged(b, pos, 's')
      case Bad => Bad
      case Got(name, next) =>
        match ReadNames(b, next, count - 1)
        case Bad => Bad
        case Got(rest, end) => Got([name] + rest, end)
  }

  function ReadMatrices(p: Platform, b: Bytes, pos: nat, count: nat): (r: Read<seq<Matrix>>)
    ensures r.Got? ==> pos <= r.next && (pos <= |b| ==> r.next <= |b|)
    decreases count
  {
    if count == 0 then Got([], pos)
    else
      match ReadVector(p, b, pos, 16)
      case Bad => Bad
      case Got(m, next) =>
        match ReadMatrices(p, b, next, count - 1)
        case Bad => Bad
        case Got(rest, end) => Got([m] + rest, end)
  }

  function ReadMatrixArray(p: Platform, b: Bytes, pos: nat): (r: Read<seq<Matrix>>)
    ensures r.Got? ==> pos < r.next <= |b|
  {
    match ReadOpen(b, pos, '[')
    case Got(count, next) => ReadEnd(b, ReadMatrices(p, b, next, count), ']')
    case Bad => Bad
  }

  function ReadNameArray(b: Bytes, pos: nat): (r: Read<seq<Bytes>>)
    ensures r.Got? ==> pos < r.next <= |b|
  {
    match ReadOpen(b, pos, '[')
    case Got(count, next) => ReadEnd(b, ReadNames(b, next, count), ']')
    case Bad => Bad
  }

  /** Lists named twice grow; everything else is overwritten. */
  function ReadSkinField(p: Platform, b: Bytes, pos: nat, name: Bytes, s: Skin): (r: Read<Skin>)
    ensures r.Got? ==> pos < r.next <= |b|
  {
    if name == JOINTS then
      match ReadNameArray(b, pos)
      case Got(names, next) => Got(s.(joints := s.joints + names), next)
      case Bad => Bad
    else if name == INVERSE_BIND then
      match ReadMatrixArray(p, b, pos)
      case Got(ms, next) => Got(s.(inverseBind := s.inverseBind + ms), next)
      case Bad => Bad
    else if name == ALTERNATE_BIND then
      match ReadMatrixArray(p, b, pos)
      case Got(ms, next) => Got(s.(alternateInverseBind := s.alternateInverseBind + ms), next)
      case Bad => Bad
    else if name == BIND_SHAPE then
      match ReadVector(p, b, pos, 16)
      case Got(m, next) => Got(s.(bindShape := m), next)
      case Bad => Bad
    else if name == PELVIS then
      match ReadReal(p, b, pos)
      case Got(x, next) => Got(s.(pelvisOffset := x), next)
      case Bad => Bad
    else if name == LOCK_SCALE then
      match ReadBoolean(b, pos)
      case Got(x, next) => Got(s.(lockScale := x), next)
      case Bad => Bad
    else Skipped(b, pos, s)
  }

  function ReadSkinFields(p: Platform, b: Bytes, pos: nat, count: nat, s: Skin): (r: Read<Skin>)
    ensures r.Got? ==> pos <= r.next && (pos <= |b| ==> r.next <= |b|)
    decreases count
  {
    if count == 0 then Got(s, pos)
    else
      match ReadKey(b, pos)
      case Bad => Bad
      case Got(name, next) =>
        match ReadSkinField(p, b, next, name, s)
        case Bad => Bad
        case Got(t, end) => ReadSkinFields(p, b, end, count - 1, t)
  }

  function ReadSkin(p: Platform, raw: Bytes): Option<Skin> {
    if raw == [] then None
    else
      match ReadOpen(raw, 0, '{')
      case Bad => None
      case Got(count, next) =>
        match ReadSkinFields(p, raw, next, count, NO_SKIN)
        case Bad => None
        case Got(s, _) => if s.joints == [] || |s.joints| != |s.inverseBind| then None else Some(s)
  }

  // ----- reading: the directory -----

  datatype Extent = Extent(offset: uint32, size: uint32)

  function ReadExtentFields(b: Bytes, pos: nat, count: nat, e: Extent): (r: Read<Extent>)
    ensures r.Got? ==> pos <= r.next && (pos <= |b| ==> r.next <= |b|)
    decreases count
  {
    if count == 0 then Got(e, pos)
    else
      match ReadKey(b, pos)
      case Bad => Bad
      case Got(name, next) =>
        match ReadInteger(b, next)
        case Bad => Bad
        case Got(n, end) => ReadExtentFields(b, end, count - 1, WithExtent(e, name, n % TWO_32))
  }

  function WithExtent(e: Extent, name: Bytes, n: uint32): Extent {
    if name == OFFSET then e.(offset := n) else if name == SIZE then e.(size := n) else e
  }

  function ReadExtent(b: Bytes, pos: nat): (r: Read<Extent>)
    ensures r.Got? ==> pos < r.next <= |b|
  {
    match ReadOpen(b, pos, '{')
    case Got(count, next) => ReadEnd(b, ReadExtentFields(b, next, count, Extent(0, 0)), '}')
    case Bad => Bad
  }

  type Extents = map<Bytes, Extent>

  function ReadExtents(b: Bytes, pos: nat, count: nat, known: Extents): (r: Read<Extents>)
    ensures r.Got? ==> pos <= r.next && (pos <= |b| ==> r.next <= |b|)
    decreases count
  {
    if count == 0 then Got(known, pos)
    else
      match ReadKey(b, pos)
      case Bad => Bad
      case Got(name, next) =>
        match ReadDirectoryEntry(b, next, name, known)
        case Bad => Bad
        case Got(more, end) => ReadExtents(b, end, count - 1, more)
  }

  function ReadDirectoryEntry(b: Bytes, pos: nat, name: Bytes, known: Extents): (r: Read<Extents>)
    ensures r.Got? ==> pos < r.next <= |b|
  {
    if pos < |b| && b[pos] == '{' then
      match ReadExtent(b, pos)
      case Got(e, next) => Got(known[name := e], next)
      case Bad => Bad
    else Skipped(b, pos, known)
  }

  function ReadHeader(b: Bytes): (r: Read<Extents>)
    ensures r.Got? ==> r.next <= |b|
  {
    match ReadOpen(b, 0, '{')
    case Got(count, next) => ReadEnd(b, ReadExtents(b, next, count, map[]), '}')
    case Bad => Bad
  }

  /** A block that is named, not empty, and inside the content. */
  function BlockAt(b: Bytes, begin: nat, known: Extents, name: Bytes): Option<Bytes> {
    if name !in known || known[name].size == 0 then None
    else
      var start, size := begin + known[name].offset, known[name].size;
      if start + size > |b| then None else Some(b[start..start + size])
  }

  /** An absent level is the high one over again; one that is there has to be readable. */
  function LevelOr(p: Platform, block: Option<Bytes>, high: Level): Option<Level> {
    match block
    case None => Some(high)
    case Some(packed) => ReadLevel(p, Decompress(p, packed))
  }

  function SkinOf(p: Platform, block: Option<Bytes>): Option<Option<Skin>> {
    match block
    case None => Some(None)
    case Some(packed) =>
      match ReadSkin(p, Decompress(p, packed)) case Some(s) => Some(Some(s)) case None => None
  }

  function HullOf(p: Platform, block: Option<Bytes>): Option<seq<Vec3>> {
    match block
    case None => Some([])
    case Some(packed) => ReadHull(p, Decompress(p, packed))
  }

  function Parse(p: Platform, b: Bytes): Option<Mesh> {
    match ReadHeader(b)
    case Bad => None
    case Got(known, begin) =>
      match BlockAt(b, begin, known, HIGH_LOD)
      case None => None
      case Some(packed) =>
        match ReadLevel(p, Decompress(p, packed))
        case None => None
        case Some(high) =>
          var medium := LevelOr(p, BlockAt(b, begin, known, MEDIUM_LOD), high);
          var low := LevelOr(p, BlockAt(b, begin, known, LOW_LOD), high);
          var lowest := LevelOr(p, BlockAt(b, begin, known, LOWEST_LOD), high);
          var skin := SkinOf(p, BlockAt(b, begin, known, SKIN));
          var hull := HullOf(p, BlockAt(b, begin, known, PHYSICS));
          if medium.Some? && low.Some? && lowest.Some? && skin.Some? && hull.Some?
          then Some(Mesh(high, medium.value, low.value, lowest.value, hull.value, skin.value))
          else None
  }
}
