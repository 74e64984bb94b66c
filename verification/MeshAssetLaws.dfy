/** What the mesh asset's reader makes of what its writer wrote, piece by piece: numbers, bounds,
    entries in any order, values that are stepped over, submeshes, levels and the hull. Each piece
    is read back where it stands in the bytes, and the reader stops just after it. */
module MeshAssetLaws {
  import opened Prelude
  import opened Llsd
  import opened LlsdInverse
  import opened MeshQuantize
  import opened MeshAsset

  // ----- zlib as an inverse pair -----

  /** zlib gives back what it was given, and never in no bytes at all. */
  ghost predicate Faithful(p: Platform) {
    forall raw {:trigger p.deflate(raw)} :: p.deflate(raw) != [] && p.inflate(p.deflate(raw)) == Some(raw)
  }

  function LastCapacity(c: nat): (r: nat)
    requires 0 < c <= LARGEST
    ensures LARGEST / 4 < r <= LARGEST
    decreases LARGEST - c
  {
    if 4 * c > LARGEST then c else LastCapacity(4 * c)
  }

  /** Some buffer the reader tries is large enough. */
  predicate Inflatable(p: Platform, raw: Bytes) {
    var first := FirstCapacity(p.deflate(raw));
    first <= LARGEST && |raw| <= LastCapacity(first)
  }

  lemma {:induction false} InflatedFrom(p: Platform, raw: Bytes, c: nat)
    requires Faithful(p) && 0 < c <= LARGEST
    ensures Inflated(p, p.deflate(raw), c) == if |raw| <= LastCapacity(c) then raw else []
    decreases LARGEST - c
  {
    if |raw| > c && 4 * c <= LARGEST {
      InflatedFrom(p, raw, 4 * c);
    } else if |raw| <= c {
      CapacityGrows(c);
    }
  }

  lemma {:induction false} CapacityGrows(c: nat)
    requires 0 < c <= LARGEST
    ensures c <= LastCapacity(c)
    decreases LARGEST - c
  {
    if 4 * c <= LARGEST {
      CapacityGrows(4 * c);
    }
  }

  lemma Decompresses(p: Platform, raw: Bytes)
    requires Faithful(p)
    ensures Decompress(p, p.deflate(raw)) == if Inflatable(p, raw) then raw else []
  {
    var first := FirstCapacity(p.deflate(raw));
    if first <= LARGEST {
      InflatedFrom(p, raw, first);
    }
  }

  // ----- numbers -----

  predicate Carries(p: Platform, xs: Vector) {
    forall x :: x in xs ==> p.value(p.bits(x)) == x
  }

  lemma OpenReads(b: Bytes, pos: nat, open: Byte, count: nat, body: Bytes, close: Byte)
    requires At(b, pos, [open] + (BigEndian(count, 4) + (body + [close]))) && count < TWO_32
    ensures ReadOpen(b, pos, open) == Got(count, pos + 5) && At(b, pos + 5, body)
    ensures Expect(b, pos + 5 + |body|, close) == Got(close, pos + 6 + |body|)
  {
    hide BigEndian, ReadWord;
    ReadsFrame(b, pos, open, count, body, close);
  }

  lemma RealReads(p: Platform, b: Bytes, pos: nat, x: Float)
    requires Carries(p, [x]) && At(b, pos, Write(Real(p.bits(x))))
    ensures ReadReal(p, b, pos) == Got(x, pos + 9)
  {
    hide BigEndian, ReadWord;
    assert x in [x];
    ReadsTag(b, pos, 'r', BigEndian(p.bits(x), 8));
    ReadsWord(b, pos + 1, p.bits(x), 8);
  }

  lemma {:induction false} RealsRead(p: Platform, b: Bytes, pos: nat, xs: Vector)
    requires Carries(p, xs) && At(b, pos, WriteElements(Numbers(p, xs)))
    ensures ReadReals(p, b, pos, |xs|) == Got(xs, pos + |WriteElements(Numbers(p, xs))|)
    decreases |xs|
  {
    hide Write, ReadReal;
    if xs != [] {
      var es := Numbers(p, xs);
      assert es[1..] == Numbers(p, xs[1..]);
      AtSplit(b, pos, Write(es[0]), WriteElements(es[1..]));
      RealReads(p, b, pos, xs[0]);
      assert |Write(es[0])| == 9 by { NineBytes(p.bits(xs[0])); }
      RealsRead(p, b, pos + 9, xs[1..]);
      assert [xs[0]] + xs[1..] == xs;
    }
  }

  lemma NineBytes(n: uint64)
    ensures |Write(Real(n))| == 9
  {
  }

  lemma VectorReads(p: Platform, b: Bytes, pos: nat, xs: Vector)
    requires Carries(p, xs) && |xs| < TWO_32 && At(b, pos, Write(Array(Numbers(p, xs))))
    ensures ReadVector(p, b, pos, |xs|) == Got(xs, pos + |Write(Array(Numbers(p, xs)))|)
  {
    hide WriteElements, ReadReals, BigEndian, ReadOpen;
    var body := WriteElements(Numbers(p, xs));
    OpenReads(b, pos, '[', |xs|, body, ']');
    RealsRead(p, b, pos + 5, xs);
  }

  // ----- entries -----

  /** The key of an entry, and the value after it. */
  lemma KeyReads(b: Bytes, pos: nat, m: Member)
    requires At(b, pos, WriteMember(m)) && |m.key| < TWO_32
    ensures ReadKey(b, pos) == Got(m.key, pos + 5 + |m.key|) && At(b, pos + 5 + |m.key|, Write(m.value))
    ensures |WriteMember(m)| == 5 + |m.key| + |Write(m.value)|
  {
    hide Write, ReadCounted, BigEndian;
    ReadsTag(b, pos, 'k', Counted(m.key) + Write(m.value));
    AtSplit(b, pos + 1, Counted(m.key), Write(m.value));
    ReadsCounted(b, pos + 1, m.key);
  }

  lemma PayloadReads(b: Bytes, pos: nat, payload: Bytes)
    requires At(b, pos, Write(Binary(payload))) && |b| < TWO_32
    ensures ReadTagged(b, pos, 'b') == Got(payload, pos + |Write(Binary(payload))|)
  {
    hide ReadCounted, BigEndian;
    ReadsTag(b, pos, 'b', Counted(payload));
    ReadsCounted(b, pos + 1, payload);
  }

  lemma BoundsRead(p: Platform, b: Bytes, pos: nat, low: Vector, high: Vector, d: Domain)
    requires |low| == |high| == |d.low| == |d.high| < TWO_32 && Carries(p, low) && Carries(p, high)
    requires At(b, pos, Write(Bounds(p, low, high)))
    ensures ReadDomain(p, b, pos, |low|, d) == Got(Domain(low, high), pos + |Write(Bounds(p, low, high))|)
  {
    hide BigEndian, ReadOpen, ReadBounds, Write, WriteMember, Carries, Numbers;
    var least, most := Member(MIN, Array(Numbers(p, low))), Member(MAX, Array(Numbers(p, high)));
    var body := WriteMember(least) + WriteMember(most);
    TwoEntries(least, most);
    OpenReads(b, pos, '{', 2, body, '}');
    AtSplit(b, pos + 5, WriteMember(least), WriteMember(most));
    BoundEntries(p, b, pos + 5, pos + 5 + |WriteMember(least)|, least, most, low, high, d);
  }

  lemma BoundEntries(
      p: Platform, b: Bytes, first: nat, second: nat, least: Member, most: Member, low: Vector, high: Vector, d: Domain)
    requires |low| == |high| == |d.low| == |d.high| < TWO_32 && Carries(p, low) && Carries(p, high)
    requires least == Member(MIN, Array(Numbers(p, low))) && most == Member(MAX, Array(Numbers(p, high)))
    requires At(b, first, WriteMember(least)) && second == first + |WriteMember(least)| && At(b, second, WriteMember(most))
    ensures ReadBounds(p, b, first, 2, |low|, d) == Got(Domain(low, high), second + |WriteMember(most)|)
  {
    hide Write, WriteMember, Carries, Numbers, ReadBounds, At;
    BoundEntry(p, b, first, 2, least, low, d);
    BoundEntry(p, b, second, 1, most, high, d.(low := low));
    NoBounds(p, b, second + |WriteMember(most)|, |low|, Domain(low, high));
  }

  lemma NoBounds(p: Platform, b: Bytes, pos: nat, n: nat, d: Domain)
    requires |d.low| == |d.high| == n
    ensures ReadBounds(p, b, pos, 0, n, d) == Got(d, pos)
  {
  }

  lemma BoundEntry(p: Platform, b: Bytes, pos: nat, count: nat, m: Member, xs: Vector, d: Domain)
    requires count > 0 && |xs| == |d.low| == |d.high| < TWO_32 && Carries(p, xs)
    requires |m.key| < TWO_32 && m.value == Array(Numbers(p, xs)) && At(b, pos, WriteMember(m))
    ensures ReadBounds(p, b, pos, count, |xs|, d)
         == ReadBounds(p, b, pos + |WriteMember(m)|, count - 1, |xs|, if m.key == MIN then d.(low := xs) else d.(high := xs))
  {
    hide ReadKey, ReadVector, Write, WriteMember, Carries, Numbers, At;
    KeyReads(b, pos, m);
    VectorReads(p, b, pos + 5 + |m.key|, xs);
  }

  lemma TwoEntries(a: Member, b: Member)
    ensures Write(Map([a, b])) == ['{'] + (BigEndian(2, 4) + ((WriteMember(a) + WriteMember(b)) + ['}']))
  {
    assert [a, b][1..] == [b] && [b][1..] == [];
    assert WriteMembers([b]) == WriteMember(b) + [];
    assert WriteMembers([a, b]) == WriteMember(a) + WriteMember(b);
  }

  // ----- skipping -----

  /** The kinds of value the format uses; a text is not among those the reader can step over. */
  predicate Skippable(v: Llsd)
    decreases v, 1
  {
    match v
    case Undefined => true
    case Boolean(_) => true
    case Integer(_) => true
    case Real(_) => true
    case Binary(_) => true
    case Map(members) => AllSkippable(members)
    case Array(elements) => EachSkippable(elements)
    case _ => false
  }

  predicate AllSkippable(ms: seq<Member>)
    decreases ms, 0
  {
    ms == [] || (Skippable(ms[0].value) && AllSkippable(ms[1..]))
  }

  predicate EachSkippable(es: seq<Llsd>)
    decreases es, 0
  {
    es == [] || (Skippable(es[0]) && EachSkippable(es[1..]))
  }

  lemma {:induction false} AtLeastOneByte(v: Llsd)
    ensures |Write(v)| >= 1
  {
    hide WriteMembers, WriteElements, BigEndian, UuidBytes;
  }

  lemma {:induction false} MembersLength(ms: seq<Member>)
    ensures |ms| <= |WriteMembers(ms)|
    decreases |ms|
  {
    if ms != [] {
      MembersLength(ms[1..]);
    }
  }

  lemma {:induction false} ElementsLength(es: seq<Llsd>)
    ensures |es| <= |WriteElements(es)|
    decreases |es|
  {
    hide Write;
    if es != [] {
      AtLeastOneByte(es[0]);
      ElementsLength(es[1..]);
    }
  }

  /** The reader steps over exactly the value that was written, whatever is inside it. */
  lemma {:induction false} SkipPasses(b: Bytes, pos: nat, v: Llsd)
    requires Skippable(v) && |b| < TWO_32 && At(b, pos, Write(v))
    ensures Skip(b, pos) == Some(pos + |Write(v)|)
    decreases v, 1
  {
    hide ReadWord, BigEndian, WriteMembers, WriteElements, SkipMembers, SkipElements, ReadCounted, AllSkippable, EachSkippable, UuidBytes;
    match v
    case Map(ms) =>
      MembersLength(ms);
      ReadsFrame(b, pos, '{', |ms|, WriteMembers(ms), '}');
      MembersPass(b, pos + 5, ms);
    case Array(es) =>
      ElementsLength(es);
      ReadsFrame(b, pos, '[', |es|, WriteElements(es), ']');
      ElementsPass(b, pos + 5, es);
    case _ =>
      ScalarPasses(b, pos, v);
  }

  lemma ScalarPasses(b: Bytes, pos: nat, v: Llsd)
    requires Skippable(v) && !v.Map? && !v.Array? && |b| < TWO_32 && At(b, pos, Write(v))
    ensures Skip(b, pos) == Some(pos + |Write(v)|)
  {
    hide ReadWord, BigEndian, SkipMembers, SkipElements, ReadCounted;
    match v
    case Binary(x) =>
      ReadsTag(b, pos, 'b', Counted(x));
      ReadsCounted(b, pos + 1, x);
    case Integer(n) =>
      ReadsTag(b, pos, 'i', BigEndian(n % TWO_32, 4));
      ReadsWord(b, pos + 1, n % TWO_32, 4);
    case Real(bits) =>
      ReadsTag(b, pos, 'r', BigEndian(bits, 8));
      ReadsWord(b, pos + 1, bits, 8);
    case Undefined => ReadsTag(b, pos, '!', []);
    case Boolean(x) => ReadsTag(b, pos, if x then '1' else '0', []);
    case _ =>
  }

  lemma {:induction false} MembersPass(b: Bytes, pos: nat, ms: seq<Member>)
    requires AllSkippable(ms) && |b| < TWO_32 && At(b, pos, WriteMembers(ms))
    ensures SkipMembers(b, pos, |ms|) == Some(pos + |WriteMembers(ms)|)
    decreases ms, 0
  {
    hide Skippable, Skip, WriteMember, ReadKey;
    if ms != [] {
      AtSplit(b, pos, WriteMember(ms[0]), WriteMembers(ms[1..]));
      MemberPasses(b, pos, ms[0]);
      MembersPass(b, pos + |WriteMember(ms[0])|, ms[1..]);
    }
  }

  lemma {:induction false} MemberPasses(b: Bytes, pos: nat, m: Member)
    requires Skippable(m.value) && |b| < TWO_32 && At(b, pos, WriteMember(m))
    ensures ReadKey(b, pos).Got? && Skip(b, ReadKey(b, pos).next) == Some(pos + |WriteMember(m)|)
    decreases m, 2
  {
    hide Skippable, Skip, Write;
    assert |m.key| <= |WriteMember(m)|;
    KeyReads(b, pos, m);
    SkipPasses(b, pos + 5 + |m.key|, m.value);
  }

  lemma {:induction false} ElementsPass(b: Bytes, pos: nat, es: seq<Llsd>)
    requires EachSkippable(es) && |b| < TWO_32 && At(b, pos, WriteElements(es))
    ensures SkipElements(b, pos, |es|) == Some(pos + |WriteElements(es)|)
    decreases es, 0
  {
    hide Skippable, Skip, Write;
    if es != [] {
      AtSplit(b, pos, Write(es[0]), WriteElements(es[1..]));
      SkipPasses(b, pos, es[0]);
      ElementsPass(b, pos + |Write(es[0])|, es[1..]);
    }
  }

  // ----- submeshes -----

  /** A part the reader can take: its bounds survive, and a payload is not called like a domain. */
  predicate Readable(p: Platform, part: Part) {
    match part
    case PositionDomain(low, high) => Carries(p, low) && Carries(p, high)
    case TexcoordDomain(low, high) => Carries(p, low) && Carries(p, high)
    case Packed(name, _) => name != POSITION_DOMAIN && name != TEXCOORD_DOMAIN
  }

  function Applied(f: Fields, part: Part): Fields {
    match part
    case PositionDomain(low, high) => f.(low := low, high := high)
    case TexcoordDomain(low, high) => f.(uvLow := low, uvHigh := high)
    case Packed(name, payload) => if PayloadName(name) then WithPayload(f, name, payload) else f
  }

  function AppliedAll(f: Fields, parts: seq<Part>): Fields
    decreases |parts|
  {
    if parts == [] then f else AppliedAll(Applied(f, parts[0]), parts[1..])
  }

  lemma PartReads(p: Platform, b: Bytes, pos: nat, part: Part, f: Fields)
    requires Readable(p, part) && |b| < TWO_32 && At(b, pos, WriteMember(PartMember(p, part)))
    ensures var m := PartMember(p, part);
      && ReadKey(b, pos).Got? && ReadKey(b, pos).value == m.key
      && ReadField(p, b, ReadKey(b, pos).next, m.key, f) == Got(Applied(f, part), pos + |WriteMember(m)|)
  {
    hide Write, ReadDomain, ReadTagged, ReadKey, Bounds, WithPayload, Skip;
    var m := PartMember(p, part);
    assert |m.key| <= |WriteMember(m)|;
    KeyReads(b, pos, m);
    var next := pos + 5 + |m.key|;
    match part {
      case PositionDomain(low, high) => BoundsRead(p, b, next, low, high, Domain(f.low, f.high));
      case TexcoordDomain(low, high) => BoundsRead(p, b, next, low, high, Domain(f.uvLow, f.uvHigh));
      case Packed(name, payload) =>
        if PayloadName(name) {
          PayloadReads(b, next, payload);
        } else {
          SkipPasses(b, next, Binary(payload));
        }
    }
  }

  /** Parts are taken in whatever order they stand, and those that are not known are passed over. */
  lemma {:induction false} PartsRead(p: Platform, b: Bytes, pos: nat, parts: seq<Part>, f: Fields)
    requires forall part :: part in parts ==> Readable(p, part)
    requires |b| < TWO_32 && At(b, pos, WriteMembers(PartMembers(p, parts)))
    ensures ReadFields(p, b, pos, |parts|, f)
         == Got(AppliedAll(f, parts), pos + |WriteMembers(PartMembers(p, parts))|)
    decreases |parts|
  {
    hide Readable, PartMember, WriteMember, ReadField, ReadKey, Applied;
    if parts != [] {
      var m := PartMember(p, parts[0]);
      assert PartMembers(p, parts)[0] == m && PartMembers(p, parts)[1..] == PartMembers(p, parts[1..]);
      AtSplit(b, pos, WriteMember(m), WriteMembers(PartMembers(p, parts[1..])));
      PartReads(p, b, pos, parts[0], f);
      PartsRead(p, b, pos + |WriteMember(m)|, parts[1..], Applied(f, parts[0]));
    }
  }

  // ----- what comes back -----

  function RoundedSubmesh(p: Platform, s: Submesh): Submesh {
    Submesh(
      Reread(s.positions, 3, p.nudge), Rounded(s.normals, UNIT_LOW, UNIT_HIGH), Reread(s.texcoords, 2, p.nudge),
      s.indices, [])
  }

  function RoundedLevel(p: Platform, level: Level): (r: Level)
    ensures |r| == |level| && forall i :: 0 <= i < |level| ==> r[i] == RoundedSubmesh(p, level[i])
  {
    if level == [] then [] else [RoundedSubmesh(p, level[0])] + RoundedLevel(p, level[1..])
  }

  function RoundedMesh(p: Platform, m: Mesh): Mesh {
    Mesh(RoundedLevel(p, m.high), RoundedLevel(p, m.medium), RoundedLevel(p, m.low), RoundedLevel(p, m.lowest),
         Reread(m.hull, 3, p.nudge), m.skin)
  }

  predicate CarriesDomain(p: Platform, vs: seq<Vector>, d: nat)
    requires Cloud(vs, d)
  {
    Carries(p, Low(vs, d)) && Carries(p, High(vs, d, p.nudge))
  }

  /** The bounds a submesh publishes survive as doubles. */
  predicate CarriesSubmesh(p: Platform, s: Submesh) {
    CarriesDomain(p, s.positions, 3) && (s.texcoords != [] ==> CarriesDomain(p, s.texcoords, 2))
  }

  predicate CarriesLevel(p: Platform, level: Level) {
    forall s :: s in level ==> CarriesSubmesh(p, s)
  }

  predicate CarriesSkin(p: Platform, s: Skin) {
    && (forall m :: m in s.inverseBind ==> Carries(p, m)) && Carries(p, s.bindShape)
    && (forall m :: m in s.alternateInverseBind ==> Carries(p, m)) && Carries(p, [s.pelvisOffset])
  }

  predicate CarriesMesh(p: Platform, m: Mesh) {
    && CarriesLevel(p, m.high) && CarriesLevel(p, m.medium) && CarriesLevel(p, m.low) && CarriesLevel(p, m.lowest)
    && CarriesDomain(p, m.hull, 3) && (m.skin.Some? ==> CarriesSkin(p, m.skin.value))
  }

  /** The fields a submesh's own parts leave. */
  function FieldsOf(p: Platform, s: Submesh): Fields {
    Fields(
      Low(s.positions, 3), High(s.positions, 3, p.nudge),
      if s.texcoords == [] then NO_FIELDS.uvLow else Low(s.texcoords, 2),
      if s.texcoords == [] then NO_FIELDS.uvHigh else High(s.texcoords, 2, p.nudge),
      Coordinates(p, s.positions, 3), Stream(Quanta(s.normals, UNIT_LOW, UNIT_HIGH)),
      if s.texcoords == [] then [] else Coordinates(p, s.texcoords, 2), Stream(s.indices))
  }

  lemma {:induction false} AppliedConcat(f: Fields, a: seq<Part>, b: seq<Part>)
    ensures AppliedAll(f, a + b) == AppliedAll(AppliedAll(f, a), b)
    decreases |a|
  {
    hide Applied;
    if a == [] {
      assert a + b == b;
    } else {
      assert (a + b)[0] == a[0] && (a + b)[1..] == a[1..] + b;
      AppliedConcat(Applied(f, a[0]), a[1..], b);
    }
  }

  lemma AppliedOne(f: Fields, part: Part)
    ensures AppliedAll(f, [part]) == Applied(f, part)
  {
    assert [part][1..] == [];
  }

  lemma AppliedTwo(f: Fields, a: Part, b: Part)
    ensures AppliedAll(f, [a, b]) == Applied(Applied(f, a), b)
  {
    assert [a, b] == [a] + [b];
    AppliedConcat(f, [a], [b]);
    AppliedOne(f, a);
    AppliedOne(Applied(f, a), b);
  }

  lemma FiveStages(f: Fields, a: seq<Part>, b: seq<Part>, c: seq<Part>, d: seq<Part>, e: seq<Part>)
    ensures AppliedAll(f, a + b + c + d + e)
         == AppliedAll(AppliedAll(AppliedAll(AppliedAll(AppliedAll(f, a), b), c), d), e)
  {
    hide AppliedAll;
    AppliedConcat(f, a + b + c + d, e);
    AppliedConcat(f, a + b + c, d);
    AppliedConcat(f, a + b, c);
    AppliedConcat(f, a, b);
  }

  lemma PlacingApplied(p: Platform, s: Submesh, f: Fields)
    ensures AppliedAll(f, Placing(p, s))
         == f.(low := Low(s.positions, 3), high := High(s.positions, 3, p.nudge), positions := Coordinates(p, s.positions, 3))
  {
    hide AppliedAll, Coordinates, Low, High;
    AppliedTwo(f, Placing(p, s)[0], Placing(p, s)[1]);
  }

  lemma BindingApplied(s: Submesh, f: Fields)
    ensures AppliedAll(f, Binding(s)) == f
  {
    AppliedOne(f, Packed(WEIGHTS, Weights(s, |s.positions|)));
  }

  lemma FacingApplied(s: Submesh, f: Fields)
    requires f.normals == []
    ensures AppliedAll(f, Facing(s)) == f.(normals := Stream(Quanta(s.normals, UNIT_LOW, UNIT_HIGH)))
  {
    NothingPacked();
    AppliedOne(f, Packed(NORMAL, Stream(Quanta(s.normals, UNIT_LOW, UNIT_HIGH))));
  }

  lemma DressingApplied(p: Platform, s: Submesh, f: Fields)
    ensures AppliedAll(f, Dressing(p, s)) ==
      if s.texcoords == [] then f
      else f.(uvLow := Low(s.texcoords, 2), uvHigh := High(s.texcoords, 2, p.nudge), texcoords := Coordinates(p, s.texcoords, 2))
  {
    hide AppliedAll, Coordinates, Low, High;
    AppliedNone(f);
    if s.texcoords != [] {
      AppliedTwo(f, Dressing(p, s)[0], Dressing(p, s)[1]);
    }
  }

  lemma PartsLeave(p: Platform, s: Submesh)
    ensures AppliedAll(NO_FIELDS, SubmeshParts(p, s)) == FieldsOf(p, s)
  {
    hide AppliedAll, Coordinates, Low, High, Stream, Quanta, Placing, Binding, Facing, Dressing;
    FiveStages(NO_FIELDS, Placing(p, s), Binding(s), Facing(s), Dressing(p, s), Listing(s));
    PlacingApplied(p, s, NO_FIELDS);
    var f := AppliedAll(NO_FIELDS, Placing(p, s));
    BindingApplied(s, f);
    FacingApplied(s, f);
    var g := AppliedAll(f, Facing(s));
    DressingApplied(p, s, g);
    AppliedOne(AppliedAll(g, Dressing(p, s)), Listing(s)[0]);
  }

  lemma AppliedNone(f: Fields)
    ensures AppliedAll(f, []) == f
  {
  }

  lemma CoordinatesUnpack(p: Platform, vs: seq<Vector>, d: nat)
    requires 0 < d && Cloud(vs, d)
    ensures Points(Shorts(Coordinates(p, vs, d)), Low(vs, d), High(vs, d, p.nudge)) == Reread(vs, d, p.nudge)
    ensures |Coordinates(p, vs, d)| == 2 * (|vs| * d)
  {
    hide Points, Shorts, Stream, Quanta;
    var low, high := Low(vs, d), High(vs, d, p.nudge);
    StreamReads(Quanta(vs, low, high));
    PointsOfQuanta(vs, low, high);
  }

  lemma FieldsAssemble(p: Platform, s: Submesh)
    requires ValidSubmesh(s)
    ensures Assembled(FieldsOf(p, s)) == Some(RoundedSubmesh(p, s))
  {
    hide Points, Shorts, Stream, Quanta, Coordinates, Low, High, Reread, Rounded;
    CoordinatesUnpack(p, s.positions, 3);
    CoordinatesUnpack(p, s.texcoords, 2);
    StreamReads(Quanta(s.normals, UNIT_LOW, UNIT_HIGH));
    PointsOfQuanta(s.normals, UNIT_LOW, UNIT_HIGH);
    StreamReads(s.indices);
    NoneReread(p.nudge);
  }

  lemma NothingPacked()
    ensures Stream(Quanta([], UNIT_LOW, UNIT_HIGH)) == []
  {
  }

  lemma NoneReread(nudge: Float -> Float)
    ensures Reread([], 2, nudge) == [] && Rounded([], UNIT_LOW, UNIT_HIGH) == []
  {
  }

  lemma PartsAreReadable(p: Platform, s: Submesh)
    requires CarriesSubmesh(p, s)
    ensures forall part :: part in SubmeshParts(p, s) ==> Readable(p, part)
  {
    hide Coordinates, Low, High, Weights, Carries, Stream, Quanta;
  }

  lemma SubmeshReads(p: Platform, b: Bytes, pos: nat, s: Submesh)
    requires ValidSubmesh(s) && CarriesSubmesh(p, s)
    requires |b| < TWO_32 && At(b, pos, Write(SubmeshDocument(p, s)))
    ensures ReadSubmesh(p, b, pos) == Got(RoundedSubmesh(p, s), pos + |Write(SubmeshDocument(p, s))|)
  {
    hide SubmeshParts, WriteMembers, ReadFields, FieldsOf, Assembled, CarriesSubmesh, Readable, BigEndian, ReadOpen, RoundedSubmesh;
    var parts := SubmeshParts(p, s);
    var ms := PartMembers(p, parts);
    MembersLength(ms);
    OpenReads(b, pos, '{', |ms|, WriteMembers(ms), '}');
    PartsAreReadable(p, s);
    PartsRead(p, b, pos + 5, parts, NO_FIELDS);
    PartsLeave(p, s);
    FieldsAssemble(p, s);
  }

  lemma {:induction false} SubmeshesRead(p: Platform, b: Bytes, pos: nat, level: Level)
    requires (forall s :: s in level ==> ValidSubmesh(s)) && CarriesLevel(p, level)
    requires |b| < TWO_32 && At(b, pos, WriteElements(SubmeshDocuments(p, level)))
    ensures ReadSubmeshes(p, b, pos, |level|)
         == Got(RoundedLevel(p, level), pos + |WriteElements(SubmeshDocuments(p, level))|)
    decreases |level|
  {
    hide ValidSubmesh, CarriesSubmesh, ReadSubmesh, SubmeshDocument, Write, RoundedSubmesh;
    if level != [] {
      var es := SubmeshDocuments(p, level);
      assert es[1..] == SubmeshDocuments(p, level[1..]);
      AtSplit(b, pos, Write(es[0]), WriteElements(es[1..]));
      SubmeshReads(p, b, pos, level[0]);
      SubmeshesRead(p, b, pos + |Write(es[0])|, level[1..]);
    }
  }

  lemma LevelReads(p: Platform, level: Level)
    requires ValidLevel(level) && CarriesLevel(p, level) && |LevelText(p, level)| < TWO_32
    ensures ReadLevel(p, LevelText(p, level)) == Some(RoundedLevel(p, level))
  {
    hide ValidSubmesh, CarriesLevel, WriteElements, ReadLevel, RoundedLevel, BigEndian, SubmeshDocuments;
    LevelReadsFrom(p, LevelText(p, level), level);
  }

  lemma LevelReadsFrom(p: Platform, b: Bytes, level: Level)
    requires ValidLevel(level) && CarriesLevel(p, level) && |b| < TWO_32
    requires var es := SubmeshDocuments(p, level);
      b == ['['] + (BigEndian(|es|, 4) + (WriteElements(es) + [']']))
    ensures ReadLevel(p, b) == Some(RoundedLevel(p, level))
  {
    hide ValidSubmesh, CarriesLevel, WriteElements, ReadSubmeshes, RoundedLevel, BigEndian, ReadOpen, SubmeshDocuments;
    var es := SubmeshDocuments(p, level);
    Whole(b);
    ElementsLength(es);
    OpenReads(b, 0, '[', |es|, WriteElements(es), ']');
    SubmeshesRead(p, b, 5, level);
  }

  lemma HullReads(p: Platform, hull: seq<Vec3>)
    requires CarriesDomain(p, hull, 3) && |HullText(p, hull)| < TWO_32
    ensures ReadHull(p, HullText(p, hull)) == Some(Reread(hull, 3, p.nudge))
  {
    hide Write, WriteMember, ReadHull, BigEndian, Carries, Low, High, Coordinates, Reread;
    var low, high := Low(hull, 3), High(hull, 3, p.nudge);
    var least, most := Member(MIN, Array(Numbers(p, low))), Member(MAX, Array(Numbers(p, high)));
    var points := Member(VERTICES, Binary(Coordinates(p, hull, 3)));
    ThreeEntries(least, most, points);
    HullReadsFrom(p, HullText(p, hull), hull, least, most, points);
  }

  lemma HullReadsFrom(p: Platform, b: Bytes, hull: seq<Vec3>, least: Member, most: Member, points: Member)
    requires CarriesDomain(p, hull, 3) && |b| < TWO_32
    requires least == Member(MIN, Array(Numbers(p, Low(hull, 3))))
    requires most == Member(MAX, Array(Numbers(p, High(hull, 3, p.nudge))))
    requires points == Member(VERTICES, Binary(Coordinates(p, hull, 3)))
    requires b == ['{'] + (BigEndian(3, 4) + ((WriteMember(least) + (WriteMember(most) + WriteMember(points))) + ['}']))
    ensures ReadHull(p, b) == Some(Reread(hull, 3, p.nudge))
  {
    hide WriteMember, ReadOpen, ReadHull, ReadHullFields, BigEndian, Carries, Low, High, Coordinates, Reread, Numbers;
    var body := WriteMember(least) + (WriteMember(most) + WriteMember(points));
    Whole(b);
    OpenReads(b, 0, '{', 3, body, '}');
    AtSplit(b, 5, WriteMember(least), WriteMember(most) + WriteMember(points));
    var second := 5 + |WriteMember(least)|;
    AtSplit(b, second, WriteMember(most), WriteMember(points));
    var third := second + |WriteMember(most)|;
    HullEntries(p, b, 5, second, third, least, most, points, Low(hull, 3), High(hull, 3, p.nudge), Coordinates(p, hull, 3));
    HullUnpacks(p, b, hull, third + |WriteMember(points)|);
  }

  lemma HullUnpacks(p: Platform, b: Bytes, hull: seq<Vec3>, end: nat)
    requires ReadOpen(b, 0, '{') == Got(3, 5)
    requires ReadHullFields(p, b, 5, 3, HullFields([0.0, 0.0, 0.0], [0.0, 0.0, 0.0], []))
          == Got(HullFields(Low(hull, 3), High(hull, 3, p.nudge), Coordinates(p, hull, 3)), end)
    ensures ReadHull(p, b) == Some(Reread(hull, 3, p.nudge))
  {
    hide ReadOpen, ReadHullFields, Low, High, Coordinates, Reread, Points, Shorts;
    CoordinatesUnpack(p, hull, 3);
  }

  lemma ThreeEntries(a: Member, b: Member, c: Member)
    ensures Write(Map([a, b, c]))
         == ['{'] + (BigEndian(3, 4) + ((WriteMember(a) + (WriteMember(b) + WriteMember(c))) + ['}']))
  {
    assert [a, b, c][1..] == [b, c] && [b, c][1..] == [c] && [c][1..] == [];
    assert WriteMembers([c]) == WriteMember(c) + [];
    assert WriteMembers([b, c]) == WriteMember(b) + WriteMember(c);
    assert WriteMembers([a, b, c]) == WriteMember(a) + (WriteMember(b) + WriteMember(c));
  }

  lemma Whole(b: Bytes)
    ensures At(b, 0, b)
  {
    assert b[0..0 + |b|] == b;
  }

  lemma HullEntries(
      p: Platform, b: Bytes, first: nat, second: nat, third: nat, least: Member, most: Member, points: Member,
      low: Vec3, high: Vec3, payload: Bytes)
    requires |b| < TWO_32 && Carries(p, low) && Carries(p, high)
    requires least == Member(MIN, Array(Numbers(p, low))) && most == Member(MAX, Array(Numbers(p, high)))
    requires points == Member(VERTICES, Binary(payload))
    requires At(b, first, WriteMember(least)) && At(b, second, WriteMember(most)) && At(b, third, WriteMember(points))
    requires second == first + |WriteMember(least)| && third == second + |WriteMember(most)|
    ensures var f := HullFields([0.0, 0.0, 0.0], [0.0, 0.0, 0.0], []);
      ReadHullFields(p, b, first, 3, f) == Got(HullFields(low, high, payload), third + |WriteMember(points)|)
  {
    hide Write, WriteMember, ReadKey, ReadVector, ReadTagged, Carries, At, Numbers;
    KeyReads(b, first, least);
    VectorReads(p, b, first + 8, low);
    KeyReads(b, second, most);
    VectorReads(p, b, second + 8, high);
    KeyReads(b, third, points);
    PayloadReads(b, third + 18, payload);
    var f1 := HullFields(low, [0.0, 0.0, 0.0], []);
    var f2 := HullFields(low, high, []);
    assert ReadHullFields(p, b, third, 1, f2) == Got(HullFields(low, high, payload), third + |WriteMember(points)|);
    assert ReadHullFields(p, b, second, 2, f1) == ReadHullFields(p, b, third, 1, f2);
  }
}
