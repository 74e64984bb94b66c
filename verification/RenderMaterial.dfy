/** Legacy materials, on the wire and before their hash. */
module RenderMaterial {
  import opened Prelude
  import opened Llsd
  import opened LlsdInverse
  import opened LlsdObject

  type uint8 = x: int | 0 <= x < 256

  /** A map and the way it is laid on the face. */
  datatype Layer = Layer(texture: Bytes, offsetX: int32, offsetY: int32, repeatX: int32, repeatY: int32, rotation: int32)

  datatype Colour = Colour(red: uint8, green: uint8, blue: uint8, alpha: uint8)

  datatype Material = Material(
    normal: Layer, specular: Layer, colour: Colour,
    exponent: uint8, environment: uint8, alphaCutoff: uint8, alphaMode: uint8)

  const WIRE_SCALE: int32 := 10000

  const KEYS: seq<Bytes> := [
    "NormMap", "NormOffsetX", "NormOffsetY", "NormRepeatX", "NormRepeatY", "NormRotation",
    "SpecMap", "SpecOffsetX", "SpecOffsetY", "SpecRepeatX", "SpecRepeatY", "SpecRotation",
    "SpecColor", "SpecExp", "EnvIntensity", "AlphaMaskCutoff", "DiffuseAlphaMode"]

  function Key(i: nat): Bytes
    requires i < 17
  {
    KEYS[i]
  }

  /** How a double becomes an integer, which this model leaves open. */
  type Truncation = uint64 -> int64

  // ----- writing -----

  function UuidValue(text: Bytes): Llsd {
    Uuid(if text == [] then NIL_TEXT else text)
  }

  function LayerValues(l: Layer): seq<Llsd> {
    [UuidValue(l.texture), Integer(l.offsetX), Integer(l.offsetY), Integer(l.repeatX), Integer(l.repeatY), Integer(l.rotation)]
  }

  function Values(m: Material): seq<Llsd> {
    LayerValues(m.normal) + LayerValues(m.specular)
    + [Array([Integer(m.colour.red), Integer(m.colour.green), Integer(m.colour.blue), Integer(m.colour.alpha)]),
       Integer(m.exponent), Integer(m.environment), Integer(m.alphaCutoff), Integer(m.alphaMode)]
  }

  function Keyed(keys: seq<Bytes>, values: seq<Llsd>): (ms: seq<Member>)
    requires |keys| == |values|
    ensures |ms| == |keys| && forall i :: 0 <= i < |ms| ==> ms[i] == Member(keys[i], values[i])
  {
    seq(|keys|, i requires 0 <= i < |keys| && |keys| == |values| => Member(keys[i], values[i]))
  }

  function ToLlsd(m: Material): Llsd {
    Map(Keyed(KEYS, Values(m)))
  }

  // ----- reading -----

  /** The first member under a key. */
  function Find(ms: seq<Member>, key: Bytes): Option<Llsd> {
    if ms == [] then None else if ms[0].key == key then Some(ms[0].value) else Find(ms[1..], key)
  }

  function AsInteger(v: Llsd, fallback: int64, trunc: Truncation): int64 {
    match v
    case Integer(n) => n
    case Real(bits) => trunc(bits)
    case Boolean(b) => if b then 1 else 0
    case _ => fallback
  }

  function Clamp(n: int64): uint8 {
    if n < 0 then 0 else if n > 255 then 255 else n
  }

  function ReadInteger(ms: seq<Member>, key: Bytes, fallback: int32, trunc: Truncation): int32 {
    match Find(ms, key)
    case Some(v) => Wrap32(AsInteger(v, fallback, trunc))
    case None => fallback
  }

  function ReadByte(ms: seq<Member>, key: Bytes, fallback: uint8, trunc: Truncation): uint8 {
    match Find(ms, key)
    case Some(v) => Clamp(AsInteger(v, fallback, trunc))
    case None => fallback
  }

  /** The text a value carries, whichever of the three texts it is. */
  function TextOf(v: Llsd): Bytes {
    match v
    case Text(t) => t
    case Uuid(t) => t
    case Uri(t) => t
    case _ => []
  }

  function ReadUuid(ms: seq<Member>, key: Bytes): Bytes {
    match Find(ms, key)
    case Some(v) => if TextOf(v) == NIL_TEXT then [] else TextOf(v)
    case None => []
  }

  function ReadLayer(ms: seq<Member>, first: nat, trunc: Truncation): Layer
    requires first + 6 <= 17
  {
    Layer(ReadUuid(ms, Key(first)),
          ReadInteger(ms, Key(first + 1), 0, trunc), ReadInteger(ms, Key(first + 2), 0, trunc),
          ReadInteger(ms, Key(first + 3), WIRE_SCALE, trunc), ReadInteger(ms, Key(first + 4), WIRE_SCALE, trunc),
          ReadInteger(ms, Key(first + 5), 0, trunc))
  }

  function Component(es: seq<Llsd>, i: nat, trunc: Truncation): uint8 {
    if i < |es| then Clamp(AsInteger(es[i], 255, trunc)) else 255
  }

  function ReadColour(ms: seq<Member>, trunc: Truncation): Colour {
    var es := match Find(ms, Key(12)) case Some(Array(es)) => es case _ => [];
    Colour(Component(es, 0, trunc), Component(es, 1, trunc), Component(es, 2, trunc), Component(es, 3, trunc))
  }

  function UnknownKeys(ms: seq<Member>): seq<Bytes> {
    if ms == [] then []
    else (if ms[0].key in KEYS then [] else [ms[0].key]) + UnknownKeys(ms[1..])
  }

  datatype Parsed = Parsed(material: Material, unknown: seq<Bytes>)

  function FromLlsd(v: Llsd, trunc: Truncation): Option<Parsed> {
    if !v.Map? then None
    else
      var ms := v.members;
      Some(Parsed(
        Material(ReadLayer(ms, 0, trunc), ReadLayer(ms, 6, trunc), ReadColour(ms, trunc),
                 ReadByte(ms, Key(13), 0, trunc), ReadByte(ms, Key(14), 0, trunc),
                 ReadByte(ms, Key(15), 0, trunc), ReadByte(ms, Key(16), 0, trunc)),
        UnknownKeys(ms)))
  }

  // ----- looking fields up -----

  lemma KeysDiffer()
    ensures |KEYS| == 17 && forall i, j :: 0 <= i < j < 17 ==> KEYS[i] != KEYS[j]
  {
  }

  lemma {:induction false} FindAt(ms: seq<Member>, i: nat)
    requires i < |ms| && forall j :: 0 <= j < i ==> ms[j].key != ms[i].key
    ensures Find(ms, ms[i].key) == Some(ms[i].value)
    decreases i
  {
    if i > 0 {
      FindAt(ms[1..], i - 1);
    }
  }

  lemma FieldFound(m: Material, i: nat)
    requires i < 17
    ensures |KEYS| == |Values(m)| == 17 && Find(Keyed(KEYS, Values(m)), Key(i)) == Some(Values(m)[i])
  {
    hide Values;
    ValueAt(m);
    KeysDiffer();
    FindAt(Keyed(KEYS, Values(m)), i);
  }

  lemma {:induction false} AllKnown(ms: seq<Member>)
    requires forall i :: 0 <= i < |ms| ==> ms[i].key in KEYS
    ensures UnknownKeys(ms) == []
    decreases |ms|
  {
    if ms != [] {
      AllKnown(ms[1..]);
    }
  }

  /** Reading a material's own document gives it back, with nothing unknown in it, when neither
      of its maps spells the nil identifier. */
  lemma DocumentInverts(m: Material, trunc: Truncation)
    ensures FromLlsd(ToLlsd(m), trunc) == Some(Parsed(m.(
      normal := m.normal.(texture := ReadBack(m.normal.texture)), specular := m.specular.(texture := ReadBack(m.specular.texture))), []))
  {
    hide Keyed, Values, Key, ReadLayer, ReadColour, ReadByte, Find, UnknownKeys;
    ValueAt(m);
    var ms, vs := Keyed(KEYS, Values(m)), Values(m);
    forall i: nat | i < 17
      ensures Find(ms, Key(i)) == Some(vs[i])
    {
      FieldFound(m, i);
    }
    LayerInverts(ms, vs, 0, m.normal, trunc);
    LayerInverts(ms, vs, 6, m.specular, trunc);
    ColourInverts(ms, vs, m.colour, trunc);
    BytesInvert(ms, vs, m, trunc);
    OwnKeysAreKnown(vs);
  }

  lemma BytesInvert(ms: seq<Member>, vs: seq<Llsd>, m: Material, trunc: Truncation)
    requires |vs| == 17 && forall i: nat :: i < 17 ==> Find(ms, Key(i)) == Some(vs[i])
    requires vs[13..] == [Integer(m.exponent), Integer(m.environment), Integer(m.alphaCutoff), Integer(m.alphaMode)]
    ensures ReadByte(ms, Key(13), 0, trunc) == m.exponent && ReadByte(ms, Key(14), 0, trunc) == m.environment
    ensures ReadByte(ms, Key(15), 0, trunc) == m.alphaCutoff && ReadByte(ms, Key(16), 0, trunc) == m.alphaMode
  {
    hide Key;
    assert vs[13] == vs[13..][0] && vs[14] == vs[13..][1] && vs[15] == vs[13..][2] && vs[16] == vs[13..][3];
  }

  lemma OwnKeysAreKnown(vs: seq<Llsd>)
    requires |KEYS| == |vs|
    ensures UnknownKeys(Keyed(KEYS, vs)) == []
  {
    hide Keyed;
    AllKnown(Keyed(KEYS, vs));
  }

  lemma LayerInverts(ms: seq<Member>, vs: seq<Llsd>, first: nat, l: Layer, trunc: Truncation)
    requires |vs| == 17 && first + 6 <= 17 && forall i: nat :: i < 17 ==> Find(ms, Key(i)) == Some(vs[i])
    requires vs[first] == UuidValue(l.texture)
    requires vs[first + 1..first + 6]
      == [Integer(l.offsetX), Integer(l.offsetY), Integer(l.repeatX), Integer(l.repeatY), Integer(l.rotation)]
    ensures ReadLayer(ms, first, trunc) == l.(texture := ReadBack(l.texture))
  {
    hide Key;
    var ns := vs[first + 1..first + 6];
    assert vs[first + 1] == ns[0] && vs[first + 2] == ns[1] && vs[first + 3] == ns[2]
        && vs[first + 4] == ns[3] && vs[first + 5] == ns[4];
  }

  lemma ColourInverts(ms: seq<Member>, vs: seq<Llsd>, c: Colour, trunc: Truncation)
    requires |vs| == 17 && Find(ms, Key(12)) == Some(vs[12])
    requires vs[12] == Array([Integer(c.red), Integer(c.green), Integer(c.blue), Integer(c.alpha)])
    ensures ReadColour(ms, trunc) == c
  {
    hide Key;
  }

  /** What a map's text is read back as, before any wire. */
  function ReadBack(texture: Bytes): Bytes {
    if texture == NIL_TEXT then [] else texture
  }

  lemma ValueAt(m: Material)
    ensures |Values(m)| == 17
    ensures Values(m)[0] == UuidValue(m.normal.texture) && Values(m)[6] == UuidValue(m.specular.texture)
    ensures Values(m)[1..6] == [Integer(m.normal.offsetX), Integer(m.normal.offsetY), Integer(m.normal.repeatX),
                                Integer(m.normal.repeatY), Integer(m.normal.rotation)]
    ensures Values(m)[7..12] == [Integer(m.specular.offsetX), Integer(m.specular.offsetY), Integer(m.specular.repeatX),
                                 Integer(m.specular.repeatY), Integer(m.specular.rotation)]
    ensures Values(m)[12] == Array([Integer(m.colour.red), Integer(m.colour.green), Integer(m.colour.blue), Integer(m.colour.alpha)])
    ensures Values(m)[13..] == [Integer(m.exponent), Integer(m.environment), Integer(m.alphaCutoff), Integer(m.alphaMode)]
  {
  }

  // ----- which key is which field -----

  /** A number under the key is the field's, and without one the field is the default. */
  predicate Takes(ms: seq<Member>, key: Bytes, field: int32, default_: int32) {
    match Find(ms, key)
    case None => field == default_
    case Some(Integer(n)) => -0x8000_0000 <= n < 0x8000_0000 ==> field == n
    case Some(Boolean(b)) => field == if b then 1 else 0
    case Some(Real(_)) => true
    case Some(_) => field == default_
  }

  /** A byte's number is kept between 0 and 255. */
  predicate TakesByte(ms: seq<Member>, key: Bytes, field: uint8) {
    match Find(ms, key)
    case None => field == 0
    case Some(Integer(n)) => if 0 <= n <= 255 then field == n else if n < 0 then field == 0 else field == 255
    case Some(Boolean(b)) => field == if b then 1 else 0
    case Some(Real(_)) => true
    case Some(_) => field == 0
  }

  /** An identifier is taken as it is spelled, the nil one and a missing one as none. */
  predicate TakesMap(ms: seq<Member>, key: Bytes, field: Bytes) {
    match Find(ms, key)
    case None => field == []
    case Some(Uuid(t)) => field == if t == "00000000-0000-0000-0000-000000000000" then [] else t
    case Some(Text(t)) => field == if t == "00000000-0000-0000-0000-000000000000" then [] else t
    case Some(Uri(t)) => field == if t == "00000000-0000-0000-0000-000000000000" then [] else t
    case Some(_) => field == []
  }

  /** Whatever else a document holds and in whatever order, each field is read from its own key, and
      a missing one is its default: no map, no offset, no rotation, and one repeat. */
  lemma FieldsByKey(ms: seq<Member>, trunc: Truncation)
    ensures FromLlsd(Map(ms), trunc).Some?
    ensures var m := FromLlsd(Map(ms), trunc).value.material;
      && TakesMap(ms, "NormMap", m.normal.texture)
      && Takes(ms, "NormOffsetX", m.normal.offsetX, 0) && Takes(ms, "NormOffsetY", m.normal.offsetY, 0)
      && Takes(ms, "NormRepeatX", m.normal.repeatX, 10000) && Takes(ms, "NormRepeatY", m.normal.repeatY, 10000)
      && Takes(ms, "NormRotation", m.normal.rotation, 0)
      && TakesMap(ms, "SpecMap", m.specular.texture)
      && Takes(ms, "SpecOffsetX", m.specular.offsetX, 0) && Takes(ms, "SpecOffsetY", m.specular.offsetY, 0)
      && Takes(ms, "SpecRepeatX", m.specular.repeatX, 10000) && Takes(ms, "SpecRepeatY", m.specular.repeatY, 10000)
      && Takes(ms, "SpecRotation", m.specular.rotation, 0)
      && (Find(ms, "SpecColor") == None ==> m.colour == Colour(255, 255, 255, 255))
      && TakesByte(ms, "SpecExp", m.exponent) && TakesByte(ms, "EnvIntensity", m.environment)
      && TakesByte(ms, "AlphaMaskCutoff", m.alphaCutoff) && TakesByte(ms, "DiffuseAlphaMode", m.alphaMode)
  {
    KeyNames();
    hide Key, Find, UnknownKeys;
  }

  lemma KeyNames()
    ensures Key(0) == "NormMap" && Key(1) == "NormOffsetX" && Key(2) == "NormOffsetY" && Key(3) == "NormRepeatX"
    ensures Key(4) == "NormRepeatY" && Key(5) == "NormRotation" && Key(6) == "SpecMap" && Key(7) == "SpecOffsetX"
    ensures Key(8) == "SpecOffsetY" && Key(9) == "SpecRepeatX" && Key(10) == "SpecRepeatY" && Key(11) == "SpecRotation"
    ensures Key(12) == "SpecColor" && Key(13) == "SpecExp" && Key(14) == "EnvIntensity"
    ensures Key(15) == "AlphaMaskCutoff" && Key(16) == "DiffuseAlphaMode"
  {
  }

  // ----- over the wire -----

  /** Canonical lower case, or nil for what is no identifier: the text the wire leaves. */
  function WireText(texture: Bytes): Bytes {
    UuidText(UuidBytes(if texture == [] then NIL_TEXT else texture))
  }

  /** A material as it comes back from its own binary document. */
  function Settled(m: Material): Material {
    m.(normal := m.normal.(texture := ReadBack(WireText(m.normal.texture))),
       specular := m.specular.(texture := ReadBack(WireText(m.specular.texture))))
  }

  function OnWire(m: Material): Material {
    m.(normal := m.normal.(texture := WireText(m.normal.texture)),
       specular := m.specular.(texture := WireText(m.specular.texture)))
  }

  /** A map that is none, or a real identifier in its one spelling. */
  predicate Keepable(texture: Bytes) {
    texture == [] || (CanonicalUuid(texture) && texture != NIL_TEXT)
  }

  lemma NilIsCanonical()
    ensures CanonicalUuid(NIL_TEXT) && UuidBytes(NIL_TEXT) == NIL && UuidText(NIL) == NIL_TEXT
  {
    hide Hex, CanonicalUuid;
    ZeroDigits(NIL);
    Zeros(Hex(NIL));
    UuidTextIsCanonical(NIL);
    UuidRoundTrip(NIL, NIL_TEXT);
  }

  lemma {:induction false} ZeroDigits(b: Bytes)
    requires forall i :: 0 <= i < |b| ==> b[i] == '\0'
    ensures forall i :: 0 <= i < 2 * |b| ==> Hex(b)[i] == '0'
    decreases |b|
  {
    if b != [] {
      ZeroDigits(b[1..]);
    }
  }

  lemma Zeros(h: Bytes)
    requires |h| == 32 && forall i :: 0 <= i < 32 ==> h[i] == '0'
    ensures Dashed(h) == NIL_TEXT
  {
    assert h[..8] == "00000000" && h[8..12] == "0000" && h[12..16] == "0000" && h[16..20] == "0000" && h[20..] == "000000000000";
  }

  lemma KeptExactly(texture: Bytes)
    ensures ReadBack(WireText(texture)) == texture <==> Keepable(texture)
    ensures CanonicalUuid(WireText(texture)) && WireText(texture) != []
    ensures UuidBytes(WireText(texture)) == UuidBytes(if texture == [] then NIL_TEXT else texture)
  {
    hide UuidText, UuidBytes;
    var spelled := if texture == [] then NIL_TEXT else texture;
    NilIsCanonical();
    UuidRoundTrip(UuidBytes(spelled), spelled);
    UuidTextIsCanonical(UuidBytes(spelled));
  }

  lemma {:induction false} SameBytes(ms: seq<Member>, ns: seq<Member>)
    requires |ms| == |ns| && forall i :: 0 <= i < |ms| ==> ms[i].key == ns[i].key && Write(ms[i].value) == Write(ns[i].value)
    ensures WriteMembers(ms) == WriteMembers(ns)
    decreases |ms|
  {
    hide Write;
    if ms != [] {
      SameBytes(ms[1..], ns[1..]);
    }
  }

  lemma {:induction false} AllFit(ms: seq<Member>, depth: nat)
    requires forall i :: 0 <= i < |ms| ==> |ms[i].key| < TWO_32 && Fits(ms[i].value, depth)
    ensures MembersFit(ms, depth)
    decreases |ms|
  {
    hide Fits;
    if ms != [] {
      AllFit(ms[1..], depth);
    }
  }

  /** The wire does not tell a material from its settled spelling. */
  lemma WireIsSettled(m: Material)
    ensures Write(ToLlsd(m)) == Write(ToLlsd(OnWire(m))) && Fits(ToLlsd(OnWire(m)), 0)
  {
    hide Keyed, Values, UuidText, UuidBytes, CanonicalUuid;
    var n := OnWire(m);
    ValueAt(m);
    ValueAt(n);
    KeptExactly(m.normal.texture);
    KeptExactly(m.specular.texture);
    var ms, ns := Keyed(KEYS, Values(m)), Keyed(KEYS, Values(n));
    forall i: nat | i < 17
      ensures Write(ms[i].value) == Write(ns[i].value) && |ns[i].key| < TWO_32 && Fits(ns[i].value, 1)
    {
      EachOnWire(m, n, i);
    }
    SameBytes(ms, ns);
    AllFit(ns, 1);
  }

  lemma EachOnWire(m: Material, n: Material, i: nat)
    requires i < 17 && n == OnWire(m) && |Values(m)| == |Values(n)| == 17
    ensures Write(Values(m)[i]) == Write(Values(n)[i]) && |KEYS[i]| < TWO_32 && Fits(Values(n)[i], 1)
  {
    hide UuidText, UuidBytes, CanonicalUuid, Write, Fits, Values, WireText;
    ShortKeys();
    ValueAt(m);
    ValueAt(n);
    if i == 0 {
      TextureOnWire(m.normal.texture);
    } else if i == 6 {
      TextureOnWire(m.specular.texture);
    } else {
      OtherFields(m, n, i);
      if i == 12 {
        ComponentsFit(n.colour);
      } else {
        SmallFits(Values(n)[i]);
      }
    }
  }

  lemma OtherFields(m: Material, n: Material, i: nat)
    requires i < 17 && i != 0 && i != 6 && n == OnWire(m)
    ensures |Values(m)| == |Values(n)| == 17 && Values(m)[i] == Values(n)[i]
    ensures i != 12 ==> Values(n)[i].Integer? && -0x8000_0000 <= Values(n)[i].integer < 0x8000_0000
    ensures Values(n)[12] == Array([Integer(n.colour.red), Integer(n.colour.green), Integer(n.colour.blue), Integer(n.colour.alpha)])
  {
    hide WireText;
  }

  lemma TextureOnWire(texture: Bytes)
    ensures Write(UuidValue(texture)) == Write(UuidValue(WireText(texture))) && Fits(UuidValue(WireText(texture)), 1)
  {
    hide UuidText, UuidBytes, CanonicalUuid, WireText;
    KeptExactly(texture);
  }

  lemma SmallFits(v: Llsd)
    requires v.Integer? && -0x8000_0000 <= v.integer < 0x8000_0000
    ensures Fits(v, 1)
  {
  }

  lemma ShortKeys()
    ensures |KEYS| == 17 && forall i: nat :: i < 17 ==> |KEYS[i]| < 20
  {
  }

  lemma ComponentsFit(c: Colour)
    ensures Fits(Array([Integer(c.red), Integer(c.green), Integer(c.blue), Integer(c.alpha)]), 1)
  {
    OneMoreFits(c.alpha, []);
    OneMoreFits(c.blue, [Integer(c.alpha)]);
    OneMoreFits(c.green, [Integer(c.blue), Integer(c.alpha)]);
    OneMoreFits(c.red, [Integer(c.green), Integer(c.blue), Integer(c.alpha)]);
    assert [Integer(c.red), Integer(c.green), Integer(c.blue), Integer(c.alpha)]
        == [Integer(c.red)] + [Integer(c.green), Integer(c.blue), Integer(c.alpha)];
    assert [Integer(c.green), Integer(c.blue), Integer(c.alpha)] == [Integer(c.green)] + [Integer(c.blue), Integer(c.alpha)];
    assert [Integer(c.blue), Integer(c.alpha)] == [Integer(c.blue)] + [Integer(c.alpha)];
    assert [Integer(c.alpha)] == [Integer(c.alpha)] + [];
  }

  lemma OneMoreFits(n: uint8, rest: seq<Llsd>)
    requires ElementsFit(rest, 2)
    ensures ElementsFit([Integer(n)] + rest, 2)
  {
    assert ([Integer(n)] + rest)[1..] == rest;
  }

  /** A material survives its own binary document, whatever follows it, exactly when each map is
      none or a real identifier in its one spelling. */
  lemma MaterialSurvivesTheWire(m: Material, trailing: Bytes, trunc: Truncation)
    ensures var v := ParseBinary(Write(ToLlsd(m)) + trailing);
      v.Some? && FromLlsd(v.value, trunc) == Some(Parsed(Settled(m), []))
    ensures Settled(m) == m <==> Keepable(m.normal.texture) && Keepable(m.specular.texture)
  {
    hide ToLlsd, FromLlsd, Write, ParseBinary, Fits, WireText, Keepable;
    WireIsSettled(m);
    BinaryInversion(ToLlsd(OnWire(m)), trailing);
    DocumentInverts(OnWire(m), trunc);
    KeptExactly(m.normal.texture);
    KeptExactly(m.specular.texture);
  }

  // ----- identity -----

  function Word(n: int32): Bytes {
    BigEndian(n % TWO_32, 4)
  }

  function LayerForm(l: Layer): Bytes {
    Counted(l.texture) + (Word(l.offsetX) + (Word(l.offsetY) + (Word(l.repeatX) + (Word(l.repeatY) + Word(l.rotation)))))
  }

  function Tail(m: Material): Bytes {
    [m.colour.red as char, m.colour.green as char, m.colour.blue as char, m.colour.alpha as char,
     m.exponent as char, m.environment as char, m.alphaCutoff as char, m.alphaMode as char]
  }

  /** Every field in a fixed order: what the identity is the hash of. */
  function CanonicalForm(m: Material): Bytes {
    LayerForm(m.normal) + (LayerForm(m.specular) + Tail(m))
  }

  /** Four bytes, most significant first, as a number. */
  function FourAt(b: Bytes, pos: nat): int
    requires pos + 4 <= |b|
  {
    b[pos] as int * 0x100_0000 + b[pos + 1] as int * 0x1_0000 + b[pos + 2] as int * 0x100 + b[pos + 3] as int
  }

  lemma WordStands(b: Bytes, pos: nat, n: int32)
    requires At(b, pos, Word(n))
    ensures pos + 4 <= |b| && (FourAt(b, pos) - n) % TWO_32 == 0
  {
    var v: nat := n % TWO_32;
    FourBytes(v);
    var w := b[pos..pos + 4];
    assert b[pos] == w[0] && b[pos + 1] == w[1] && b[pos + 2] == w[2] && b[pos + 3] == w[3];
  }

  lemma FourBytes(v: nat)
    requires v < TWO_32
    ensures var w := BigEndian(v, 4);
      w[0] as int * 0x100_0000 + w[1] as int * 0x1_0000 + w[2] as int * 0x100 + w[3] as int == v
  {
    var a, b, c := v / 0x100, v / 0x100 / 0x100, v / 0x100 / 0x100 / 0x100;
    BigEndianStep(c, 0);
    BigEndianStep(b, 1);
    BigEndianStep(a, 2);
    BigEndianStep(v, 3);
    hide BigEndian;
    assert BigEndian(c, 1) == [ByteOf(c)] && c < 256;
    assert BigEndian(b, 2) == [ByteOf(c), ByteOf(b)];
    assert BigEndian(a, 3) == [ByteOf(c), ByteOf(b), ByteOf(a)];
    assert BigEndian(v, 4) == [ByteOf(c), ByteOf(b), ByteOf(a), ByteOf(v)];
  }

  lemma BigEndianStep(n: nat, width: nat)
    ensures BigEndian(n, width + 1) == BigEndian(n / 256, width) + [ByteOf(n)] && BigEndian(n, 0) == []
  {
  }

  /** A layer of the pre-hash form: its map's length and text, its offsets, its repeats, its rotation. */
  ghost predicate LayerStands(b: Bytes, pos: nat, l: Layer) {
    var at := pos + 4 + |l.texture|;
    && at + 20 <= |b| && (FourAt(b, pos) - |l.texture|) % TWO_32 == 0 && b[pos + 4..at] == l.texture
    && (FourAt(b, at) - l.offsetX) % TWO_32 == 0 && (FourAt(b, at + 4) - l.offsetY) % TWO_32 == 0
    && (FourAt(b, at + 8) - l.repeatX) % TWO_32 == 0 && (FourAt(b, at + 12) - l.repeatY) % TWO_32 == 0
    && (FourAt(b, at + 16) - l.rotation) % TWO_32 == 0
  }

  lemma LayerFormStands(b: Bytes, pos: nat, l: Layer)
    requires At(b, pos, LayerForm(l)) && |l.texture| < TWO_32
    ensures LayerStands(b, pos, l)
  {
    hide Word, FourAt;
    AtSplit(b, pos, Counted(l.texture), Word(l.offsetX) + (Word(l.offsetY) + (Word(l.repeatX) + (Word(l.repeatY) + Word(l.rotation)))));
    CountStands(b, pos, l.texture);
    var at := pos + 4 + |l.texture|;
    WordSize(l);
    AtSplit(b, at, Word(l.offsetX), Word(l.offsetY) + (Word(l.repeatX) + (Word(l.repeatY) + Word(l.rotation))));
    AtSplit(b, at + 4, Word(l.offsetY), Word(l.repeatX) + (Word(l.repeatY) + Word(l.rotation)));
    AtSplit(b, at + 8, Word(l.repeatX), Word(l.repeatY) + Word(l.rotation));
    AtSplit(b, at + 12, Word(l.repeatY), Word(l.rotation));
    WordStands(b, at, l.offsetX);
    WordStands(b, at + 4, l.offsetY);
    WordStands(b, at + 8, l.repeatX);
    WordStands(b, at + 12, l.repeatY);
    WordStands(b, at + 16, l.rotation);
  }

  lemma WordSize(l: Layer)
    ensures |Word(l.offsetX)| == |Word(l.offsetY)| == |Word(l.repeatX)| == |Word(l.repeatY)| == |Word(l.rotation)| == 4
  {
  }

  lemma CountStands(b: Bytes, pos: nat, text: Bytes)
    requires At(b, pos, Counted(text)) && |text| < TWO_32
    ensures |Counted(text)| == 4 + |text| && pos + 4 <= |b| && FourAt(b, pos) == |text| && At(b, pos + 4, text)
  {
    AtSplit(b, pos, BigEndian(|text|, 4), text);
    FourBytes(|text|);
    var w := b[pos..pos + 4];
    assert b[pos] == w[0] && b[pos + 1] == w[1] && b[pos + 2] == w[2] && b[pos + 3] == w[3];
  }

  /** The pre-hash form, byte by byte: the normal layer, the specular layer, the colour, and the four
      bytes in their order. */
  lemma CanonicalFormStands(m: Material)
    requires |m.normal.texture| < TWO_32 && |m.specular.texture| < TWO_32
    ensures var form := CanonicalForm(m); var n, s := |m.normal.texture|, |m.specular.texture|;
      && |form| == n + s + 56 && LayerStands(form, 0, m.normal) && LayerStands(form, n + 24, m.specular)
      && form[n + s + 48] as int == m.colour.red && form[n + s + 49] as int == m.colour.green
      && form[n + s + 50] as int == m.colour.blue && form[n + s + 51] as int == m.colour.alpha
      && form[n + s + 52] as int == m.exponent && form[n + s + 53] as int == m.environment
      && form[n + s + 54] as int == m.alphaCutoff && form[n + s + 55] as int == m.alphaMode
  {
    hide LayerStands;
    LayerSize(m.normal);
    LayerSize(m.specular);
    hide LayerForm;
    var form := CanonicalForm(m);
    var n, s := |m.normal.texture|, |m.specular.texture|;
    assert form[0..|form|] == form;
    AtSplit(form, 0, LayerForm(m.normal), LayerForm(m.specular) + Tail(m));
    AtSplit(form, n + 24, LayerForm(m.specular), Tail(m));
    LayerFormStands(form, 0, m.normal);
    LayerFormStands(form, n + 24, m.specular);
    assert forall k :: 0 <= k < 8 ==> form[n + s + 48 + k] == form[n + s + 48..n + s + 56][k] == Tail(m)[k];
  }

  lemma LayerSize(l: Layer)
    ensures |LayerForm(l)| == |l.texture| + 24
  {
    WordSize(l);
  }

  lemma SplitEqual(a: Bytes, b: Bytes, x: Bytes, y: Bytes)
    requires |a| == |b| && a + x == b + y
    ensures a == b && x == y
  {
    assert a == (a + x)[..|a|] && b == (b + y)[..|a|];
    assert x == (a + x)[|a|..] && y == (b + y)[|a|..];
  }

  lemma WordsDiffer(m: int32, n: int32, x: Bytes, y: Bytes)
    requires Word(m) + x == Word(n) + y
    ensures m == n && x == y
  {
    SplitEqual(Word(m), Word(n), x, y);
    assert Pow256(4) == TWO_32;
    WordReads(m % TWO_32, 4);
    WordReads(n % TWO_32, 4);
  }

  lemma LayersDiffer(l: Layer, k: Layer, x: Bytes, y: Bytes)
    requires |l.texture| < TWO_32 && |k.texture| < TWO_32 && LayerForm(l) + x == LayerForm(k) + y
    ensures l == k && x == y
  {
    hide Word, Counted, ReadCounted;
    var l1, k1 := Word(l.rotation) + x, Word(k.rotation) + y;
    var l2, k2 := Word(l.repeatY) + l1, Word(k.repeatY) + k1;
    var l3, k3 := Word(l.repeatX) + l2, Word(k.repeatX) + k2;
    var l4, k4 := Word(l.offsetY) + l3, Word(k.offsetY) + k3;
    var l5, k5 := Word(l.offsetX) + l4, Word(k.offsetX) + k4;
    var b := LayerForm(l) + x;
    assert b == Counted(l.texture) + l5;
    assert b == Counted(k.texture) + k5;
    assert b[0..|Counted(l.texture)|] == Counted(l.texture) && b[0..|Counted(k.texture)|] == Counted(k.texture);
    ReadsCounted(b, 0, l.texture);
    ReadsCounted(b, 0, k.texture);
    SplitEqual(Counted(l.texture), Counted(k.texture), l5, k5);
    WordsDiffer(l.offsetX, k.offsetX, l4, k4);
    WordsDiffer(l.offsetY, k.offsetY, l3, k3);
    WordsDiffer(l.repeatX, k.repeatX, l2, k2);
    WordsDiffer(l.repeatY, k.repeatY, l1, k1);
    WordsDiffer(l.rotation, k.rotation, x, y);
  }

  /** Materials with one pre-hash form are one material. */
  lemma CanonicalFormIsInjective(m: Material, n: Material)
    requires |m.normal.texture| < TWO_32 && |m.specular.texture| < TWO_32
    requires |n.normal.texture| < TWO_32 && |n.specular.texture| < TWO_32
    requires CanonicalForm(m) == CanonicalForm(n)
    ensures m == n
  {
    hide LayerForm;
    LayersDiffer(m.normal, n.normal, LayerForm(m.specular) + Tail(m), LayerForm(n.specular) + Tail(n));
    LayersDiffer(m.specular, n.specular, Tail(m), Tail(n));
    assert forall i :: 0 <= i < 8 ==> Tail(m)[i] == Tail(n)[i];
  }

  method AppendLayer(out: Writer, l: Layer)
    modifies out
    ensures out.out == old(out.out) + LayerForm(l)
  {
    hide BigEndian, Counted;
    out.AppendCounted(l.texture);
    out.AppendU32(l.offsetX % TWO_32);
    out.AppendU32(l.offsetY % TWO_32);
    out.AppendU32(l.repeatX % TWO_32);
    out.AppendU32(l.repeatY % TWO_32);
    out.AppendU32(l.rotation % TWO_32);
  }

  method WriteCanonicalForm(m: Material) returns (form: Bytes)
    ensures form == CanonicalForm(m)
  {
    hide LayerForm;
    var out := new Writer();
    AppendLayer(out, m.normal);
    AppendLayer(out, m.specular);
    out.out := out.out + [m.colour.red as char, m.colour.green as char, m.colour.blue as char, m.colour.alpha as char];
    out.out := out.out + [m.exponent as char];
    out.out := out.out + [m.environment as char];
    out.out := out.out + [m.alphaCutoff as char];
    out.out := out.out + [m.alphaMode as char];
    return out.out;
  }
}
