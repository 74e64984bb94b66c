/** A second writer and a second reader of texture entries. */
module TextureEntryUsers {
  import opened Prelude
  import opened TextureEntry
  import opened TextureEntryLaws
  import L = Llsd

  // ----- the second writer -----

  /** The faces an upload's entry names: fewer than the thirty-two that an entry can. */
  const UPLOAD_FACES: nat := 8

  /** One face's value joins the exceptions, unless it is the default. */
  function Collect(values: seq<Bytes>, fallback: Bytes, n: nat): seq<Exception>
    requires n <= |values| && n <= MAX_FACES
  {
    if n == 0 then []
    else if values[n - 1] == fallback then Collect(values, fallback, n - 1)
    else WithFace(Collect(values, fallback, n - 1), n - 1, values[n - 1])
  }

  function Few(n: nat): (m: nat)
    ensures m <= n && m <= UPLOAD_FACES
  {
    if n < UPLOAD_FACES then n else UPLOAD_FACES
  }

  const WHITE: Bytes := ['\0', '\0', '\0', '\0']
  /** One, as a little-endian float. */
  const ONE: Bytes := ['\0', '\0', 0x80 as char, '?']

  function Plain(value: Bytes): FieldValues {
    FieldValues(value, [], true)
  }

  function Faced(fallback: Bytes, values: seq<Bytes>): FieldValues {
    FieldValues(fallback, Collect(values, fallback, Few(|values|)), true)
  }

  /** The entry for an uploaded mesh: its textures, its inverted colours, and defaults elsewhere. */
  function InstanceEntry(fallback: Bytes, textures: seq<Bytes>, colours: seq<Bytes>): Entry {
    [Faced(fallback, textures), Faced(WHITE, colours), Plain(ONE), Plain(ONE), Plain(Zeros(2)), Plain(Zeros(2)),
     Plain(Zeros(2)), Plain(Zeros(1)), Plain(Zeros(1)), Plain(Zeros(1)), Plain(Zeros(16))]
  }

  // ----- what the faces say -----

  lemma {:induction false} CollectCovers(values: seq<Bytes>, fallback: Bytes, n: nat, width: nat, face: nat)
    requires n <= |values| && n <= MAX_FACES && forall i :: 0 <= i < |values| ==> |values[i]| == width
    ensures Covering(Collect(values, fallback, n), face)
      == if face < n && values[face] != fallback then Some(values[face]) else None
    ensures forall x :: x in Collect(values, fallback, n) ==> |x.value| == width
    decreases n
  {
    hide Bit, Covering, WithFace;
    if n == 0 {
      UncoveredIsNone([], face);
    } else {
      CollectCovers(values, fallback, n - 1, width, face);
      if values[n - 1] != fallback {
        var xs := Collect(values, fallback, n - 1);
        CollectSpares(values, fallback, n - 1, width, n - 1);
        JoinedCovers(xs, n - 1, values[n - 1], face);
        JoinedWidths(xs, n - 1, values[n - 1]);
      }
    }
  }

  lemma {:induction false} JoinedWidths(xs: seq<Exception>, face: nat, value: Bytes)
    requires face < MAX_FACES && forall x :: x in xs ==> |x.value| == |value|
    ensures forall x :: x in WithFace(xs, face, value) ==> |x.value| == |value|
    decreases |xs|
  {
    hide WithBit;
    if xs != [] {
      assert xs[0] in xs && forall x :: x in xs[1..] ==> x in xs;
      JoinedWidths(xs[1..], face, value);
    }
  }

  /** No exception yet covers a face still to come. */
  lemma {:induction false} CollectSpares(values: seq<Bytes>, fallback: Bytes, n: nat, width: nat, face: nat)
    requires n <= face < MAX_FACES && n <= |values| && forall i :: 0 <= i < |values| ==> |values[i]| == width
    ensures Uncovered(Collect(values, fallback, n), face)
    decreases n
  {
    hide Bit, WithFace;
    if n > 0 {
      CollectSpares(values, fallback, n - 1, width, face);
      if values[n - 1] != fallback {
        JoinSpares(Collect(values, fallback, n - 1), n - 1, values[n - 1], face);
      }
    }
  }

  lemma {:induction false} JoinSpares(xs: seq<Exception>, face: nat, value: Bytes, other: nat)
    requires face < MAX_FACES && other != face && Uncovered(xs, other)
    ensures Uncovered(WithFace(xs, face, value), other)
    decreases |xs|
  {
    hide Bit, SetBit;
    if xs == [] {
      BitSet(0, face, true, other);
      NoBits(other);
    } else {
      assert xs[0] in xs && forall x :: x in xs[1..] ==> x in xs;
      BitSet(xs[0].mask, face, true, other);
      JoinSpares(xs[1..], face, value, other);
    }
  }

  lemma {:induction false} CollectIsForSomeFace(values: seq<Bytes>, fallback: Bytes, n: nat)
    requires n <= |values| && n <= MAX_FACES
    ensures forall x :: x in Collect(values, fallback, n) ==> x.mask != 0
    decreases n
  {
    hide WithFace;
    if n > 0 {
      CollectIsForSomeFace(values, fallback, n - 1);
      JoinIsForSomeFace(Collect(values, fallback, n - 1), n - 1, values[n - 1]);
    }
  }

  lemma {:induction false} JoinIsForSomeFace(xs: seq<Exception>, face: nat, value: Bytes)
    requires face < MAX_FACES && forall x :: x in xs ==> x.mask != 0
    ensures forall x :: x in WithFace(xs, face, value) ==> x.mask != 0
    decreases |xs|
  {
    hide Bit, SetBit;
    NoBits(face);
    if xs == [] {
      BitSet(0, face, true, face);
    } else {
      assert xs[0] in xs && forall x :: x in xs[1..] ==> x in xs;
      BitSet(xs[0].mask, face, true, face);
      JoinIsForSomeFace(xs[1..], face, value);
    }
  }

  // ----- read by the first reader -----

  lemma InstanceIsWellFormed(fallback: Bytes, textures: seq<Bytes>, colours: seq<Bytes>)
    requires |fallback| == 16 && (forall i :: 0 <= i < |textures| ==> |textures[i]| == 16)
    requires forall i :: 0 <= i < |colours| ==> |colours[i]| == 4
    ensures var e := InstanceEntry(fallback, textures, colours); Last(e) == 11 && WellFormed(e)
  {
    InstanceExceptions(fallback, textures, colours);
    InstanceFields(fallback, textures, colours);
    assert Width(10) == 16;
    hide Collect, Covering, Written, Width, Zeros, InstanceEntry, Absent;
    var e := InstanceEntry(fallback, textures, colours);
    assert HasContent(e[10]);
    forall f: nat | f < 11
      ensures WellFormedField(e[f], f, 11)
    {
    }
  }

  /** An entry's bytes from a field on, without the last terminator. */
  function CutBytes(e: Entry, f: nat): Bytes
    requires f < 11
    decreases 11 - f
  {
    if f == 10 then FieldBody(e[10], Width(10)) else FieldBody(e[f], Width(f)) + (['\0'] + CutBytes(e, f + 1))
  }

  lemma {:induction false} CutIsAllButTheLast(e: Entry, f: nat)
    requires f < 11
    ensures FieldsBytes(e, f, 11) == CutBytes(e, f) + ['\0']
    decreases 11 - f
  {
    hide FieldBody, Width;
    if f < 10 {
      CutIsAllButTheLast(e, f + 1);
      assert FieldBody(e[f], Width(f)) + (['\0'] + (CutBytes(e, f + 1) + ['\0']))
          == FieldBody(e[f], Width(f)) + (['\0'] + CutBytes(e, f + 1)) + ['\0'];
    } else {
      assert FieldsBytes(e, 11, 11) == [];
      assert ['\0'] + [] == ['\0'];
    }
  }

  lemma {:induction false} CutReadsBack(b: Bytes, pos: nat, e: Entry, f: nat)
    requires f < 11 && At(b, pos, CutBytes(e, f)) && pos + |CutBytes(e, f)| == |b|
    ensures ReadFields(b, pos, f) == Some(NormalFields(e, f, 11))
    decreases 11 - f
  {
    hide ReadExceptions, ExceptionBytes, DefaultBytes, Kept, Width, Zeros, NormalFields;
    NormalFieldsFrom(e, f, 11);
    var w := Width(f);
    if f < 10 {
      FieldReadsBack(b, pos, e[f], w, CutBytes(e, f + 1));
      CutReadsBack(b, pos + |FieldBody(e[f], w)| + 1, e, f + 1);
    } else {
      AtSplit(b, pos, DefaultBytes(e[f], w), ExceptionBytes(e[f].exceptions, w));
      assert ExceptionBytes(e[f].exceptions, w) + [] == ExceptionBytes(e[f].exceptions, w);
      ExceptionsReadBack(b, pos + w, e[f].exceptions, w, []);
      assert ReadFields(b, |b|, 11) == Some([]);
    }
  }

  lemma InstanceFields(fallback: Bytes, textures: seq<Bytes>, colours: seq<Bytes>)
    ensures var e := InstanceEntry(fallback, textures, colours);
      && e[0] == Faced(fallback, textures) && e[1] == Faced(WHITE, colours)
      && e[2] == e[3] == Plain(ONE) && e[4] == e[5] == e[6] == Plain(Zeros(2))
      && e[7] == e[8] == e[9] == Plain(Zeros(1)) && e[10] == Plain(Zeros(16))
  {
  }

  /** Reading the built entry back gives each of the first eight faces its texture and its colour,
      and every other face the defaults. */
  lemma InstanceFaces(fallback: Bytes, textures: seq<Bytes>, colours: seq<Bytes>, face: nat)
    requires |fallback| == 16 && (forall i :: 0 <= i < |textures| ==> |textures[i]| == 16)
    requires forall i :: 0 <= i < |colours| ==> |colours[i]| == 4
    ensures var r := Parse(CutBytes(InstanceEntry(fallback, textures, colours), 0));
      && r == Some(InstanceEntry(fallback, textures, colours))
      && FaceValue(r.value, 0, face) == (if face < |textures| && face < UPLOAD_FACES then textures[face] else fallback)
      && FaceValue(r.value, 1, face) == (if face < |colours| && face < UPLOAD_FACES then colours[face] else WHITE)
  {
    hide Collect, CutBytes, ReadFields, InstanceEntry, WellFormed, Encode, Bit;
    var e := InstanceEntry(fallback, textures, colours);
    InstanceFields(fallback, textures, colours);
    var b := CutBytes(e, 0);
    assert b[0..|b|] == b;
    CutReadsBack(b, 0, e, 0);
    InstanceIsWellFormed(fallback, textures, colours);
    EncodeThenParse(e);
    assert Parse(b) == Some(e);
    CollectCovers(textures, fallback, Few(|textures|), 16, face);
    CollectCovers(colours, WHITE, Few(|colours|), 4, face);
  }

  /** Everything else of an uploaded face: repeated once each way, and no offset, rotation, bump,
      media, glow or material. One is spelled as a little-endian float. */
  lemma InstanceDefaults(fallback: Bytes, textures: seq<Bytes>, colours: seq<Bytes>, face: nat)
    requires |fallback| == 16 && (forall i :: 0 <= i < |textures| ==> |textures[i]| == 16)
    requires forall i :: 0 <= i < |colours| ==> |colours[i]| == 4
    ensures Parse(CutBytes(InstanceEntry(fallback, textures, colours), 0)).Some?
    ensures var e := Parse(CutBytes(InstanceEntry(fallback, textures, colours), 0)).value;
      && FaceValue(e, 2, face) == FaceValue(e, 3, face) == [0 as char, 0 as char, 0x80 as char, 0x3F as char]
      && FaceValue(e, 4, face) == FaceValue(e, 5, face) == FaceValue(e, 6, face) == [0 as char, 0 as char]
      && FaceValue(e, 7, face) == FaceValue(e, 8, face) == FaceValue(e, 9, face) == [0 as char]
      && |FaceValue(e, 10, face)| == 16 && forall i :: 0 <= i < 16 ==> FaceValue(e, 10, face)[i] as int == 0
  {
    hide CutBytes, InstanceEntry, Parse, Zeros;
    InstanceFaces(fallback, textures, colours, 0);
    InstanceFields(fallback, textures, colours);
  }

  /** What each face was uploaded with is what it reads exactly when the faces from the ninth on
      were uploaded with the fallback, and with white. */
  lemma EveryFaceReadsItsOwn(fallback: Bytes, textures: seq<Bytes>, colours: seq<Bytes>)
    requires |fallback| == 16 && (forall i :: 0 <= i < |textures| ==> |textures[i]| == 16)
    requires forall i :: 0 <= i < |colours| ==> |colours[i]| == 4
    ensures Parse(CutBytes(InstanceEntry(fallback, textures, colours), 0)).Some?
    ensures var e := Parse(CutBytes(InstanceEntry(fallback, textures, colours), 0)).value;
      && ((forall face :: 0 <= face < |textures| ==> FaceValue(e, 0, face) == textures[face])
          <==> forall face :: UPLOAD_FACES <= face < |textures| ==> textures[face] == fallback)
      && ((forall face :: 0 <= face < |colours| ==> FaceValue(e, 1, face) == colours[face])
          <==> forall face :: UPLOAD_FACES <= face < |colours| ==> colours[face] == WHITE)
  {
    hide CutBytes, InstanceEntry, FaceValue, Parse;
    InstanceFaces(fallback, textures, colours, 0);
    var e := Parse(CutBytes(InstanceEntry(fallback, textures, colours), 0)).value;
    forall face | 0 <= face < |textures|
      ensures FaceValue(e, 0, face) == if face < UPLOAD_FACES then textures[face] else fallback
    {
      InstanceFaces(fallback, textures, colours, face);
    }
    forall face | 0 <= face < |colours|
      ensures FaceValue(e, 1, face) == if face < UPLOAD_FACES then colours[face] else WHITE
    {
      InstanceFaces(fallback, textures, colours, face);
    }
  }

  // ----- the writer itself -----

  datatype Face = Face(image: int, colour: Bytes)

  /** The texture uploaded for the face's image, or the fallback. */
  function FaceTexture(face: Face, textures: seq<Option<Bytes>>, fallback: Bytes): Bytes {
    if 0 <= face.image < |textures| && textures[face.image].Some? then textures[face.image].value else fallback
  }

  function FaceTextures(faces: seq<Face>, textures: seq<Option<Bytes>>, fallback: Bytes): (r: seq<Bytes>)
    ensures |r| == |faces| && forall i :: 0 <= i < |r| ==> r[i] == FaceTexture(faces[i], textures, fallback)
  {
    seq(|faces|, i requires 0 <= i < |faces| => FaceTexture(faces[i], textures, fallback))
  }

  function FaceColours(faces: seq<Face>): (r: seq<Bytes>)
    ensures |r| == |faces| && forall i :: 0 <= i < |r| ==> r[i] == faces[i].colour
  {
    seq(|faces|, i requires 0 <= i < |faces| => faces[i].colour)
  }

  /** Nine faces of one uploaded texture: eight read it, and the ninth the fallback. */
  lemma NinthFaceIsLost(fallback: Bytes, texture: Bytes, face: nat)
    requires |fallback| == |texture| == 16 && face < 9
    ensures var faces := seq(9, _ => Face(0, WHITE));
      && FaceTextures(faces, [Some(texture)], fallback)[face] == texture
      && var b := CutBytes(InstanceEntry(fallback, FaceTextures(faces, [Some(texture)], fallback), FaceColours(faces)), 0);
         Parse(b).Some? && FaceValue(Parse(b).value, 0, face) == if face < 8 then texture else fallback
  {
    hide CutBytes, InstanceEntry, FaceValue, Parse;
    var faces := seq(9, _ => Face(0, WHITE));
    InstanceFaces(fallback, FaceTextures(faces, [Some(texture)], fallback), FaceColours(faces), face);
  }

  /** The mask's groups, lowest first. */
  method TakeGroups(mask: uint32) returns (groups: seq<nat>)
    ensures |groups| > 0 && groups[0] == mask % 128 && forall i :: 0 <= i < |groups| ==> groups[i] < 128
    ensures Continued(groups[1..]) == High(mask / 128)
  {
    groups := [mask % 128];
    var m: nat := mask / 128;
    assert groups[1..] == [];
    while m != 0
      invariant |groups| > 0 && groups[0] == mask % 128
      invariant forall i :: 0 <= i < |groups| ==> groups[i] < 128
      invariant High(mask / 128) == High(m) + Continued(groups[1..])
      decreases m
    {
      ContinuedSnoc(groups[1..], m % 128);
      assert (groups + [m % 128])[1..] == groups[1..] + [m % 128];
      assert High(m / 128) + [(128 + m % 128) as char] + Continued(groups[1..])
          == High(m / 128) + ([(128 + m % 128) as char] + Continued(groups[1..]));
      groups := groups + [m % 128];
      m := m / 128;
    }
  }

  /** The groups are taken from the mask lowest first, and written highest first. */
  method AppendFaceBits(out: Bytes, mask: uint32) returns (r: Bytes)
    ensures r == out + FaceBits(mask)
  {
    hide High;
    var groups := TakeGroups(mask);
    r := out;
    var index := |groups|;
    assert groups[1..|groups|] == groups[1..];
    while index > 1
      invariant 1 <= index <= |groups|
      invariant r + Continued(groups[1..index]) == out + Continued(groups[1..])
      decreases index
    {
      ContinuedSnoc(groups[1..index - 1], groups[index - 1]);
      assert groups[1..index] == groups[1..index - 1] + [groups[index - 1]];
      r := r + [(128 + groups[index - 1]) as char];
      index := index - 1;
    }
    assert groups[1..1] == [] && r + [] == r;
    assert r + [groups[0] as char] == out + (Continued(groups[1..]) + [groups[0] as char]);
    r := r + [groups[0] as char];
  }

  /** Continuing groups, the last one first. */
  function Continued(groups: seq<nat>): Bytes
    requires forall i :: 0 <= i < |groups| ==> groups[i] < 128
  {
    if groups == [] then [] else Continued(groups[1..]) + [(128 + groups[0]) as char]
  }

  lemma {:induction false} ContinuedSnoc(groups: seq<nat>, g: nat)
    requires g < 128 && forall i :: 0 <= i < |groups| ==> groups[i] < 128
    ensures Continued(groups + [g]) == [(128 + g) as char] + Continued(groups)
    decreases |groups|
  {
    if groups != [] {
      assert (groups + [g])[1..] == groups[1..] + [g];
      ContinuedSnoc(groups[1..], g);
    }
  }

  /** The faces' values as exceptions, each joining the first of its own value. */
  method CollectExceptions(values: seq<Bytes>, fallback: Bytes, ghost width: nat) returns (xs: seq<Exception>)
    requires forall i :: 0 <= i < |values| ==> |values[i]| == width
    ensures xs == Collect(values, fallback, Few(|values|))
  {
    hide WithFace;
    xs := [];
    var index := 0;
    while index < |values| && index < UPLOAD_FACES
      invariant index <= |values| && index <= UPLOAD_FACES && xs == Collect(values, fallback, index)
    {
      if values[index] != fallback {
        CollectCovers(values, fallback, index, width, 0);
        xs := JoinFace(xs, index, values[index]);
      }
      index := index + 1;
    }
  }

  method JoinFace(xs: seq<Exception>, face: nat, value: Bytes) returns (r: seq<Exception>)
    requires face < MAX_FACES && forall x :: x in xs ==> |x.value| == |value|
    ensures r == WithFace(xs, face, value)
  {
    hide WithBit, WithFace;
    var i := 0;
    assert xs[0..] == xs && xs[..0] == [] && [] + WithFace(xs, face, value) == WithFace(xs, face, value);
    while i < |xs| && xs[i].value != value
      invariant i <= |xs| && xs[..i] + WithFace(xs[i..], face, value) == WithFace(xs, face, value)
    {
      OneFurther(xs, face, value, i);
      i := i + 1;
    }
    if i < |xs| {
      FoundHere(xs, face, value, i);
      return xs[i := xs[i].(mask := WithBit(xs[i].mask, face, true))];
    }
    assert xs[i..] == [] && xs[..i] == xs;
    NoneFound(face, value);
    return xs + [Exception(WithBit(0, face, true), value)];
  }

  lemma OneFurther(xs: seq<Exception>, face: nat, value: Bytes, i: nat)
    requires face < MAX_FACES && (forall x :: x in xs ==> |x.value| == |value|) && i < |xs| && xs[i].value != value
    ensures xs[..i] + WithFace(xs[i..], face, value) == xs[..i + 1] + WithFace(xs[i + 1..], face, value)
  {
    hide WithBit;
    assert xs[i] in xs && xs[i..][1..] == xs[i + 1..];
    assert WithFace(xs[i..], face, value) == [xs[i]] + WithFace(xs[i + 1..], face, value);
  }

  lemma FoundHere(xs: seq<Exception>, face: nat, value: Bytes, i: nat)
    requires face < MAX_FACES && i < |xs| && xs[i].value == value
    ensures xs[..i] + WithFace(xs[i..], face, value) == xs[i := xs[i].(mask := WithBit(xs[i].mask, face, true))]
  {
    hide WithBit;
    assert xs[i..][1..] == xs[i + 1..];
    assert WithFace(xs[i..], face, value) == [xs[i].(mask := WithBit(xs[i].mask, face, true))] + xs[i + 1..];
  }

  lemma NoneFound(face: nat, value: Bytes)
    requires face < MAX_FACES
    ensures WithFace([], face, value) == [Exception(WithBit(0, face, true), value)]
  {
  }

  method AppendField(out: Bytes, fallback: Bytes, xs: seq<Exception>, ghost e: Entry, ghost f: nat) returns (r: Bytes)
    requires f < 10 && e[f] == FieldValues(fallback, xs, true) && |fallback| == Width(f)
    requires forall x :: x in xs ==> Written(x, Width(f))
    requires out + CutBytes(e, f) == CutBytes(e, 0)
    ensures r + CutBytes(e, f + 1) == CutBytes(e, 0)
  {
    hide CutBytes, FaceBits, Width;
    var w := |fallback|;
    r := out + fallback;
    var i := 0;
    assert xs[0..] == xs;
    while i < |xs|
      invariant i <= |xs| && r + ExceptionBytes(xs[i..], w) == out + FieldBody(e[f], w)
    {
      assert xs[i] in xs && xs[i..][1..] == xs[i + 1..];
      var bits := AppendFaceBits(r, xs[i].mask);
      assert r + (FaceBits(xs[i].mask) + xs[i].value + ExceptionBytes(xs[i + 1..], w))
          == bits + xs[i].value + ExceptionBytes(xs[i + 1..], w);
      r := bits + xs[i].value;
      i := i + 1;
    }
    assert xs[i..] == [] && r == out + FieldBody(e[f], w);
    CutStep(e, f);
    r := r + ['\0'];
    assert r + CutBytes(e, f + 1) == out + (FieldBody(e[f], w) + (['\0'] + CutBytes(e, f + 1)));
  }

  lemma CutStep(e: Entry, f: nat)
    requires f < 10
    ensures CutBytes(e, f) == FieldBody(e[f], Width(f)) + (['\0'] + CutBytes(e, f + 1))
  {
  }

  method InstanceTextureEntry(fallback: Bytes, faces: seq<Face>, textures: seq<Option<Bytes>>) returns (out: Bytes)
    requires |fallback| == 16 && forall i :: 0 <= i < |textures| && textures[i].Some? ==> |textures[i].value| == 16
    requires forall i :: 0 <= i < |faces| ==> |faces[i].colour| == 4
    ensures out == CutBytes(InstanceEntry(fallback, FaceTextures(faces, textures, fallback), FaceColours(faces)), 0)
  {
    hide CutBytes, Collect, Zeros, Width, WithFace, InstanceEntry, Written;
    var images, colours := FaceTextures(faces, textures, fallback), FaceColours(faces);
    var xs := CollectExceptions(images, fallback, 16);
    var ys := CollectExceptions(colours, WHITE, 4);
    ghost var e := InstanceEntry(fallback, images, colours);
    InstanceExceptions(fallback, images, colours);
    InstanceFields(fallback, images, colours);
    out := AppendField([], fallback, xs, e, 0);
    out := AppendField(out, WHITE, ys, e, 1);
    out := AppendField(out, ONE, [], e, 2);
    out := AppendField(out, ONE, [], e, 3);
    out := AppendField(out, Zeros(2), [], e, 4);
    out := AppendField(out, Zeros(2), [], e, 5);
    out := AppendField(out, Zeros(2), [], e, 6);
    out := AppendField(out, Zeros(1), [], e, 7);
    out := AppendField(out, Zeros(1), [], e, 8);
    out := AppendField(out, Zeros(1), [], e, 9);
    LastField(e);
    out := out + Zeros(16);
  }

  lemma InstanceExceptions(fallback: Bytes, textures: seq<Bytes>, colours: seq<Bytes>)
    requires |fallback| == 16 && (forall i :: 0 <= i < |textures| ==> |textures[i]| == 16)
    requires forall i :: 0 <= i < |colours| ==> |colours[i]| == 4
    ensures forall x :: x in Collect(textures, fallback, Few(|textures|)) ==> Written(x, 16)
    ensures forall x :: x in Collect(colours, WHITE, Few(|colours|)) ==> Written(x, 4)
    ensures Width(0) == 16 && Width(1) == Width(2) == Width(3) == 4 && Width(4) == Width(5) == Width(6) == 2
    ensures Width(7) == Width(8) == Width(9) == 1
  {
    hide Collect;
    CollectIsForSomeFace(textures, fallback, Few(|textures|));
    CollectCovers(textures, fallback, Few(|textures|), 16, 0);
    CollectIsForSomeFace(colours, WHITE, Few(|colours|));
    CollectCovers(colours, WHITE, Few(|colours|), 4, 0);
  }

  lemma LastField(e: Entry)
    requires e[10] == Plain(Zeros(16))
    ensures CutBytes(e, 10) == Zeros(16)
  {
    assert Zeros(16) + [] == Zeros(16);
  }

  // ----- the second reader -----

  /** A bitfield as the texture lister reads it: up to nine groups, kept in sixty-four bits. */
  function Varint(b: Bytes, pos: nat, bits: nat, length: nat): (r: Option<(nat, nat)>)
    ensures r.Some? ==> pos < r.value.1 <= |b|
    decreases |b| - pos
  {
    if pos >= |b| then None
    else
      var byte := b[pos] as int;
      var next := (bits * 128 + byte % 128) % TWO_64;
      if byte < 128 then Some((next, pos + 1))
      else if length + 1 > 8 then None
      else Varint(b, pos + 1, next, length + 1)
  }

  /** A texture's id, once, and never the nil one. */
  function AddId(ids: seq<Bytes>, raw: Bytes): seq<Bytes>
    requires |raw| == 16
  {
    if L.UuidText(raw) == L.NIL_TEXT || L.UuidText(raw) in ids then ids else ids + [L.UuidText(raw)]
  }

  function WalkIds(b: Bytes, pos: nat, ids: seq<Bytes>): seq<Bytes>
    decreases |b| - pos
  {
    match Varint(b, pos, 0, 0)
    case None => ids
    case Some((bits, next)) =>
      if bits == 0 || next + 16 > |b| then ids else WalkIds(b, next + 16, AddId(ids, b[next..next + 16]))
  }

  function TextureIds(b: Bytes): seq<Bytes> {
    if |b| < 16 then [] else WalkIds(b, 16, AddId([], b[0..16]))
  }

  predicate AllSixteen(raws: seq<Bytes>) {
    forall i :: 0 <= i < |raws| ==> |raws[i]| == 16
  }

  /** The ids of raw textures in the order they first occur. */
  function IdsOf(raws: seq<Bytes>): seq<Bytes>
    requires AllSixteen(raws)
  {
    if raws == [] then [] else AddId(IdsOf(raws[..|raws| - 1]), raws[|raws| - 1])
  }

  lemma VarintStep(b: Bytes, at: nat, length: nat, k: uint32, continues: bool)
    requires length < 8 && at < |b| && b[at] as int == (if continues then 128 else 0) + k % 128
    ensures Varint(b, at, k / 128, length) == if continues then Varint(b, at + 1, k, length + 1) else Some((k, at + 1))
  {
    var byte := b[at] as int;
    assert byte % 128 == k % 128 && k / 128 * 128 + k % 128 == k && k % TWO_64 == k;
  }

  lemma {:induction false} HighVarint(b: Bytes, pos: nat, k: uint32)
    requires At(b, pos, High(k)) && Groups(k) <= 4
    ensures Varint(b, pos, 0, 0) == Varint(b, pos + |High(k)|, k, Groups(k))
    decreases k
  {
    hide Varint;
    if k > 0 {
      var c: Byte := (128 + k % 128) as char;
      AtSplit(b, pos, High(k / 128), [c]);
      HighVarint(b, pos, k / 128);
      var at := pos + |High(k / 128)|;
      assert b[at] == b[at..at + 1][0] == c;
      VarintStep(b, at, Groups(k / 128), k, true);
    }
  }

  /** Both readers take the same mask from what either writer wrote. */
  lemma VarintReadsBack(b: Bytes, pos: nat, mask: uint32)
    requires At(b, pos, FaceBits(mask))
    ensures Varint(b, pos, 0, 0) == ReadFaceBits(b, pos, 0, 0) == Some((mask, pos + |FaceBits(mask)|))
  {
    hide Varint, High, ReadFaceBits;
    BitsReadBack(b, pos, mask);
    var c: Byte := (mask % 128) as char;
    AtSplit(b, pos, High(mask / 128), [c]);
    FourGroups(mask);
    HighVarint(b, pos, mask / 128);
    var at := pos + |High(mask / 128)|;
    assert b[at] == b[at..at + 1][0] == c;
    VarintStep(b, at, Groups(mask / 128), mask, false);
  }

  /** The values a field's list is written with. */
  function ValuesOf(xs: seq<Exception>): (r: seq<Bytes>)
    ensures |r| == |xs| && forall i :: 0 <= i < |r| ==> r[i] == xs[i].value
  {
    seq(|xs|, i requires 0 <= i < |xs| => xs[i].value)
  }

  lemma {:induction false} WalkReads(b: Bytes, pos: nat, xs: seq<Exception>, rest: Bytes, seen: seq<Bytes>)
    requires At(b, pos, ExceptionBytes(xs, 16) + (['\0'] + rest)) && AllSixteen(seen)
    ensures AllSixteen(seen + ValuesOf(Kept(xs, 16)))
    ensures WalkIds(b, pos, IdsOf(seen)) == IdsOf(seen + ValuesOf(Kept(xs, 16)))
    decreases |xs|
  {
    hide ExceptionBytes, AddId, IdsOf, WalkIds, ValuesOf, Kept, AllSixteen;
    AllStaySixteen(seen, xs);
    KeptFrom(xs);
    if xs == [] {
      ListEnd(b, pos, rest, IdsOf(seen));
      assert seen + [] == seen;
    } else if !Written(xs[0], 16) {
      WalkReads(b, pos, xs[1..], rest, seen);
    } else {
      IdsSnoc(seen, xs[0].value);
      var next := OneWalks(b, pos, xs, rest, IdsOf(seen));
      WalkReads(b, next, xs[1..], rest, seen + [xs[0].value]);
      assert seen + [xs[0].value] + ValuesOf(Kept(xs[1..], 16)) == seen + ([xs[0].value] + ValuesOf(Kept(xs[1..], 16)));
    }
  }

  lemma OneWalks(b: Bytes, pos: nat, xs: seq<Exception>, rest: Bytes, ids: seq<Bytes>) returns (next: nat)
    requires xs != [] && Written(xs[0], 16) && At(b, pos, ExceptionBytes(xs, 16) + (['\0'] + rest))
    ensures At(b, next, ExceptionBytes(xs[1..], 16) + (['\0'] + rest))
    ensures WalkIds(b, pos, ids) == WalkIds(b, next, AddId(ids, xs[0].value))
  {
    hide Varint, FaceBits, ReadFaceBits, ReadExceptions, ExceptionBytes, AddId, WalkIds;
    OneReadsBack(b, pos, xs, 16, ['\0'] + rest);
    var after := pos + |FaceBits(xs[0].mask)|;
    ExceptionStarts(b, pos, xs, rest);
    VarintReadsBack(b, pos, xs[0].mask);
    WalkStep(b, pos, xs[0].mask, after, ids);
    next := after + 16;
  }

  lemma AllStaySixteen(seen: seq<Bytes>, xs: seq<Exception>)
    requires AllSixteen(seen)
    ensures AllSixteen(seen + ValuesOf(Kept(xs, 16)))
  {
    KeptAll(xs, 16);
    assert forall i :: 0 <= i < |Kept(xs, 16)| ==> Kept(xs, 16)[i] in Kept(xs, 16);
  }

  lemma KeptFrom(xs: seq<Exception>)
    ensures if xs == [] then ValuesOf(Kept(xs, 16)) == [] && ExceptionBytes(xs, 16) == []
      else if Written(xs[0], 16) then ValuesOf(Kept(xs, 16)) == [xs[0].value] + ValuesOf(Kept(xs[1..], 16))
      else Kept(xs, 16) == Kept(xs[1..], 16) && ExceptionBytes(xs, 16) == ExceptionBytes(xs[1..], 16)
  {
    hide FaceBits;
    if xs != [] && Written(xs[0], 16) {
      assert ValuesOf([xs[0]] + Kept(xs[1..], 16)) == [xs[0].value] + ValuesOf(Kept(xs[1..], 16));
    }
  }

  lemma WalkStep(b: Bytes, pos: nat, mask: nat, next: nat, ids: seq<Bytes>)
    requires Varint(b, pos, 0, 0) == Some((mask, next)) && mask != 0 && next + 16 <= |b|
    ensures WalkIds(b, pos, ids) == WalkIds(b, next + 16, AddId(ids, b[next..next + 16]))
  {
    hide Varint, AddId;
  }

  lemma ListEnd(b: Bytes, pos: nat, rest: Bytes, ids: seq<Bytes>)
    requires At(b, pos, [] + (['\0'] + rest))
    ensures WalkIds(b, pos, ids) == ids
  {
    hide Varint;
    assert [] + (['\0'] + rest) == ['\0'] + rest;
    AtSplit(b, pos, ['\0'], rest);
    assert b[pos] == b[pos..pos + 1][0];
    ZeroVarint(b, pos);
  }

  lemma ZeroVarint(b: Bytes, pos: nat)
    requires pos < |b| && b[pos] == '\0'
    ensures Varint(b, pos, 0, 0) == Some((0, pos + 1))
  {
  }

  lemma ExceptionStarts(b: Bytes, pos: nat, xs: seq<Exception>, rest: Bytes)
    requires xs != [] && Written(xs[0], 16) && At(b, pos, ExceptionBytes(xs, 16) + (['\0'] + rest))
    ensures At(b, pos, FaceBits(xs[0].mask))
  {
    hide FaceBits;
    var bits, more := FaceBits(xs[0].mask), ExceptionBytes(xs[1..], 16);
    assert ExceptionBytes(xs, 16) + (['\0'] + rest) == bits + (xs[0].value + (more + (['\0'] + rest)));
    AtSplit(b, pos, bits, xs[0].value + (more + (['\0'] + rest)));
  }

  lemma IdsSnoc(seen: seq<Bytes>, raw: Bytes)
    requires AllSixteen(seen) && |raw| == 16
    ensures AllSixteen(seen + [raw]) && IdsOf(seen + [raw]) == AddId(IdsOf(seen), raw)
  {
    assert (seen + [raw])[..|seen|] == seen;
  }

  /** The textures an encoded entry names: its default and its exceptions, in order. */
  lemma TextureIdsOfEncoded(e: Entry)
    requires Last(e) > 0
    ensures var raws := [DefaultBytes(e[0], 16)] + ValuesOf(Kept(e[0].exceptions, 16));
      AllSixteen(raws) && TextureIds(Encode(e)) == IdsOf(raws)
  {
    hide WalkIds, ExceptionBytes, DefaultBytes, Kept, ValuesOf, IdsOf, FieldsBytes, AddId, Width;
    var b, first := Encode(e), DefaultBytes(e[0], 16);
    var xs := ExceptionBytes(e[0].exceptions, 16);
    var rest := FirstField(e);
    assert b[0..|b|] == b;
    AtSplit(b, 0, first, xs + (['\0'] + rest));
    IdsSnoc([], first);
    NoIdsYet();
    assert [] + [first] == [first];
    WalkReads(b, 16, e[0].exceptions, rest, [first]);
  }

  lemma FirstField(e: Entry) returns (rest: Bytes)
    requires Last(e) > 0
    ensures Encode(e) == DefaultBytes(e[0], 16) + (ExceptionBytes(e[0].exceptions, 16) + (['\0'] + rest))
  {
    hide ExceptionBytes, DefaultBytes;
    rest := FieldsBytes(e, 1, Last(e));
    assert Width(0) == 16;
  }

  // ----- the second reader, over the second writer -----

  lemma {:induction false} AllKept(xs: seq<Exception>, width: nat)
    requires forall x :: x in xs ==> Written(x, width)
    ensures Kept(xs, width) == xs
    decreases |xs|
  {
    if xs != [] {
      assert xs[0] in xs && forall x :: x in xs[1..] ==> x in xs;
      AllKept(xs[1..], width);
    }
  }

  lemma ValuesFrom(xs: seq<Exception>, v: Bytes)
    ensures v in ValuesOf(xs) <==> xs != [] && (v == xs[0].value || v in ValuesOf(xs[1..]))
  {
    if xs != [] {
      assert ValuesOf(xs) == [xs[0].value] + ValuesOf(xs[1..]);
    }
  }

  lemma {:induction false} JoinAddsValue(xs: seq<Exception>, face: nat, value: Bytes, v: Bytes)
    requires face < MAX_FACES && forall x :: x in xs ==> |x.value| == |value|
    ensures v in ValuesOf(WithFace(xs, face, value)) <==> v in ValuesOf(xs) || v == value
    decreases |xs|
  {
    hide WithBit, ValuesOf;
    if xs == [] {
      ValuesFrom(WithFace(xs, face, value), v);
      ValuesFrom([], v);
    } else {
      assert xs[0] in xs && forall x :: x in xs[1..] ==> x in xs;
      ValuesFrom(xs, v);
      ValuesFrom(WithFace(xs, face, value), v);
      if xs[0].value <= value {
        assert xs[0].value == value;
      } else {
        JoinAddsValue(xs[1..], face, value, v);
      }
    }
  }

  /** The exceptions' values are the faces' own, the default left out. */
  lemma {:induction false} CollectedValues(values: seq<Bytes>, fallback: Bytes, n: nat, width: nat, v: Bytes)
    requires n <= |values| && n <= MAX_FACES && forall i :: 0 <= i < |values| ==> |values[i]| == width
    ensures v in ValuesOf(Collect(values, fallback, n)) <==> v != fallback && v in values[..n]
    decreases n
  {
    hide WithFace, ValuesOf, Covering;
    if n == 0 {
      assert ValuesOf([]) == [];
    } else {
      CollectedValues(values, fallback, n - 1, width, v);
      CollectCovers(values, fallback, n - 1, width, 0);
      assert values[..n] == values[..n - 1] + [values[n - 1]];
      if values[n - 1] != fallback {
        JoinAddsValue(Collect(values, fallback, n - 1), n - 1, values[n - 1], v);
      }
    }
  }

  /** The ids listed from an uploaded entry: the fallback's, then its exceptions', in order; so
      those of the fallback and of the first eight faces' textures, and no other. */
  lemma TextureIdsOfUpload(fallback: Bytes, textures: seq<Bytes>, colours: seq<Bytes>)
    requires |fallback| == 16 && (forall i :: 0 <= i < |textures| ==> |textures[i]| == 16)
    requires forall i :: 0 <= i < |colours| ==> |colours[i]| == 4
    ensures var raws := [fallback] + ValuesOf(Collect(textures, fallback, Few(|textures|)));
      AllSixteen(raws) && TextureIds(CutBytes(InstanceEntry(fallback, textures, colours), 0)) == IdsOf(raws)
    ensures forall id :: id in TextureIds(CutBytes(InstanceEntry(fallback, textures, colours), 0)) <==>
      id != L.NIL_TEXT && exists raw :: raw in [fallback] + textures[..Few(|textures|)] && |raw| == 16 && L.UuidText(raw) == id
  {
    hide WalkIds, ExceptionBytes, Kept, ValuesOf, IdsOf, AddId, Width, Collect, CutBytes, InstanceEntry, L.UuidText, Few;
    var e := InstanceEntry(fallback, textures, colours);
    var b, xs := CutBytes(e, 0), Collect(textures, fallback, Few(|textures|));
    InstanceFields(fallback, textures, colours);
    InstanceExceptions(fallback, textures, colours);
    CutStep(e, 0);
    var rest := CutBytes(e, 1);
    assert b == fallback + (ExceptionBytes(xs, 16) + (['\0'] + rest)) by {
      assert FieldBody(e[0], 16) == fallback + ExceptionBytes(xs, 16);
    }
    assert b[0..|b|] == b;
    AtSplit(b, 0, fallback, ExceptionBytes(xs, 16) + (['\0'] + rest));
    IdsSnoc([], fallback);
    NoIdsYet();
    assert [] + [fallback] == [fallback];
    WalkReads(b, 16, xs, rest, [fallback]);
    AllKept(xs, 16);
    var raws := [fallback] + ValuesOf(xs);
    IdsAreDistinct(raws);
    forall raw
      ensures raw in raws <==> raw in [fallback] + textures[..Few(|textures|)]
    {
      CollectedValues(textures, fallback, Few(|textures|), 16, raw);
    }
  }

  /** Too few bytes for a texture list nothing, and just enough list the one, unless it is nil. */
  lemma TextureIdsOfShort(b: Bytes)
    ensures |b| < 16 ==> TextureIds(b) == []
    ensures |b| == 16 ==> TextureIds(b) == if L.UuidText(b) == L.NIL_TEXT then [] else [L.UuidText(b)]
  {
    hide L.UuidText;
    if |b| == 16 {
      assert b[0..16] == b && Varint(b, 16, 0, 0) == None;
    }
  }

  lemma NoIdsYet()
    ensures IdsOf([]) == []
  {
  }

  /** No id twice, exactly the ids that are not nil, and each where it first occurs: a longer list
      only adds ids at the end. */
  lemma {:induction false} IdsAreDistinct(raws: seq<Bytes>)
    requires AllSixteen(raws)
    ensures forall i, j :: 0 <= i < j < |IdsOf(raws)| ==> IdsOf(raws)[i] != IdsOf(raws)[j]
    ensures forall id :: id in IdsOf(raws) <==> id != L.NIL_TEXT && exists raw :: raw in raws && |raw| == 16 && L.UuidText(raw) == id
    ensures raws != [] ==> IdsOf(raws[..|raws| - 1]) <= IdsOf(raws)
    decreases |raws|
  {
    hide L.UuidText;
    if raws != [] {
      var front, last := raws[..|raws| - 1], raws[|raws| - 1];
      IdsAreDistinct(front);
      assert raws == front + [last];
      assert forall raw :: raw in raws <==> raw in front || raw == last;
    }
  }
}
