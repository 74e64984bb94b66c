/** Editing one face is a functional update, and entries survive the wire. */
module TextureEntryLaws {
  import opened Prelude
  import opened TextureEntry

  // ----- bits -----

  lemma {:induction false} BitSet(mask: nat, face: nat, value: bool, other: nat)
    ensures Bit(SetBit(mask, face, value), other) <==> if other == face then value else Bit(mask, other)
    decreases face
  {
    if face == 0 {
      assert SetBit(mask, 0, value) / 2 == mask / 2;
    } else {
      assert SetBit(mask, face, value) / 2 == SetBit(mask / 2, face - 1, value);
      if other > 0 {
        BitSet(mask / 2, face - 1, value, other - 1);
      }
    }
  }

  lemma {:induction false} NoBits(face: nat)
    ensures !Bit(0, face)
    decreases face
  {
    if face > 0 {
      NoBits(face - 1);
    }
  }

  lemma {:induction false} SomeBit(mask: nat)
    requires mask > 0
    ensures exists face: nat :: Bit(mask, face)
    decreases mask
  {
    if mask % 2 == 1 {
      assert Bit(mask, 0);
    } else {
      SomeBit(mask / 2);
      var face: nat :| Bit(mask / 2, face);
      assert Bit(mask, face + 1);
    }
  }

  // ----- the bitfield -----

  function Groups(mask: nat): nat {
    |High(mask)|
  }

  /** The least number of more than `n` groups. */
  function Bound(n: nat): (b: nat)
    ensures b > 0
  {
    if n == 0 then 1 else 128 * Bound(n - 1)
  }

  lemma {:induction false} GroupsAtMost(k: nat, n: nat)
    requires k < Bound(n)
    ensures Groups(k) <= n
    decreases n
  {
    if k > 0 {
      GroupsAtMost(k / 128, n - 1);
    }
  }

  lemma FourGroups(mask: uint32)
    ensures Groups(mask / 128) <= 4
  {
    assert Bound(4) == 128 * (128 * (128 * (128 * Bound(0))));
    GroupsAtMost(mask / 128, 4);
  }

  /** One more group read: the mask grows by seven bits. */
  lemma GroupReads(b: Bytes, at: nat, group: nat, k: uint32, continues: bool)
    requires group < 5 && at < |b| && b[at] as int == (if continues then 128 else 0) + k % 128
    ensures ReadFaceBits(b, at, group, k / 128)
      == if continues then ReadFaceBits(b, at + 1, group + 1, k) else Some((k, at + 1))
  {
    var byte := b[at] as int;
    assert byte % 128 == k % 128 && k / 128 * 128 + k % 128 == k && k % TWO_32 == k;
  }

  lemma {:induction false} HighReads(b: Bytes, pos: nat, k: uint32)
    requires At(b, pos, High(k)) && Groups(k) <= 4
    ensures ReadFaceBits(b, pos, 0, 0) == ReadFaceBits(b, pos + |High(k)|, Groups(k), k)
    decreases k
  {
    hide ReadFaceBits;
    if k > 0 {
      var c: Byte := (128 + k % 128) as char;
      AtSplit(b, pos, High(k / 128), [c]);
      HighReads(b, pos, k / 128);
      var at := pos + |High(k / 128)|;
      assert b[at] == b[at..at + 1][0] == c;
      GroupReads(b, at, Groups(k / 128), k, true);
    }
  }

  lemma BitsReadBack(b: Bytes, pos: nat, mask: uint32)
    requires At(b, pos, FaceBits(mask))
    ensures ReadFaceBits(b, pos, 0, 0) == Some((mask, pos + |FaceBits(mask)|))
  {
    hide ReadFaceBits, High;
    var c: Byte := (mask % 128) as char;
    AtSplit(b, pos, High(mask / 128), [c]);
    FourGroups(mask);
    HighReads(b, pos, mask / 128);
    var at := pos + |High(mask / 128)|;
    assert b[at] == b[at..at + 1][0] == c;
    GroupReads(b, at, Groups(mask / 128), mask, false);
  }

  /** A bitfield for some face never starts with the zero byte that ends the list. */
  lemma {:induction false} NeverTerminator(mask: nat)
    requires mask > 0
    ensures FaceBits(mask)[0] != '\0'
  {
    if mask / 128 > 0 {
      HighStarts(mask / 128);
    }
  }

  lemma {:induction false} HighStarts(k: nat)
    requires k > 0
    ensures High(k) != [] && High(k)[0] >= 128 as char
    decreases k
  {
    if k / 128 > 0 {
      HighStarts(k / 128);
    }
  }

  // ----- reading what was written -----

  function Kept(xs: seq<Exception>, width: nat): seq<Exception> {
    if xs == [] then [] else (if Written(xs[0], width) then [xs[0]] else []) + Kept(xs[1..], width)
  }

  /** Exceptions read back up to their terminator, or up to the end of the stream without one. */
  lemma {:induction false} ExceptionsReadBack(b: Bytes, pos: nat, xs: seq<Exception>, width: nat, end: Bytes)
    requires At(b, pos, ExceptionBytes(xs, width) + end)
    requires end == ['\0'] || (end == [] && pos + |ExceptionBytes(xs, width)| == |b|)
    ensures ReadExceptions(b, pos, width) == Some((Kept(xs, width), pos + |ExceptionBytes(xs, width)| + |end|))
    decreases |xs|
  {
    hide ReadFaceBits, FaceBits, ReadExceptions;
    if xs == [] {
      assert ExceptionBytes(xs, width) + end == end;
      ListEnds(b, pos, width, end);
    } else if !Written(xs[0], width) {
      assert ExceptionBytes(xs, width) == ExceptionBytes(xs[1..], width) && Kept(xs, width) == Kept(xs[1..], width);
      ExceptionsReadBack(b, pos, xs[1..], width, end);
    } else {
      OneReadsBack(b, pos, xs, width, end);
      ExceptionsReadBack(b, pos + |FaceBits(xs[0].mask)| + width, xs[1..], width, end);
    }
  }

  lemma ListEnds(b: Bytes, pos: nat, width: nat, end: Bytes)
    requires At(b, pos, end) && (end == ['\0'] || (end == [] && pos == |b|))
    ensures ReadExceptions(b, pos, width) == Some(([], pos + |end|))
  {
    if end != [] {
      assert b[pos] == b[pos..pos + 1][0];
    }
  }

  lemma OneReadsBack(b: Bytes, pos: nat, xs: seq<Exception>, width: nat, end: Bytes)
    requires xs != [] && Written(xs[0], width) && At(b, pos, ExceptionBytes(xs, width) + end)
    ensures var after := pos + |FaceBits(xs[0].mask)|;
      && pos < |b| && b[pos] != '\0' && ReadFaceBits(b, pos, 0, 0) == Some((xs[0].mask, after))
      && after + width <= |b| && b[after..after + width] == xs[0].value
      && At(b, after + width, ExceptionBytes(xs[1..], width) + end)
      && |ExceptionBytes(xs, width)| == |FaceBits(xs[0].mask)| + width + |ExceptionBytes(xs[1..], width)|
    ensures var rest := ReadExceptions(b, pos + |FaceBits(xs[0].mask)| + width, width);
      ReadExceptions(b, pos, width) == if rest.Some? then Some(([xs[0]] + rest.value.0, rest.value.1)) else None
  {
    hide FaceBits, ReadFaceBits, ReadExceptions;
    var bits, rest := FaceBits(xs[0].mask), ExceptionBytes(xs[1..], width);
    assert ExceptionBytes(xs, width) + end == bits + (xs[0].value + (rest + end));
    AtSplit(b, pos, bits, xs[0].value + (rest + end));
    AtSplit(b, pos + |bits|, xs[0].value, rest + end);
    BitsReadBack(b, pos, xs[0].mask);
    NeverTerminator(xs[0].mask);
    assert b[pos] == b[pos..pos + |bits|][0];
    ExceptionStep(b, pos, xs[0], pos + |bits|, width);
  }

  lemma ExceptionStep(b: Bytes, pos: nat, x: Exception, after: nat, width: nat)
    requires pos < |b| && b[pos] != '\0' && ReadFaceBits(b, pos, 0, 0) == Some((x.mask, after))
    requires after + width <= |b| && b[after..after + width] == x.value
    ensures var rest := ReadExceptions(b, after + width, width);
      ReadExceptions(b, pos, width) == if rest.Some? then Some(([x] + rest.value.0, rest.value.1)) else None
  {
    hide ReadFaceBits;
  }

  /** What a field reads back as after it was written. */
  function NormalField(v: FieldValues, f: nat, last: nat): FieldValues
    requires f < 11
  {
    if f >= last then Absent(f)
    else FieldValues(DefaultBytes(v, Width(f)), Kept(v.exceptions, Width(f)), true)
  }

  function NormalFields(e: Entry, f: nat, last: nat): seq<FieldValues>
    requires f <= 11
  {
    seq(11 - f, i requires 0 <= i < 11 - f => NormalField(e[f + i], f + i, last))
  }

  lemma NormalFieldsFrom(e: Entry, f: nat, last: nat)
    requires f < 11
    ensures NormalFields(e, f, last) == [NormalField(e[f], f, last)] + NormalFields(e, f + 1, last)
    ensures NormalFields(e, 11, last) == []
  {
  }

  /** The entry that comes back from the wire: fields up to the last with content are present. */
  function Normal(e: Entry): Entry {
    NormalFields(e, 0, Last(e))
  }

  lemma {:induction false} FieldsReadBack(b: Bytes, pos: nat, e: Entry, f: nat, last: nat)
    requires f <= 11 && last <= 11
    requires if f < last then At(b, pos, FieldsBytes(e, f, last)) && pos + |FieldsBytes(e, f, last)| == |b| else pos == |b|
    ensures ReadFields(b, pos, f) == Some(NormalFields(e, f, last))
    decreases 11 - f
  {
    hide ReadExceptions, ExceptionBytes, DefaultBytes, Kept, Width, Zeros, NormalFields;
    NormalFieldsFrom(e, if f < 11 then f else 0, last);
    if f < last {
      var w, rest := Width(f), FieldsBytes(e, f + 1, last);
      FieldReadsBack(b, pos, e[f], w, rest);
      FieldsReadBack(b, pos + |FieldBody(e[f], w)| + 1, e, f + 1, last);
    } else if f < 11 {
      FieldsReadBack(b, pos, e, f + 1, last);
    }
  }

  lemma FieldReadsBack(b: Bytes, pos: nat, v: FieldValues, w: nat, rest: Bytes)
    requires At(b, pos, FieldBody(v, w) + (['\0'] + rest))
    ensures pos + w <= |b| && b[pos..pos + w] == DefaultBytes(v, w)
    ensures ReadExceptions(b, pos + w, w) == Some((Kept(v.exceptions, w), pos + |FieldBody(v, w)| + 1))
    ensures At(b, pos + |FieldBody(v, w)| + 1, rest)
  {
    hide ReadExceptions, ExceptionBytes, DefaultBytes, Kept;
    var xs := ExceptionBytes(v.exceptions, w);
    assert FieldBody(v, w) + (['\0'] + rest) == DefaultBytes(v, w) + ((xs + ['\0']) + rest);
    AtSplit(b, pos, DefaultBytes(v, w), (xs + ['\0']) + rest);
    AtSplit(b, pos + w, xs + ['\0'], rest);
    ExceptionsReadBack(b, pos + w, v.exceptions, w, ['\0']);
  }

  /** An entry a round trip leaves as it is: present fields first, every value of its field's
      width, every exception for some face, and nothing after the present fields. */
  predicate WellFormed(e: Entry) {
    forall f: nat :: f < 11 ==> WellFormedField(e[f], f, Last(e))
  }

  predicate WellFormedField(v: FieldValues, f: nat, last: nat)
    requires f < 11
  {
    if f < last then v.present && |v.fallback| == Width(f) && forall x :: x in v.exceptions ==> Written(x, Width(f))
    else v == Absent(f)
  }

  lemma {:induction false} KeptAll(xs: seq<Exception>, width: nat)
    ensures Kept(xs, width) == xs <==> forall x :: x in xs ==> Written(x, width)
    ensures forall x :: x in Kept(xs, width) ==> Written(x, width)
    decreases |xs|
  {
    if xs != [] {
      KeptAll(xs[1..], width);
      assert forall x :: x in xs <==> x == xs[0] || x in xs[1..];
      if Written(xs[0], width) {
        assert Kept(xs, width)[1..] == Kept(xs[1..], width);
        assert xs == [xs[0]] + xs[1..];
      }
    }
  }

  /** Writing and reading back normalizes an entry, and is the identity exactly on well-formed ones. */
  lemma EncodeThenParse(e: Entry)
    ensures Parse(Encode(e)) == Some(Normal(e))
    ensures Normal(e) == e <==> WellFormed(e)
  {
    hide Width, Zeros;
    var b, last := Encode(e), Last(e);
    assert b[0..|b|] == b;
    FieldsReadBack(b, 0, e, 0, last);
    forall f: nat | f < 11
      ensures NormalField(e[f], f, last) == e[f] <==> WellFormedField(e[f], f, last)
    {
      KeptAll(e[f].exceptions, Width(f));
    }
    assert Normal(e) == e <==> forall f: nat :: f < 11 ==> NormalField(e[f], f, last) == e[f];
  }

  /** Bytes too few for a field are not the end: a narrower field after it may still take them. */
  lemma ShortStreamSkipsFields(x: Byte, y: Byte)
    ensures var e := Parse([x, y]);
      e.Some? && !e.value[0].present && !e.value[3].present && e.value[4].present && e.value[4].fallback == [x, y]
  {
    var b := [x, y];
    assert b[0..2] == b;
    assert ReadFields(b, 2, 11) == Some([]);
    assert ReadFields(b, 2, 10).Some? && ReadFields(b, 2, 9).Some? && ReadFields(b, 2, 8).Some?;
    assert ReadFields(b, 2, 7).Some? && ReadFields(b, 2, 6).Some? && ReadFields(b, 2, 5).Some?;
    assert ReadExceptions(b, 2, 2) == Some(([], 2));
    var e4 := ReadFields(b, 0, 4);
    assert e4.Some? && e4.value[0] == FieldValues(b, [], true);
    assert ReadFields(b, 0, 3) == Some([Absent(3)] + e4.value);
    assert ReadFields(b, 0, 2) == Some([Absent(2)] + ([Absent(3)] + e4.value));
    assert ReadFields(b, 0, 1) == Some([Absent(1)] + ([Absent(2)] + ([Absent(3)] + e4.value)));
  }

  // ----- editing one face -----

  /** The field's values all have its width. */
  predicate Sized(v: FieldValues, width: nat) {
    |v.fallback| == width && forall x :: x in v.exceptions ==> |x.value| == width
  }

  lemma {:induction false} ClearedCovers(xs: seq<Exception>, face: nat, other: nat)
    requires face < MAX_FACES
    ensures Covering(WithoutFace(xs, face), other) == if other == face then None else Covering(xs, other)
    decreases |xs|
  {
    if xs != [] {
      var front, x := xs[..|xs| - 1], xs[|xs| - 1];
      WithoutSnoc(front, x, face);
      assert xs == front + [x];
      var ys := WithoutFace(xs, face);
      assert ys[..|ys| - 1] == WithoutFace(front, face) && ys[|ys| - 1] == x.(mask := WithBit(x.mask, face, false));
      BitSet(x.mask, face, false, other);
      ClearedCovers(front, face, other);
    }
  }

  lemma {:induction false} WithoutSnoc(front: seq<Exception>, x: Exception, face: nat)
    requires face < MAX_FACES
    ensures WithoutFace(front + [x], face) == WithoutFace(front, face) + [x.(mask := WithBit(x.mask, face, false))]
    decreases |front|
  {
    if front != [] {
      assert (front + [x])[1..] == front[1..] + [x] && (front + [x])[0] == front[0];
      WithoutSnoc(front[1..], x, face);
    } else {
      assert (front + [x])[1..] == [];
    }
  }

  /** No exception covers the face. */
  predicate Uncovered(xs: seq<Exception>, face: nat) {
    forall x :: x in xs ==> !Bit(x.mask, face)
  }

  lemma {:induction false} ClearedUncovers(xs: seq<Exception>, face: nat)
    requires face < MAX_FACES
    ensures Uncovered(WithoutFace(xs, face), face)
    decreases |xs|
  {
    if xs != [] {
      BitSet(xs[0].mask, face, false, face);
      ClearedUncovers(xs[1..], face);
    }
  }

  /** Seen from the front: what a cover says depends on the rest first. */
  lemma {:induction false} CoveringFromFront(x: Exception, rest: seq<Exception>, face: nat)
    ensures Covering([x] + rest, face)
      == if Covering(rest, face).Some? then Covering(rest, face) else if Bit(x.mask, face) then Some(x.value) else None
    decreases |rest|
  {
    var xs := [x] + rest;
    if rest == [] {
      assert xs[..0] == [];
    } else {
      assert xs[..|xs| - 1] == [x] + rest[..|rest| - 1] && xs[|xs| - 1] == rest[|rest| - 1];
      CoveringFromFront(x, rest[..|rest| - 1], face);
    }
  }

  lemma {:induction false} UncoveredIsNone(xs: seq<Exception>, face: nat)
    requires Uncovered(xs, face)
    ensures Covering(xs, face) == None
    decreases |xs|
  {
    if xs != [] {
      UncoveredIsNone(xs[1..], face);
      assert xs == [xs[0]] + xs[1..];
      CoveringFromFront(xs[0], xs[1..], face);
    }
  }

  lemma {:induction false} JoinedCovers(xs: seq<Exception>, face: nat, value: Bytes, other: nat)
    requires face < MAX_FACES && Uncovered(xs, face) && forall x :: x in xs ==> |x.value| == |value|
    ensures Covering(WithFace(xs, face, value), other) == if other == face then Some(value) else Covering(xs, other)
    decreases |xs|
  {
    hide Bit, Covering;
    if xs == [] {
      var x := Exception(WithBit(0, face, true), value);
      BitSet(0, face, true, other);
      NoBits(other);
      CoveringFromFront(x, [], other);
      assert [x] + [] == [x];
      UncoveredIsNone([], other);
    } else {
      var x, rest := xs[0], xs[1..];
      assert xs == [x] + rest;
      CoveringFromFront(x, rest, other);
      assert forall y :: y in rest ==> y in xs;
      assert x in xs;
      if x.value <= value {
        assert x.value == value;
        BitSet(x.mask, face, true, other);
        CoveringFromFront(x.(mask := WithBit(x.mask, face, true)), rest, other);
        UncoveredIsNone(rest, face);
      } else {
        JoinedCovers(rest, face, value, other);
        CoveringFromFront(x, WithFace(rest, face, value), other);
      }
    }
  }

  lemma {:induction false} NonZeroCovers(xs: seq<Exception>, face: nat)
    ensures Covering(NonZero(xs), face) == Covering(xs, face)
    decreases |xs|
  {
    hide Bit, Covering;
    if xs != [] {
      NonZeroCovers(xs[1..], face);
      assert xs == [xs[0]] + xs[1..];
      CoveringFromFront(xs[0], xs[1..], face);
      CoveringFromFront(xs[0], NonZero(xs[1..]), face);
      NoBits(face);
      assert [] + NonZero(xs[1..]) == NonZero(xs[1..]);
    }
  }

  lemma {:induction false} ClearedValues(xs: seq<Exception>, face: nat)
    requires face < MAX_FACES
    ensures forall i :: 0 <= i < |xs| ==> WithoutFace(xs, face)[i].value == xs[i].value
    decreases |xs|
  {
    if xs != [] {
      ClearedValues(xs[1..], face);
    }
  }

  /** What a face of the edited field says: its own value, or what an exception or the default says. */
  lemma EditedFace(e: Entry, f: nat, face: nat, value: Bytes, other: nat)
    requires f < 11 && face < MAX_FACES && |value| == Width(f)
    requires forall x :: x in e[f].exceptions ==> |x.value| == Width(f)
    ensures FaceValue(SetFace(e, f, face, value), f, other) ==
      if other == face then value
      else if other < MAX_FACES && Covering(e[f].exceptions, other).Some? then Covering(e[f].exceptions, other).value
      else DefaultBytes(e[f], Width(f))
  {
    hide Bit, Covering, Width, NonZero, DefaultBytes;
    var xs := e[f].exceptions;
    var cleared := WithoutFace(xs, face);
    ClearedCovers(xs, face, other);
    ClearedUncovers(xs, face);
    ClearedValues(xs, face);
    forall y | y in cleared
      ensures |y.value| == |value|
    {
      var i :| 0 <= i < |cleared| && cleared[i] == y;
      assert xs[i] in xs;
    }
    if value == DefaultBytes(e[f], Width(f)) {
      NonZeroCovers(cleared, other);
    } else {
      JoinedCovers(cleared, face, value, other);
      NonZeroCovers(WithFace(cleared, face, value), other);
    }
  }

  /** What a face reads of a field outlives the field's default being made to fit: the field has
      content, and an exception covers the face or the default already has the field's width. */
  predicate KeepsReading(v: FieldValues, width: nat, face: nat) {
    HasContent(v) && (|v.fallback| == width || (face < MAX_FACES && Covering(v.exceptions, face).Some?))
  }

  /** Setting one face of one field: that face says the value; every other face and field says what
      it said, exactly unless it is another face of a field that was absent, or whose default was
      not of the field's width, and no exception covers it. */
  lemma SetFaceIsFunctionalUpdate(e: Entry, f: nat, face: nat, value: Bytes, g: nat, other: nat)
    requires f < 11 && g < 11 && face < MAX_FACES && |value| == Width(f)
    requires forall x :: x in e[f].exceptions ==> |x.value| == Width(f)
    ensures FaceValue(SetFace(e, f, face, value), g, other) == (if g == f && other == face then value else FaceValue(e, g, other))
      <==> g != f || other == face || KeepsReading(e[f], Width(f), other)
  {
    hide Covering, Width, Zeros;
    EditedFace(e, f, face, value, other);
    if g != f {
      hide SetFace, FaceValue;
      OtherFields(e, f, face, value, g);
      SameField(SetFace(e, f, face, value), e, g, other);
    } else {
      hide SetFace;
      NothingCovers(other);
    }
  }

  lemma OtherFields(e: Entry, f: nat, face: nat, value: Bytes, g: nat)
    requires f < 11 && g < 11 && g != f
    ensures SetFace(e, f, face, value)[g] == e[g]
  {
    hide DefaultBytes, WithoutFace, WithFace, NonZero, Width;
  }

  lemma SameField(d: Entry, e: Entry, g: nat, other: nat)
    requires g < 11 && d[g] == e[g]
    ensures FaceValue(d, g, other) == FaceValue(e, g, other)
  {
    hide Covering;
  }

  lemma NothingCovers(face: nat)
    ensures Covering([], face) == None
  {
  }

  // ----- tidiness -----

  /** Nothing redundant: every exception is for some face, none repeats the default, and no two
      have one value. */
  predicate Tidy(v: FieldValues) {
    && (forall x :: x in v.exceptions ==> x.mask != 0 && x.value != v.fallback)
    && NoRepeats(v.exceptions)
  }

  predicate NoRepeats(xs: seq<Exception>) {
    forall i, j :: 0 <= i < j < |xs| ==> xs[i].value != xs[j].value
  }

  lemma {:induction false} NonZeroKeeps(xs: seq<Exception>)
    requires NoRepeats(xs)
    ensures NoRepeats(NonZero(xs)) && forall x :: x in NonZero(xs) ==> x in xs && x.mask != 0
    decreases |xs|
  {
    if xs != [] {
      var rest := NonZero(xs[1..]);
      NonZeroKeeps(xs[1..]);
      forall j | 0 <= j < |rest|
        ensures rest[j].value != xs[0].value
      {
        assert rest[j] in xs[1..];
        var k :| 0 <= k < |xs[1..]| && xs[1..][k] == rest[j];
        assert xs[k + 1] == rest[j];
      }
    }
  }

  lemma {:induction false} JoinKeeps(xs: seq<Exception>, face: nat, value: Bytes)
    requires face < MAX_FACES && NoRepeats(xs) && forall x :: x in xs ==> |x.value| == |value|
    ensures NoRepeats(WithFace(xs, face, value))
    ensures forall x :: x in WithFace(xs, face, value) ==> x.value == value || exists y :: y in xs && y.value == x.value
    decreases |xs|
  {
    hide SetBit, WithBit;
    if xs != [] {
      assert forall y :: y in xs[1..] ==> y in xs;
      if !(xs[0].value <= value) {
        var rest := WithFace(xs[1..], face, value);
        JoinKeeps(xs[1..], face, value);
        forall j | 0 <= j < |rest|
          ensures rest[j].value != xs[0].value
        {
          assert rest[j] in rest;
          if rest[j].value != value {
            var y :| y in xs[1..] && y.value == rest[j].value;
            var k :| 0 <= k < |xs[1..]| && xs[1..][k] == y;
            assert xs[k + 1] == y;
          }
        }
      }
    }
  }

  /** Edits never accumulate exceptions that say nothing. */
  lemma SetFaceStaysTidy(e: Entry, f: nat, face: nat, value: Bytes)
    requires f < 11 && Sized(e[f], Width(f)) && Tidy(e[f])
    ensures Tidy(SetFace(e, f, face, value)[f]) && Sized(SetFace(e, f, face, value)[f], Width(f))
  {
    hide Bit, Width;
    if face < MAX_FACES && |value| == Width(f) {
      var xs := e[f].exceptions;
      var cleared := WithoutFace(xs, face);
      ClearedValues(xs, face);
      assert NoRepeats(cleared);
      forall y | y in cleared
        ensures exists x :: x in xs && x.value == y.value
      {
        var i :| 0 <= i < |cleared| && cleared[i] == y;
        assert xs[i] in xs;
      }
      if value == e[f].fallback {
        NonZeroKeeps(cleared);
      } else {
        JoinKeeps(cleared, face, value);
        NonZeroKeeps(WithFace(cleared, face, value));
      }
    }
  }

  // ----- edits and the wire -----

  /** Only exceptions of another width are lost to a face. */
  lemma {:induction false} KeptCovers(xs: seq<Exception>, width: nat, face: nat)
    ensures var all, kept := Covering(xs, face), Covering(Kept(xs, width), face);
      && (kept.Some? ==> |kept.value| == width)
      && (all == None || |all.value| == width ==> kept == all)
    decreases |xs|
  {
    hide Bit, Covering;
    if xs == [] {
      NothingCovers(face);
    } else {
      KeptCovers(xs[1..], width, face);
      assert xs == [xs[0]] + xs[1..];
      CoveringFromFront(xs[0], xs[1..], face);
      CoveringFromFront(xs[0], Kept(xs[1..], width), face);
      NoBits(face);
      assert [] + Kept(xs[1..], width) == Kept(xs[1..], width);
    }
  }

  /** The wire keeps what a face says of a field exactly when the field is past the last with
      content, or what the face says has the field's width: not when it says nothing, and not when
      its exception or the default is of another width. */
  lemma FacesSurviveTheWire(e: Entry, f: nat, face: nat)
    requires f < 11
    ensures Parse(Encode(e)).Some?
    ensures FaceValue(Parse(Encode(e)).value, f, face) == FaceValue(e, f, face)
      <==> f >= Last(e) || |FaceValue(e, f, face)| == Width(f)
  {
    hide Bit, Covering, Width, Encode, Parse, Zeros, NormalFields;
    EncodeThenParse(e);
    KeptCovers(e[f].exceptions, Width(f), face);
    NothingCovers(face);
    NormalAt(e, f);
  }

  lemma NormalAt(e: Entry, f: nat)
    requires f < 11
    ensures Normal(e)[f] == NormalField(e[f], f, Last(e))
  {
    hide NormalField, Last;
  }
}
