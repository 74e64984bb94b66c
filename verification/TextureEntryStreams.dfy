/** Texture entries that end early, or are spelled oddly. */
module TextureEntryStreams {
  import opened Prelude
  import opened TextureEntry
  import opened TextureEntryLaws
  import opened TextureEntryUsers

  // ----- the first short field -----

  /** The first field the bytes run short for, and where it would have begun. */
  function FirstShort(b: Bytes, pos: nat, f: nat): (nat, nat)
    requires f <= 11
    decreases 11 - f
  {
    if f == 11 || pos + Width(f) > |b| then (f, pos)
    else
      match ReadExceptions(b, pos + Width(f), Width(f))
      case None => (f, pos)
      case Some((_, end)) => FirstShort(b, end, f + 1)
  }

  /** Nothing left over at the first short field, or no field after it. */
  predicate EndsCleanly(b: Bytes, pos: nat, f: nat)
    requires f <= 11
  {
    FirstShort(b, pos, f).1 == |b| || FirstShort(b, pos, f).0 >= 10
  }

  /** No field is present after one that is not. */
  predicate PresentFirst(vs: seq<FieldValues>) {
    forall i, j :: 0 <= i < j < |vs| && vs[j].present ==> vs[i].present
  }

  predicate AbsentFrom(vs: seq<FieldValues>, n: nat) {
    forall i :: n <= i < |vs| ==> !vs[i].present
  }

  predicate PresentUpTo(vs: seq<FieldValues>, n: nat) {
    n <= |vs| && forall i :: 0 <= i < n ==> vs[i].present
  }

  lemma {:induction false} NothingLeft(b: Bytes, f: nat)
    requires f <= 11
    ensures ReadFields(b, |b|, f).Some? && AbsentFrom(ReadFields(b, |b|, f).value, 0)
    decreases 11 - f
  {
    hide Width;
    if f < 11 {
      NothingLeft(b, f + 1);
    }
  }

  /** A byte left over is taken by the first field that is narrow enough, and some field is. */
  lemma {:induction false} SomethingLeft(b: Bytes, pos: nat, f: nat)
    requires f < 10 && pos < |b| && ReadFields(b, pos, f).Some?
    ensures !AbsentFrom(ReadFields(b, pos, f).value, 0)
    decreases 10 - f
  {
    hide ReadExceptions;
    var vs := ReadFields(b, pos, f).value;
    if pos + Width(f) > |b| {
      assert f < 7;
      SomethingLeft(b, pos, f + 1);
      assert vs[1..] == ReadFields(b, pos, f + 1).value;
      var i :| 0 <= i < |vs| - 1 && vs[1..][i].present;
      assert vs[i + 1].present;
    } else {
      assert vs[0].present;
    }
  }

  /** A field that is not short: it is present, and the rest is what is read after it. */
  lemma FieldThenRest(b: Bytes, pos: nat, f: nat) returns (end: nat)
    requires f < 11 && pos + Width(f) <= |b| && ReadFields(b, pos, f).Some?
    ensures pos < end <= |b| && ReadFields(b, end, f + 1).Some?
    ensures var vs := ReadFields(b, pos, f).value; vs[0].present && vs[1..] == ReadFields(b, end, f + 1).value
    ensures FirstShort(b, pos, f) == FirstShort(b, end, f + 1) && EndsCleanly(b, pos, f) == EndsCleanly(b, end, f + 1)
  {
    hide ReadExceptions, Width;
    end := ReadExceptions(b, pos + Width(f), Width(f)).value.1;
  }

  lemma {:induction false} ShortFrom(b: Bytes, pos: nat, f: nat)
    requires f <= 11 && pos <= |b| && ReadFields(b, pos, f).Some?
    ensures var vs, (short, at) := ReadFields(b, pos, f).value, FirstShort(b, pos, f);
      && f <= short <= 11 && at <= |b| && PresentUpTo(vs, short - f) && (short < 11 ==> !vs[short - f].present)
      && (AbsentFrom(vs, short - f) <==> EndsCleanly(b, pos, f))
    decreases 11 - f
  {
    hide ReadFields, Width, AbsentFrom, PresentUpTo, FirstShort, EndsCleanly;
    if f < 11 && pos + Width(f) <= |b| {
      var end := FieldThenRest(b, pos, f);
      ShortFrom(b, end, f + 1);
      OneMorePresent(ReadFields(b, pos, f).value, FirstShort(b, pos, f).0 - f);
    } else {
      ShortHere(b, pos, f);
    }
  }

  lemma ShortHere(b: Bytes, pos: nat, f: nat)
    requires f <= 11 && pos <= |b| && ReadFields(b, pos, f).Some? && (f < 11 ==> pos + Width(f) > |b|)
    ensures f < 11 ==> !ReadFields(b, pos, f).value[0].present
    ensures PresentUpTo(ReadFields(b, pos, f).value, 0)
    ensures FirstShort(b, pos, f) == (f, pos)
    ensures AbsentFrom(ReadFields(b, pos, f).value, 0) <==> EndsCleanly(b, pos, f)
  {
    hide Width;
    if pos == |b| {
      NothingLeft(b, f);
    } else if f < 10 {
      SomethingLeft(b, pos, f);
    }
  }

  lemma OneMorePresent(vs: seq<FieldValues>, n: nat)
    requires vs != [] && vs[0].present && 0 < n <= |vs|
    ensures PresentUpTo(vs, n) <==> PresentUpTo(vs[1..], n - 1)
    ensures AbsentFrom(vs, n) <==> AbsentFrom(vs[1..], n - 1)
    ensures n < |vs| ==> vs[n] == vs[1..][n - 1]
  {
    var rest := vs[1..];
    assert forall i :: 0 < i < |vs| ==> vs[i] == rest[i - 1];
    assert forall i :: 0 <= i < |rest| ==> rest[i] == vs[i + 1];
  }

  /** Every field before the first short one is present. Everything from there on reads as absent,
      so that the present fields come first, exactly when no byte is left over there or only the
      last field is short. */
  lemma AbsentFromTheFirstShort(b: Bytes)
    requires Parse(b).Some?
    ensures var e, short := Parse(b).value, FirstShort(b, 0, 0).0;
      && PresentUpTo(e, short)
      && (AbsentFrom(e, short) <==> EndsCleanly(b, 0, 0))
      && (PresentFirst(e) <==> EndsCleanly(b, 0, 0))
  {
    hide ReadFields, FirstShort, EndsCleanly, Width;
    ShortFrom(b, 0, 0);
    var e, short := Parse(b).value, FirstShort(b, 0, 0).0;
    if PresentFirst(e) && !AbsentFrom(e, short) {
      var j :| short <= j < |e| && e[j].present;
      assert false;
    }
  }

  // ----- streams spelled as the writer spells them -----

  /** A bitfield that does not begin with an empty group, and whose fifth group loses no bit. */
  predicate Shortest(b: Bytes, pos: nat, after: nat) {
    pos < |b| && b[pos] != 128 as char && (after == pos + 5 ==> b[pos] < 144 as char)
  }

  /** The top group of a mask, and what it is worth. */
  lemma {:induction false} TopGroup(k: nat)
    requires k > 0
    ensures High(k) != [] && High(k)[0] > 128 as char
    ensures (High(k)[0] as int - 128) * Bound(Groups(k) - 1) <= k
    decreases k
  {
    var low := k / 128;
    if low > 0 {
      TopGroup(low);
      var top, b := High(low)[0] as int - 128, Bound(Groups(low) - 1);
      assert Bound(Groups(k) - 1) == 128 * b;
      assert top * (128 * b) == 128 * (top * b);
    } else {
      assert Bound(0) == 1;
    }
  }

  lemma FewestGroups(mask: uint32)
    ensures FaceBits(mask)[0] != 128 as char
    ensures |FaceBits(mask)| == 5 ==> FaceBits(mask)[0] < 144 as char
  {
    var k := mask / 128;
    if k > 0 {
      TopGroup(k);
      assert Bound(3) == 128 * (128 * (128 * Bound(0)));
    }
  }

  /** Groups read so far spell the mask read so far, and no later group will push a bit out. */
  ghost predicate SpellsSoFar(b: Bytes, start: nat, pos: nat, mask: nat) {
    && start <= pos <= |b| && pos - start < 5 && b[start..pos] == High(mask)
    && (pos > start ==> 128 < b[start] as int <= 255 && 0 < mask < (b[start] as int - 127) * Bound(pos - start - 1))
  }

  lemma {:induction false} GroupsSpell(b: Bytes, start: nat, pos: nat, mask: uint32, m: uint32, after: nat)
    requires SpellsSoFar(b, start, pos, mask) && Shortest(b, start, after)
    requires ReadFaceBits(b, pos, pos - start, mask) == Some((m, after))
    ensures b[start..after] == FaceBits(m)
    decreases 5 - (pos - start)
  {
    hide ReadFaceBits, High;
    GroupRead(b, pos, pos - start, mask);
    var byte := b[pos] as int;
    NoBitLost(b, start, pos, mask, after);
    var next := mask * 128 + byte % 128;
    assert next / 128 == mask && next % 128 == byte % 128;
    assert b[start..pos + 1] == b[start..pos] + [b[pos]];
    if byte >= 128 {
      HighGrows(next, b[pos], pos > start);
      GrowsSoFar(b, start, pos, mask, next);
      GroupsSpell(b, start, pos + 1, next, m, after);
    }
  }

  lemma GroupRead(b: Bytes, pos: nat, group: nat, mask: uint32)
    requires group <= 5 && ReadFaceBits(b, pos, group, mask).Some?
    ensures group < 5 && pos < |b|
    ensures var byte := b[pos] as int; var next := (mask * 128 + byte % 128) % TWO_32;
      ReadFaceBits(b, pos, group, mask) == if byte < 128 then Some((next, pos + 1)) else ReadFaceBits(b, pos + 1, group + 1, next)
    ensures group == 4 ==> b[pos] as int < 128
    ensures ReadFaceBits(b, pos, group, mask).value.1 <= pos + 5 - group
  {
    ReadAtMostFive(b, pos, group, mask);
  }

  lemma {:induction false} ReadAtMostFive(b: Bytes, pos: nat, group: nat, mask: uint32)
    requires group <= 5 && ReadFaceBits(b, pos, group, mask).Some?
    ensures pos < ReadFaceBits(b, pos, group, mask).value.1 <= pos + 5 - group
    decreases 5 - group
  {
    var byte := b[pos] as int;
    if byte >= 128 {
      ReadAtMostFive(b, pos + 1, group + 1, (mask * 128 + byte % 128) % TWO_32);
    }
  }

  lemma HighGrows(next: nat, c: Byte, later: bool)
    requires c as int == 128 + next % 128 && next > 0
    ensures High(next) == High(next / 128) + [c]
  {
  }

  /** The next group fits in thirty-two bits. */
  lemma NoBitLost(b: Bytes, start: nat, pos: nat, mask: uint32, after: nat)
    requires SpellsSoFar(b, start, pos, mask) && Shortest(b, start, after)
    requires pos < |b| && (pos == start + 4 ==> after == start + 5)
    ensures mask * 128 + 127 < TWO_32
  {
    if pos > start {
      var first := b[start] as int - 127;
      assert Bound(1) == 128 && Bound(2) == 128 * 128 && Bound(3) == 128 * 128 * 128;
    }
  }

  lemma GrowsSoFar(b: Bytes, start: nat, pos: nat, mask: nat, next: nat)
    requires SpellsSoFar(b, start, pos, mask) && pos < |b| && b[pos] as int >= 128 && pos - start < 4
    requires next == mask * 128 + b[pos] as int % 128 && b[start..pos + 1] == High(next) && (pos == start ==> b[pos] != 128 as char)
    ensures SpellsSoFar(b, start, pos + 1, next)
  {
    if pos > start {
      var first, bound := b[start] as int - 127, Bound(pos - start - 1);
      SevenMoreBits(mask, b[pos] as int % 128, first, bound);
      assert Bound(pos - start) == 128 * bound;
    } else {
      NoGroups(mask);
    }
  }

  lemma SevenMoreBits(mask: nat, low: nat, first: nat, bound: nat)
    requires mask < first * bound && low < 128
    ensures mask * 128 + low < first * (128 * bound)
  {
    assert first * (128 * bound) == 128 * (first * bound);
  }

  lemma NoGroups(mask: nat)
    ensures High(mask) == [] <==> mask == 0
    ensures Bound(0) == 1
  {
    if mask > 0 {
      HighStarts(mask);
    }
  }

  /** A bitfield is written as it was read exactly when it was spelled in the fewest groups. */
  lemma MaskSpelling(b: Bytes, pos: nat, mask: uint32, after: nat)
    requires ReadFaceBits(b, pos, 0, 0) == Some((mask, after))
    ensures b[pos..after] == FaceBits(mask) <==> Shortest(b, pos, after)
  {
    hide ReadFaceBits, FaceBits;
    if b[pos..after] == FaceBits(mask) {
      FewestGroups(mask);
      assert b[pos] == b[pos..after][0];
    }
    if Shortest(b, pos, after) {
      assert b[pos..pos] == [] == High(0);
      GroupsSpell(b, pos, pos, 0, mask, after);
    }
  }

  /** Exceptions up to a terminator, each bitfield in its fewest groups. */
  predicate SpelledExceptions(b: Bytes, pos: nat, width: nat)
    decreases |b| - pos
  {
    pos < |b| && (b[pos] == '\0' ||
      match ReadFaceBits(b, pos, 0, 0)
      case None => false
      case Some((_, after)) =>
        Shortest(b, pos, after) && after + width <= |b| && SpelledExceptions(b, after + width, width))
  }

  /** Fields one after the other, each with its terminator, and nothing after the last. */
  predicate Spelled(b: Bytes, pos: nat, f: nat)
    requires f <= 11
    decreases 11 - f
  {
    pos == |b| || (
      && f < 11 && pos + Width(f) <= |b| && SpelledExceptions(b, pos + Width(f), Width(f))
      && match ReadExceptions(b, pos + Width(f), Width(f)) case None => false case Some((_, end)) => Spelled(b, end, f + 1))
  }

  lemma NotForNoFace(b: Bytes, pos: nat, mask: nat, after: nat)
    requires pos < after <= |b| && b[pos] != '\0' && b[pos..after] == FaceBits(mask)
    ensures mask != 0
  {
    assert b[pos] == b[pos..after][0];
  }

  lemma {:induction false} ExceptionsWriteBack(b: Bytes, pos: nat, width: nat)
    requires SpelledExceptions(b, pos, width)
    ensures var r := ReadExceptions(b, pos, width);
      r.Some? && pos < r.value.1 <= |b| && b[pos..r.value.1] == ExceptionBytes(r.value.0, width) + ['\0']
    decreases |b| - pos
  {
    hide ReadFaceBits, FaceBits, Shortest;
    if b[pos] == '\0' {
      assert b[pos..pos + 1] == ['\0'];
    } else {
      var (mask, after) := ReadFaceBits(b, pos, 0, 0).value;
      MaskSpelling(b, pos, mask, after);
      ExceptionsWriteBack(b, after + width, width);
      var (xs, end) := ReadExceptions(b, after + width, width).value;
      var value := b[after..after + width];
      NotForNoFace(b, pos, mask, after);
      assert b[pos..end] == b[pos..after] + (value + b[after + width..end]);
      var all := [Exception(mask, value)] + xs;
      assert all[1..] == xs;
      assert ExceptionBytes(all, width) + ['\0'] == FaceBits(mask) + (value + (ExceptionBytes(xs, width) + ['\0']));
    }
  }

  lemma {:induction false} OnlyAbsent(b: Bytes, f: nat)
    requires f <= 11
    ensures ReadFields(b, |b|, f).Some?
    ensures forall i :: 0 <= i < 11 - f ==> ReadFields(b, |b|, f).value[i] == Absent(f + i)
    decreases 11 - f
  {
    hide Width, Zeros, Absent;
    if f < 11 {
      OnlyAbsent(b, f + 1);
    }
  }

  /** Fields from `f` to `last` are those read, and nothing after `last` has content. */
  ghost predicate ReadHere(b: Bytes, pos: nat, f: nat, e: Entry, last: nat) {
    && f <= last <= 11 && ReadFields(b, pos, f) == Some(e[f..])
    && (forall i: nat :: last <= i < 11 ==> !HasContent(e[i])) && (forall i: nat :: f <= i < last ==> HasContent(e[i]))
  }

  lemma {:induction false} FieldsWriteBack(b: Bytes, pos: nat, f: nat, e: Entry) returns (last: nat)
    requires f <= 11 && pos <= |b| && Spelled(b, pos, f) && ReadFields(b, pos, f) == Some(e[f..])
    ensures ReadHere(b, pos, f, e, last) && b[pos..] == FieldsBytes(e, f, last)
    decreases 11 - f
  {
    hide ReadExceptions, SpelledExceptions, Width, ReadFields, Zeros;
    if pos == |b| {
      last := f;
      OnlyAbsent(b, f);
      assert forall i: nat :: f <= i < 11 ==> e[i] == e[f..][i - f];
    } else {
      var end := OneWritesBack(b, pos, f, e);
      assert e[f..][1..] == e[f + 1..];
      last := FieldsWriteBack(b, end, f + 1, e);
      assert b[pos..] == b[pos..end] + b[end..];
    }
  }

  lemma OneWritesBack(b: Bytes, pos: nat, f: nat, e: Entry) returns (end: nat)
    requires f < 11 && pos < |b| && Spelled(b, pos, f) && ReadFields(b, pos, f) == Some(e[f..])
    ensures pos < end <= |b| && Spelled(b, end, f + 1) && ReadFields(b, end, f + 1) == Some(e[f..][1..])
    ensures HasContent(e[f]) && b[pos..end] == FieldBody(e[f], Width(f)) + ['\0']
  {
    hide ReadExceptions, SpelledExceptions, Width, ExceptionBytes;
    var w := Width(f);
    ExceptionsWriteBack(b, pos + w, w);
    var (xs, after) := ReadExceptions(b, pos + w, w).value;
    end := after;
    assert e[f] == e[f..][0] == FieldValues(b[pos..pos + w], xs, true);
    assert b[pos..end] == b[pos..pos + w] + b[pos + w..end];
  }

  lemma {:induction false} ExceptionsAreSpelled(b: Bytes, pos: nat, xs: seq<Exception>, width: nat)
    requires At(b, pos, ExceptionBytes(xs, width) + ['\0'])
    ensures SpelledExceptions(b, pos, width)
    decreases |xs|
  {
    hide ReadFaceBits, FaceBits, Shortest, ReadExceptions;
    if xs == [] {
      assert b[pos] == b[pos..pos + 1][0];
    } else if !Written(xs[0], width) {
      assert ExceptionBytes(xs, width) == ExceptionBytes(xs[1..], width);
      ExceptionsAreSpelled(b, pos, xs[1..], width);
    } else {
      OneReadsBack(b, pos, xs, width, ['\0']);
      var after := pos + |FaceBits(xs[0].mask)|;
      assert ExceptionBytes(xs, width) + ['\0'] == FaceBits(xs[0].mask) + (xs[0].value + ExceptionBytes(xs[1..], width) + ['\0']);
      AtSplit(b, pos, FaceBits(xs[0].mask), xs[0].value + ExceptionBytes(xs[1..], width) + ['\0']);
      MaskSpelling(b, pos, xs[0].mask, after);
      ExceptionsAreSpelled(b, after + width, xs[1..], width);
    }
  }

  lemma {:induction false} FieldsAreSpelled(b: Bytes, pos: nat, e: Entry, f: nat, last: nat)
    requires f <= last <= 11 && At(b, pos, FieldsBytes(e, f, last)) && pos + |FieldsBytes(e, f, last)| == |b|
    ensures Spelled(b, pos, f) && FirstShort(b, pos, f) == (last, |b|)
    decreases last - f
  {
    hide ReadExceptions, SpelledExceptions, ExceptionBytes, DefaultBytes, Width;
    if f < last {
      var w, v, rest := Width(f), e[f], FieldsBytes(e, f + 1, last);
      FieldReadsBack(b, pos, v, w, rest);
      assert FieldBody(v, w) + (['\0'] + rest) == DefaultBytes(v, w) + ((ExceptionBytes(v.exceptions, w) + ['\0']) + rest);
      AtSplit(b, pos, DefaultBytes(v, w), (ExceptionBytes(v.exceptions, w) + ['\0']) + rest);
      AtSplit(b, pos + w, ExceptionBytes(v.exceptions, w) + ['\0'], rest);
      ExceptionsAreSpelled(b, pos + w, v.exceptions, w);
      FieldsAreSpelled(b, pos + |FieldBody(v, w)| + 1, e, f + 1, last);
    }
  }

  /** What the writer writes is spelled its way and ends cleanly, whatever the entry. */
  lemma EncodedIsSpelled(e: Entry)
    ensures Spelled(Encode(e), 0, 0) && FirstShort(Encode(e), 0, 0) == (Last(e), |Encode(e)|) && EndsCleanly(Encode(e), 0, 0)
  {
    hide Spelled, FirstShort, FieldsBytes;
    var b := Encode(e);
    assert b[0..0 + |b|] == b;
    FieldsAreSpelled(b, 0, e, 0, Last(e));
  }

  /** An entry that was read and not edited goes out in the bytes it came in exactly when those
      were spelled the writer's way, however short. */
  lemma ParseThenEncode(b: Bytes)
    requires Parse(b).Some?
    ensures Encode(Parse(b).value) == b <==> Spelled(b, 0, 0)
  {
    hide Spelled, ReadFields, FieldsBytes, Last, HasContent, EndsCleanly, FirstShort;
    var e := Parse(b).value;
    EncodedIsSpelled(e);
    if Spelled(b, 0, 0) {
      assert e[0..] == e && b[0..] == b;
      var last := FieldsWriteBack(b, 0, 0, e);
      LastIs(e, last);
    }
  }

  lemma LastIs(e: Entry, last: nat)
    requires last <= 11
    requires (forall i: nat :: last <= i < 11 ==> !HasContent(e[i])) && (forall i: nat :: i < last ==> HasContent(e[i]))
    ensures Last(e) == last
  {
    hide HasContent;
    var n := Last(e);
    assert n > 0 ==> HasContent(e[n - 1]);
    assert last > 0 ==> HasContent(e[last - 1]);
  }

  /** The upload's own entry lacks its last terminator, and comes back one byte longer. */
  lemma UploadGrows(fallback: Bytes, textures: seq<Bytes>, colours: seq<Bytes>)
    requires |fallback| == 16 && (forall i :: 0 <= i < |textures| ==> |textures[i]| == 16)
    requires forall i :: 0 <= i < |colours| ==> |colours[i]| == 4
    ensures var b := CutBytes(InstanceEntry(fallback, textures, colours), 0);
      Parse(b).Some? && Encode(Parse(b).value) == b + ['\0'] && !Spelled(b, 0, 0)
  {
    hide CutBytes, InstanceEntry, Spelled, FieldsBytes, ReadFields, WellFormed;
    var e := InstanceEntry(fallback, textures, colours);
    InstanceFaces(fallback, textures, colours, 0);
    InstanceIsWellFormed(fallback, textures, colours);
    CutIsAllButTheLast(e, 0);
    ParseThenEncode(CutBytes(e, 0));
  }
}
