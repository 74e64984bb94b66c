/** The texture-entry reader, writer and editor as the source has them: loops over a buffer, and an
    entry edited in place. */
module TextureEntryObject {
  import opened Prelude
  import opened TextureEntry
  import opened TextureEntryUsers
  import Llsd
  import LlsdObject

  method TakeFaceBits(b: Bytes, start: nat) returns (r: Option<(uint32, nat)>)
    ensures r == ReadFaceBits(b, start, 0, 0)
  {
    var mask: uint32 := 0;
    var position: nat := start;
    var group := 0;
    while group < 5
      invariant group <= 5 && ReadFaceBits(b, start, 0, 0) == ReadFaceBits(b, position, group, mask)
    {
      if position >= |b| {
        return None;
      }
      var byte := b[position] as int;
      position := position + 1;
      mask := (mask * 128 + byte % 128) % TWO_32;
      if byte < 128 {
        return Some((mask, position));
      }
      group := group + 1;
    }
    return None;
  }

  /** A list read so far, in front of what is still to be read. */
  function Following(front: seq<Exception>, r: Option<(seq<Exception>, nat)>): Option<(seq<Exception>, nat)> {
    if r.Some? then Some((front + r.value.0, r.value.1)) else None
  }

  method TakeExceptions(b: Bytes, start: nat, width: nat) returns (r: Option<(seq<Exception>, nat)>)
    requires start <= |b|
    ensures r == ReadExceptions(b, start, width)
  {
    hide ReadFaceBits;
    var xs: seq<Exception> := [];
    var position := start;
    FollowingNone(ReadExceptions(b, start, width));
    while position < |b|
      invariant start <= position <= |b|
      invariant ReadExceptions(b, start, width) == Following(xs, ReadExceptions(b, position, width))
      decreases |b| - position
    {
      if b[position] == '\0' {
        assert xs + [] == xs;
        return Some((xs, position + 1));
      }
      var bits := TakeFaceBits(b, position);
      if bits == None {
        return None;
      }
      var (mask, after) := bits.value;
      if after + width > |b| {
        return None;
      }
      var x := Exception(mask, b[after..after + width]);
      FollowingOne(xs, x, ReadExceptions(b, after + width, width));
      xs := xs + [x];
      position := after + width;
    }
    assert xs + [] == xs;
    return Some((xs, position));
  }

  lemma FollowingNone(r: Option<(seq<Exception>, nat)>)
    ensures Following([], r) == r
  {
    if r.Some? {
      assert [] + r.value.0 == r.value.0;
    }
  }

  lemma FollowingOne(front: seq<Exception>, x: Exception, r: Option<(seq<Exception>, nat)>)
    ensures Following(front, if r.Some? then Some(([x] + r.value.0, r.value.1)) else None) == Following(front + [x], r)
  {
    if r.Some? {
      assert front + ([x] + r.value.0) == (front + [x]) + r.value.0;
    }
  }

  method ParseEntry(b: Bytes) returns (r: Option<Entry>)
    ensures r == Parse(b)
  {
    hide ReadExceptions, Width, Zeros, ReadFields, Absent;
    var fields: seq<FieldValues> := [];
    var position: nat, field := 0, 0;
    BeforeNone(ReadFields(b, 0, 0));
    while field < 11
      invariant field <= 11 && |fields| == field && position <= |b|
      invariant ReadFields(b, 0, 0) == Before(fields, ReadFields(b, position, field))
    {
      var width := Width(field);
      FieldsFrom(b, position, field);
      if position + width > |b| {
        BeforeOne(fields, Absent(field), ReadFields(b, position, field + 1));
        fields := fields + [Absent(field)];
      } else {
        var fallback := b[position..position + width];
        var xs := TakeExceptions(b, position + width, width);
        if xs == None {
          return None;
        }
        BeforeOne(fields, FieldValues(fallback, xs.value.0, true), ReadFields(b, xs.value.1, field + 1));
        fields := fields + [FieldValues(fallback, xs.value.0, true)];
        position := xs.value.1;
      }
      field := field + 1;
    }
    NoFieldsLeft(b, position);
    assert fields + [] == fields;
    return Some(fields);
  }

  /** The reading of the fields, one field unrolled. */
  lemma FieldsFrom(b: Bytes, pos: nat, f: nat)
    requires f < 11
    ensures ReadFields(b, pos, f) ==
      if pos + Width(f) > |b| then Before([Absent(f)], ReadFields(b, pos, f + 1))
      else
        var xs := ReadExceptions(b, pos + Width(f), Width(f));
        if xs == None then None
        else Before([FieldValues(b[pos..pos + Width(f)], xs.value.0, true)], ReadFields(b, xs.value.1, f + 1))
  {
    hide ReadExceptions, Width, Zeros;
  }

  lemma NoFieldsLeft(b: Bytes, pos: nat)
    ensures ReadFields(b, pos, 11) == Some([])
  {
  }

  function Before(front: seq<FieldValues>, r: Option<seq<FieldValues>>): Option<seq<FieldValues>> {
    if r.Some? then Some(front + r.value) else None
  }

  lemma BeforeNone(r: Option<seq<FieldValues>>)
    ensures Before([], r) == r
  {
    if r.Some? {
      assert [] + r.value == r.value;
    }
  }

  lemma BeforeOne(front: seq<FieldValues>, v: FieldValues, r: Option<seq<FieldValues>>)
    ensures Before(front, Before([v], r)) == Before(front + [v], r)
  {
    if r.Some? {
      assert front + ([v] + r.value) == (front + [v]) + r.value;
    }
  }

  class FaceEntry {
    var fields: Entry

    constructor (fields: Entry)
      ensures this.fields == fields
    {
      this.fields := fields;
    }

    method LastWithContent() returns (last: nat)
      ensures last == Last(fields)
    {
      last := 0;
      var field := 0;
      while field < 11
        invariant field <= 11 && last == LastOf(fields, field)
      {
        if fields[field].present || fields[field].exceptions != [] {
          last := field + 1;
        }
        field := field + 1;
      }
    }

    method EncodeEntry() returns (out: Bytes)
      ensures out == Encode(fields)
    {
      hide FieldBody, Width, Last;
      var last := LastWithContent();
      out := [];
      var field := 0;
      while field < last
        invariant field <= last && out + FieldsBytes(fields, field, last) == FieldsBytes(fields, 0, last)
      {
        ghost var before, body, rest := out, FieldBody(fields[field], Width(field)), FieldsBytes(fields, field + 1, last);
        out := AppendBody(out, fields[field], Width(field));
        out := out + ['\0'];
        Joined(before, body, rest);
        field := field + 1;
      }
      assert out + [] == out;
    }

    /** The last exception that covers the face wins. */
    method FaceValueOf(f: nat, face: nat) returns (value: Bytes)
      requires f < 11
      ensures value == FaceValue(fields, f, face)
    {
      hide Bit;
      var v := fields[f];
      if !v.present && v.exceptions == [] {
        return [];
      }
      if face < MAX_FACES {
        var i := |v.exceptions|;
        assert v.exceptions[..i] == v.exceptions;
        while i > 0
          invariant i <= |v.exceptions| && Covering(v.exceptions, face) == Covering(v.exceptions[..i], face)
          decreases i
        {
          assert v.exceptions[..i][..i - 1] == v.exceptions[..i - 1];
          if Bit(v.exceptions[i - 1].mask, face) {
            return v.exceptions[i - 1].value;
          }
          i := i - 1;
        }
      }
      return v.fallback;
    }

    /** Gives one face its own value for one field; a wrong face or a wrong width changes nothing. */
    method SetFaceValue(f: nat, face: nat, value: Bytes)
      requires f < 11
      modifies this
      ensures fields == SetFace(old(fields), f, face, value)
    {
      hide WithBit, Width, Zeros;
      if face >= MAX_FACES || |value| != Width(f) {
        return;
      }
      var v := fields[f];
      if |v.fallback| != Width(f) {
        v := v.(fallback := Zeros(Width(f)));
      }
      v := v.(present := true);
      var xs := ClearFace(v.exceptions, face);
      if value != v.fallback {
        xs := JoinSame(xs, face, value);
      }
      xs := EraseEmpty(xs);
      fields := fields[f := v.(exceptions := xs)];
    }
  }

  lemma Joined(before: Bytes, body: Bytes, rest: Bytes)
    ensures before + body + ['\0'] + rest == before + (body + (['\0'] + rest))
  {
  }

  method AppendBody(out: Bytes, v: FieldValues, width: nat) returns (r: Bytes)
    ensures r == out + FieldBody(v, width)
  {
    hide FaceBits;
    r := out + (if |v.fallback| == width then v.fallback else Zeros(width));
    var i := 0;
    assert v.exceptions[0..] == v.exceptions;
    while i < |v.exceptions|
      invariant i <= |v.exceptions| && r + ExceptionBytes(v.exceptions[i..], width) == out + FieldBody(v, width)
    {
      var x := v.exceptions[i];
      ghost var before, rest := r, ExceptionBytes(v.exceptions[i + 1..], width);
      assert v.exceptions[i..][1..] == v.exceptions[i + 1..];
      if x.mask == 0 || |x.value| != width {
        assert [] + rest == rest;
      } else {
        r := AppendFaceBits(r, x.mask);
        r := r + x.value;
        assert r + rest == before + (FaceBits(x.mask) + x.value + rest);
      }
      i := i + 1;
    }
    assert r + [] == r;
  }

  method ClearFace(xs: seq<Exception>, face: nat) returns (r: seq<Exception>)
    requires face < MAX_FACES
    ensures r == WithoutFace(xs, face)
  {
    hide WithBit;
    r := xs;
    var i := 0;
    assert xs[0..] == xs;
    while i < |xs|
      invariant i <= |xs| == |r| && r[i..] == xs[i..] && r[..i] + WithoutFace(xs[i..], face) == WithoutFace(xs, face)
    {
      assert xs[i..][1..] == xs[i + 1..];
      ghost var cleared := xs[i].(mask := WithBit(xs[i].mask, face, false));
      assert r[..i] + ([cleared] + WithoutFace(xs[i + 1..], face)) == (r[..i] + [cleared]) + WithoutFace(xs[i + 1..], face);
      assert r[i] == r[i..][0] && r[i + 1..] == r[i..][1..];
      r := r[i := r[i].(mask := WithBit(r[i].mask, face, false))];
      i := i + 1;
    }
    assert r[..i] == r && r + [] == r;
  }

  method JoinSame(xs: seq<Exception>, face: nat, value: Bytes) returns (r: seq<Exception>)
    requires face < MAX_FACES
    ensures r == WithFace(xs, face, value)
  {
    hide WithBit;
    var i := 0;
    while i < |xs| && !(xs[i].value <= value)
      invariant i <= |xs| && xs[..i] + WithFace(xs[i..], face, value) == WithFace(xs, face, value)
    {
      assert xs[i..][1..] == xs[i + 1..];
      assert xs[..i] + ([xs[i]] + WithFace(xs[i + 1..], face, value)) == xs[..i + 1] + WithFace(xs[i + 1..], face, value);
      i := i + 1;
    }
    if i < |xs| {
      var joined := xs[i].(mask := WithBit(xs[i].mask, face, true));
      assert xs[i..][1..] == xs[i + 1..];
      assert xs[..i] + ([joined] + xs[i + 1..]) == xs[i := joined];
      return xs[i := joined];
    }
    assert xs[i..] == [] && xs[..i] == xs;
    return xs + [Exception(WithBit(0, face, true), value)];
  }

  method EraseEmpty(xs: seq<Exception>) returns (r: seq<Exception>)
    ensures r == NonZero(xs)
  {
    r := [];
    var i := 0;
    assert xs[0..] == xs;
    while i < |xs|
      invariant i <= |xs| && r + NonZero(xs[i..]) == NonZero(xs)
    {
      ghost var rest := NonZero(xs[i + 1..]);
      assert xs[i..][1..] == xs[i + 1..];
      assert [] + rest == rest && r + ([xs[i]] + rest) == (r + [xs[i]]) + rest;
      if xs[i].mask != 0 {
        r := r + [xs[i]];
      }
      i := i + 1;
    }
    assert r + [] == r;
  }

  method TakeVarint(b: Bytes, start: nat) returns (r: Option<(nat, nat)>)
    ensures r == Varint(b, start, 0, 0)
  {
    var bits: nat, position: nat, length := 0, start, 0;
    while position < |b|
      invariant Varint(b, start, 0, 0) == Varint(b, position, bits, length)
      decreases |b| - position
    {
      var byte := b[position] as int;
      position := position + 1;
      bits := (bits * 128 + byte % 128) % TWO_64;
      if byte < 128 {
        return Some((bits, position));
      }
      length := length + 1;
      if length > 8 {
        return None;
      }
    }
    return None;
  }

  /** The textures an entry's bytes name, each once, in the order they are met. */
  method ListTextureIds(b: Bytes) returns (ids: seq<Bytes>)
    ensures ids == TextureIds(b)
  {
    hide Varint, AddId;
    ids := [];
    if |b| < 16 {
      return;
    }
    ids := AddOnce(ids, b[0..16]);
    var offset := 16;
    while true
      invariant TextureIds(b) == WalkIds(b, offset, ids)
      decreases |b| - offset
    {
      var bits := TakeVarint(b, offset);
      if bits == None || bits.value.0 == 0 {
        return;
      }
      offset := bits.value.1;
      if offset + 16 > |b| {
        return;
      }
      ids := AddOnce(ids, b[offset..offset + 16]);
      offset := offset + 16;
    }
  }

  method AddOnce(ids: seq<Bytes>, raw: Bytes) returns (r: seq<Bytes>)
    requires |raw| == 16
    ensures r == AddId(ids, raw)
  {
    var id := LlsdObject.FormatUuid(raw);
    return if id == Llsd.NIL_TEXT || id in ids then ids else ids + [id];
  }
}
