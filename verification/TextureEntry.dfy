/** A TextureEntry: eleven fields, each a default and exceptions by face, and its wire form. */
module TextureEntry {
  import opened Prelude

  const WIDTHS: seq<nat> := [16, 4, 4, 4, 2, 2, 2, 1, 1, 1, 16]
  const MAX_FACES: nat := 32

  /** A value for the faces whose bits are set. */
  datatype Exception = Exception(mask: uint32, value: Bytes)

  datatype FieldValues = FieldValues(fallback: Bytes, exceptions: seq<Exception>, present: bool)

  type Entry = e: seq<FieldValues> | |e| == 11 witness NOTHING

  const NOTHING: seq<FieldValues> := seq(11, i requires 0 <= i < 11 => FieldValues([], [], false))

  function Width(f: nat): (w: nat)
    requires f < 11
    ensures w > 0
  {
    WIDTHS[f]
  }

  function Zeros(n: nat): (r: Bytes)
    ensures |r| == n && forall i :: 0 <= i < n ==> r[i] == '\0'
  {
    if n == 0 then [] else Zeros(n - 1) + ['\0']
  }

  // ----- masks -----

  predicate Bit(mask: nat, face: nat) {
    if face == 0 then mask % 2 == 1 else Bit(mask / 2, face - 1)
  }

  function SetBit(mask: nat, face: nat, value: bool): nat {
    if face == 0 then mask / 2 * 2 + (if value then 1 else 0) else 2 * SetBit(mask / 2, face - 1, value) + mask % 2
  }

  /** One face's bit set or cleared. */
  function WithBit(mask: uint32, face: nat, value: bool): uint32
    requires face < MAX_FACES
  {
    WithBitBound(mask, face, value, 32);
    ThirtyTwoBits();
    SetBit(mask, face, value)
  }

  function Pow2(n: nat): (p: nat)
    ensures p > 0
  {
    if n == 0 then 1 else 2 * Pow2(n - 1)
  }

  lemma {:induction false} Pow2Sum(a: nat, b: nat)
    ensures Pow2(a + b) == Pow2(a) * Pow2(b)
    decreases a
  {
    if a > 0 {
      Pow2Sum(a - 1, b);
      assert Pow2(a + b) == 2 * Pow2(a - 1 + b);
    }
  }

  lemma ThirtyTwoBits()
    ensures Pow2(32) == TWO_32
  {
    assert Pow2(4) == 16;
    Pow2Sum(4, 4);
    Pow2Sum(8, 8);
    Pow2Sum(16, 16);
  }

  lemma {:induction false} WithBitBound(mask: nat, face: nat, value: bool, width: nat)
    ensures mask < Pow2(width) && face < width ==> SetBit(mask, face, value) < Pow2(width)
    decreases face
  {
    if mask < Pow2(width) && face < width {
      var half := Pow2(width - 1);
      assert Pow2(width) == 2 * half && mask / 2 < half;
      if face > 0 {
        WithBitBound(mask / 2, face - 1, value, width - 1);
      }
    }
  }

  // ----- the bitfield on the wire -----

  /** Seven bits a byte, the continuing groups. */
  function High(mask: nat): Bytes {
    if mask == 0 then [] else High(mask / 128) + [(128 + mask % 128) as char]
  }

  function FaceBits(mask: nat): Bytes {
    High(mask / 128) + [(mask % 128) as char]
  }

  /** Five groups are the most; what a fifth group shifts out is lost. */
  function ReadFaceBits(b: Bytes, pos: nat, group: nat, mask: uint32): (r: Option<(uint32, nat)>)
    requires group <= 5
    ensures r.Some? ==> pos < r.value.1 <= |b|
    decreases 5 - group
  {
    if group == 5 || pos >= |b| then None
    else
      var byte := b[pos] as int;
      var next := (mask * 128 + byte % 128) % TWO_32;
      if byte < 128 then Some((next, pos + 1)) else ReadFaceBits(b, pos + 1, group + 1, next)
  }

  // ----- writing -----

  predicate Written(x: Exception, width: nat) {
    x.mask != 0 && |x.value| == width
  }

  /** Exceptions for no face, or of a wrong width, are left out. */
  function ExceptionBytes(xs: seq<Exception>, width: nat): Bytes {
    if xs == [] then []
    else (if Written(xs[0], width) then FaceBits(xs[0].mask) + xs[0].value else []) + ExceptionBytes(xs[1..], width)
  }

  function DefaultBytes(v: FieldValues, width: nat): (r: Bytes)
    ensures |r| == width
  {
    if |v.fallback| == width then v.fallback else Zeros(width)
  }

  function FieldBody(v: FieldValues, width: nat): Bytes {
    DefaultBytes(v, width) + ExceptionBytes(v.exceptions, width)
  }

  predicate HasContent(v: FieldValues) {
    v.present || v.exceptions != []
  }

  /** One past the last field with content. */
  function Last(e: Entry): (n: nat)
    ensures n <= 11
    ensures forall f :: n <= f < 11 ==> !HasContent(e[f])
    ensures n > 0 ==> HasContent(e[n - 1])
  {
    LastOf(e, 11)
  }

  function LastOf(e: Entry, n: nat): (r: nat)
    requires n <= 11
    ensures r <= n
    ensures forall f :: r <= f < n ==> !HasContent(e[f])
    ensures r > 0 ==> HasContent(e[r - 1])
  {
    if n == 0 || HasContent(e[n - 1]) then n else LastOf(e, n - 1)
  }

  function FieldsBytes(e: Entry, f: nat, last: nat): Bytes
    requires f <= last <= 11
    decreases last - f
  {
    if f == last then [] else FieldBody(e[f], Width(f)) + (['\0'] + FieldsBytes(e, f + 1, last))
  }

  function Encode(e: Entry): Bytes {
    FieldsBytes(e, 0, Last(e))
  }

  // ----- reading -----

  function Absent(f: nat): FieldValues
    requires f < 11
  {
    FieldValues(Zeros(Width(f)), [], false)
  }

  /** Up to the terminator, or to the end of a short stream. */
  function ReadExceptions(b: Bytes, pos: nat, width: nat): (r: Option<(seq<Exception>, nat)>)
    ensures r.Some? && pos <= |b| ==> pos <= r.value.1 <= |b|
    decreases |b| - pos
  {
    if pos >= |b| then Some(([], pos))
    else if b[pos] == '\0' then Some(([], pos + 1))
    else
      match ReadFaceBits(b, pos, 0, 0)
      case None => None
      case Some((mask, after)) =>
        if after + width > |b| then None
        else
          match ReadExceptions(b, after + width, width)
          case None => None
          case Some((xs, end)) => Some(([Exception(mask, b[after..after + width])] + xs, end))
  }

  function ReadFields(b: Bytes, pos: nat, f: nat): (r: Option<seq<FieldValues>>)
    requires f <= 11
    ensures r.Some? ==> |r.value| == 11 - f
    decreases 11 - f
  {
    if f == 11 then Some([])
    else if pos + Width(f) > |b| then
      match ReadFields(b, pos, f + 1)
      case None => None
      case Some(rest) => Some([Absent(f)] + rest)
    else
      match ReadExceptions(b, pos + Width(f), Width(f))
      case None => None
      case Some((xs, end)) =>
        match ReadFields(b, end, f + 1)
        case None => None
        case Some(rest) => Some([FieldValues(b[pos..pos + Width(f)], xs, true)] + rest)
  }

  function Parse(b: Bytes): Option<Entry> {
    ReadFields(b, 0, 0)
  }

  // ----- faces -----

  /** The last exception that covers the face, if any. */
  function Covering(xs: seq<Exception>, face: nat): Option<Bytes> {
    if xs == [] then None
    else if Bit(xs[|xs| - 1].mask, face) then Some(xs[|xs| - 1].value)
    else Covering(xs[..|xs| - 1], face)
  }

  /** What a face resolves to; nothing when the field is absent. */
  function FaceValue(e: Entry, f: nat, face: nat): Bytes
    requires f < 11
  {
    var v := e[f];
    if !HasContent(v) then []
    else if face < MAX_FACES && Covering(v.exceptions, face).Some? then Covering(v.exceptions, face).value
    else v.fallback
  }

  function WithoutFace(xs: seq<Exception>, face: nat): (r: seq<Exception>)
    requires face < MAX_FACES
    ensures |r| == |xs|
  {
    if xs == [] then [] else [xs[0].(mask := WithBit(xs[0].mask, face, false))] + WithoutFace(xs[1..], face)
  }

  /** The face joins the first exception whose value its own begins with, or gets one of its own. */
  function WithFace(xs: seq<Exception>, face: nat, value: Bytes): seq<Exception>
    requires face < MAX_FACES
  {
    if xs == [] then [Exception(WithBit(0, face, true), value)]
    else if xs[0].value <= value then [xs[0].(mask := WithBit(xs[0].mask, face, true))] + xs[1..]
    else [xs[0]] + WithFace(xs[1..], face, value)
  }

  function NonZero(xs: seq<Exception>): seq<Exception> {
    if xs == [] then [] else (if xs[0].mask == 0 then [] else [xs[0]]) + NonZero(xs[1..])
  }

  function SetFace(e: Entry, f: nat, face: nat, value: Bytes): (r: Entry)
    requires f < 11
  {
    if face >= MAX_FACES || |value| != Width(f) then e
    else
      var fallback := DefaultBytes(e[f], Width(f));
      var cleared := WithoutFace(e[f].exceptions, face);
      var joined := if value == fallback then cleared else WithFace(cleared, face, value);
      e[f := FieldValues(fallback, NonZero(joined), true)]
  }
}
