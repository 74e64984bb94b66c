/** Shared vocabulary: bytes, 32-bit integers, optional values and results. */
module Prelude {

  /** One byte of source text, of a script string or of a snapshot. */
  type Byte = c: char | c as int < 256

  type Bytes = seq<Byte>

  type int32 = x: int | -0x8000_0000 <= x < 0x8000_0000

  const TWO_32: int := 0x1_0000_0000
  const TWO_64: int := 0x1_0000_0000_0000_0000

  datatype Option<+T> = None | Some(value: T)

  /** A value, or the reason there is none: the model of a thrown exception. */
  datatype Result<+T, +E> = Ok(value: T) | Err(error: E) {
    predicate IsFailure() {
      Err?
    }

    function PropagateFailure<U>(): Result<U, E>
      requires Err?
    {
      Err(error)
    }

    function Extract(): T
      requires Ok?
    {
      value
    }
  }

  /** Two's-complement truncation: the one 32-bit arithmetic both semantics share. */
  function Wrap32(x: int): (r: int32)
    ensures (x - r) % TWO_32 == 0
    ensures -0x8000_0000 <= x < 0x8000_0000 ==> r == x
  {
    var m := x % TWO_32;
    if m < 0x8000_0000 then m else m - TWO_32
  }

  function ByteOf(n: nat): (b: Byte)
    ensures b as int == n % 256
  {
    (n % 256) as char
  }

  type uint32 = x: int | 0 <= x < 0x1_0000_0000

  /** How many numbers `width` bytes can hold. */
  function Pow256(width: nat): (n: nat)
    ensures n > 0
    ensures width == 4 ==> n == TWO_32
    ensures width == 8 ==> n == TWO_64
  {
    if width == 0 then 1
    else if width == 8 then
      assert Pow256(4) == TWO_32;
      256 * Pow256(7)
    else 256 * Pow256(width - 1)
  }

  ghost predicate Distinct<T>(s: seq<T>) {
    forall i, j :: 0 <= i < j < |s| ==> s[i] != s[j]
  }

  /** `piece` stands in `s` at `pos`. */
  ghost predicate At<T>(s: seq<T>, pos: nat, piece: seq<T>) {
    pos + |piece| <= |s| && s[pos..pos + |piece|] == piece
  }

  lemma AtSplit<T>(s: seq<T>, pos: nat, a: seq<T>, b: seq<T>)
    requires At(s, pos, a + b)
    ensures At(s, pos, a) && At(s, pos + |a|, b)
  {
    assert s[pos..pos + |a|] == (a + b)[..|a|];
    assert s[pos + |a|..pos + |a| + |b|] == (a + b)[|a|..];
  }

  /** The first index holding `x`, or the length when there is none. */
  function IndexOf<T(==)>(s: seq<T>, x: T): (i: nat)
    ensures i <= |s|
    ensures i < |s| ==> s[i] == x
    ensures forall j :: 0 <= j < i ==> s[j] != x
  {
    if s == [] || s[0] == x then 0 else 1 + IndexOf(s[1..], x)
  }
}
