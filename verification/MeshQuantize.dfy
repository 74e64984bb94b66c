/** Coordinates as 16-bit numbers over a domain. */
module MeshQuantize {
  import opened Prelude

  const MAX_FLOAT: real := 340282346638528859811704183484516925440.0

  type Float = x: real | -MAX_FLOAT <= x <= MAX_FLOAT

  type uint16 = x: int | 0 <= x < 0x1_0000

  type Vector = seq<Float>

  const STEPS: real := 65535.0

  // ----- one coordinate -----

  /** `y` is within half of one 65535th of `span` from `x`. */
  predicate Near(x: real, y: real, span: real) {
    -span <= 131070.0 * (y - x) <= span
  }

  function Clamp(x: real): (r: real)
    ensures 0.0 <= r <= 1.0
  {
    if x < 0.0 then 0.0 else if x > 1.0 then 1.0 else x
  }

  /** To the nearest whole number, halves away from zero. */
  function Nearest(x: real): (n: nat)
    requires x >= 0.0
    ensures n as real - 0.5 <= x < n as real + 0.5
  {
    (x + 0.5).Floor
  }

  function Quantize(value: Float, low: Float, high: Float): uint16 {
    if high <= low then 0 else Nearest(Clamp((value - low) / (high - low)) * STEPS)
  }

  function Mix(unit: real, low: real, high: real): real {
    low + unit * (high - low)
  }

  function Between(unit: real, low: Float, high: Float): (r: Float)
    requires 0.0 <= unit <= 1.0
    ensures low <= high ==> low <= r <= high
  {
    Weighed(unit, low, high);
    Mix(unit, low, high)
  }

  function Dequantize(n: uint16, low: Float, high: Float): (r: Float)
    ensures low <= high ==> low <= r <= high
  {
    Between(n as real / STEPS, low, high)
  }

  /** A weighted mean of two numbers lies between them. */
  lemma Weighed(unit: real, low: real, high: real)
    requires 0.0 <= unit <= 1.0
    ensures low <= high ==> low <= Mix(unit, low, high) <= high
    ensures high <= low ==> high <= Mix(unit, low, high) <= low
  {
    var w := high - low;
    assert Mix(unit, low, high) == low + unit * w;
    if w >= 0.0 {
      Scaled(unit, 1.0, w);
      Scaled(0.0, unit, w);
    } else {
      Scaled(unit, 1.0, -w);
      Scaled(0.0, unit, -w);
      assert unit * -w == -(unit * w);
    }
  }

  lemma Scaled(a: real, b: real, w: real)
    requires a <= b && w >= 0.0
    ensures a * w <= b * w
  {
  }

  lemma Share(x: real, w: real)
    requires w > 0.0
    ensures (x / w) * w == x
  {
  }

  lemma Rescaled(u: real, w: real)
    requires w > 0.0
    ensures (u * w) / w == u
  {
  }

  lemma UnitOf(x: real, w: real)
    requires 0.0 <= x <= w && 0.0 < w
    ensures 0.0 <= x / w <= 1.0 && (x / w) * w == x
  {
    Share(x, w);
    Above(x / w, w);
  }

  lemma Above(u: real, w: real)
    requires w > 0.0 && 0.0 <= u * w <= w
    ensures 0.0 <= u <= 1.0
  {
    if u > 1.0 {
      assert false;
    }
  }

  lemma Steps(value: Float, low: Float, high: Float)
    requires low <= value <= high && low < high
    ensures var e := Quantize(value, low, high) as real / STEPS - (value - low) / (high - low);
      -0.5 <= 65535.0 * e <= 0.5
  {
    UnitOf(value - low, high - low);
  }

  /** A coordinate inside its domain comes back within half of one 65535th of the domain. */
  lemma HalfAQuantum(value: Float, low: Float, high: Float)
    requires low <= value <= high
    ensures Near(value, Dequantize(Quantize(value, low, high), low, high), high as real - low as real)
  {
    hide Quantize;
    if low < high {
      var w := high - low;
      var u := (value - low) / w;
      UnitOf(value - low, w);
      Steps(value, low, high);
      var n := Quantize(value, low, high);
      var a := n as real / STEPS;
      var y: real := Dequantize(n, low, high);
      assert y == low + a * w;
      assert value as real == low + u * w;
      assert a * w - u * w == (a - u) * w;
      Error(value, y, a - u, w);
    } else {
      assert Between(0.0, low, high) == low;
    }
  }

  lemma Error(x: real, y: real, e: real, w: real)
    requires w > 0.0 && -0.5 <= 65535.0 * e <= 0.5 && y - x == e * w
    ensures Near(x, y, w)
  {
    Scaled(131070.0 * e, 1.0, w);
    Scaled(-1.0, 131070.0 * e, w);
  }

  /** Quantizing again what came back gives the same number: nothing further is lost. */
  lemma QuantizeAgain(n: uint16, low: Float, high: Float)
    requires low < high
    ensures Quantize(Dequantize(n, low, high), low, high) == n
  {
    var w := high - low;
    var u := n as real / STEPS;
    Rescaled(u, w);
    assert (Dequantize(n, low, high) - low) / w == u;
    assert u * STEPS == n as real;
  }

  /** The ends of a domain come back exactly. */
  lemma EndsAreExact(low: Float, high: Float)
    ensures Quantize(low, low, high) == 0 && Dequantize(0, low, high) == low
    ensures low < high ==> Quantize(high, low, high) == 65535 && Dequantize(65535, low, high) == high
  {
    assert 0.0 * (high - low) == 0.0;
    if low < high {
      assert (high - low) / (high - low) == 1.0;
      assert 0.0 / (high - low) == 0.0;
      assert Nearest(1.0 * STEPS) == 65535;
    }
  }

  // ----- packed numbers -----

  function Short(n: uint16): Bytes {
    [ByteOf(n), ByteOf(n / 256)]
  }

  function Stream(ns: seq<uint16>): (r: Bytes)
    ensures |r| == 2 * |ns|
  {
    if ns == [] then [] else Short(ns[0]) + Stream(ns[1..])
  }

  function ShortAt(b: Bytes, i: nat): uint16
    requires i + 1 < |b|
  {
    b[i] as int + 256 * b[i + 1] as int
  }

  /** The numbers packed in some bytes. An odd last byte is nothing. */
  function Shorts(b: Bytes): (r: seq<uint16>)
    ensures |r| == |b| / 2
  {
    if |b| < 2 then [] else [ShortAt(b, 0)] + Shorts(b[2..])
  }

  lemma {:induction false} StreamReads(ns: seq<uint16>)
    ensures Shorts(Stream(ns)) == ns
  {
    if ns != [] {
      StreamReads(ns[1..]);
      assert Stream(ns)[2..] == Stream(ns[1..]);
    }
  }

  lemma {:induction false} StreamConcat(a: seq<uint16>, b: seq<uint16>)
    ensures Stream(a + b) == Stream(a) + Stream(b)
  {
    if a == [] {
      assert a + b == b;
    } else {
      assert (a + b)[1..] == a[1..] + b;
      StreamConcat(a[1..], b);
    }
  }

  lemma {:induction false} ShortsAt(b: Bytes, i: nat)
    requires 2 * i + 1 < |b|
    ensures i < |Shorts(b)| && Shorts(b)[i] == ShortAt(b, 2 * i)
  {
    if i > 0 {
      ShortsAt(b[2..], i - 1);
    }
  }

  // ----- packed vectors -----

  predicate Cloud(vs: seq<Vector>, d: nat) {
    forall v :: v in vs ==> |v| == d
  }

  function Row(v: Vector, low: Vector, high: Vector): (r: seq<uint16>)
    requires |v| == |low| == |high|
    ensures |r| == |v|
  {
    seq(|v|, a requires 0 <= a < |v| => Quantize(v[a], low[a], high[a]))
  }

  function Quanta(vs: seq<Vector>, low: Vector, high: Vector): (r: seq<uint16>)
    requires |low| == |high| && Cloud(vs, |low|)
    ensures |r| == |vs| * |low|
  {
    if vs == [] then []
    else
      assert (|vs| - 1) * |low| + |low| == |vs| * |low|;
      Row(vs[0], low, high) + Quanta(vs[1..], low, high)
  }

  function Point(ns: seq<uint16>, low: Vector, high: Vector): (r: Vector)
    requires |ns| == |low| == |high|
    ensures |r| == |low|
  {
    seq(|ns|, a requires 0 <= a < |ns| => Dequantize(ns[a], low[a], high[a]))
  }

  /** One vector for every full row of numbers. */
  function Points(ns: seq<uint16>, low: Vector, high: Vector): (r: seq<Vector>)
    requires 0 < |low| == |high|
    ensures Cloud(r, |low|)
  {
    if |ns| < |low| then [] else [Point(ns[..|low|], low, high)] + Points(ns[|low|..], low, high)
  }

  function Rounded(vs: seq<Vector>, low: Vector, high: Vector): (r: seq<Vector>)
    requires |low| == |high| && Cloud(vs, |low|)
    ensures |r| == |vs| && Cloud(r, |low|)
    ensures forall i :: 0 <= i < |vs| ==> r[i] == Point(Row(vs[i], low, high), low, high)
  {
    if vs == [] then [] else [Point(Row(vs[0], low, high), low, high)] + Rounded(vs[1..], low, high)
  }

  lemma {:induction false} PointsOfQuanta(vs: seq<Vector>, low: Vector, high: Vector)
    requires 0 < |low| == |high| && Cloud(vs, |low|)
    ensures Points(Quanta(vs, low, high), low, high) == Rounded(vs, low, high)
  {
    if vs != [] {
      var ns := Quanta(vs, low, high);
      assert ns[..|low|] == Row(vs[0], low, high) && ns[|low|..] == Quanta(vs[1..], low, high);
      PointsOfQuanta(vs[1..], low, high);
    }
  }

  lemma RowAgain(v: Vector, low: Vector, high: Vector)
    requires |v| == |low| == |high|
    ensures Row(Point(Row(v, low, high), low, high), low, high) == Row(v, low, high)
  {
    hide Dequantize, Quantize;
    forall a | 0 <= a < |v|
      ensures Quantize(Dequantize(Quantize(v[a], low[a], high[a]), low[a], high[a]), low[a], high[a])
           == Quantize(v[a], low[a], high[a])
    {
      CoordinateAgain(v[a], low[a], high[a]);
    }
  }

  lemma CoordinateAgain(x: Float, low: Float, high: Float)
    ensures Quantize(Dequantize(Quantize(x, low, high), low, high), low, high) == Quantize(x, low, high)
  {
    if low < high {
      QuantizeAgain(Quantize(x, low, high), low, high);
    }
  }

  /** Rounded vectors pack to the same numbers as those they were rounded from. */
  lemma {:induction false} QuantaAgain(vs: seq<Vector>, low: Vector, high: Vector)
    requires |low| == |high| && Cloud(vs, |low|)
    ensures Quanta(Rounded(vs, low, high), low, high) == Quanta(vs, low, high)
  {
    hide Row, Point;
    if vs != [] {
      QuantaAgain(vs[1..], low, high);
      RowAgain(vs[0], low, high);
    }
  }

  // ----- the domain -----

  function LowOf(vs: seq<Vector>, a: nat): Float
    requires forall v :: v in vs ==> a < |v|
  {
    if vs == [] then MAX_FLOAT
    else
      var rest := LowOf(vs[..|vs| - 1], a);
      if vs[|vs| - 1][a] < rest then vs[|vs| - 1][a] else rest
  }

  function HighOf(vs: seq<Vector>, a: nat): Float
    requires forall v :: v in vs ==> a < |v|
  {
    if vs == [] then -MAX_FLOAT
    else
      var rest := HighOf(vs[..|vs| - 1], a);
      if rest < vs[|vs| - 1][a] then vs[|vs| - 1][a] else rest
  }

  /** The least and the greatest coordinate, each reached. */
  ghost predicate Spans(vs: seq<Vector>, a: nat, low: Float, high: Float) {
    && (forall v :: v in vs ==> a < |v| && low <= v[a] <= high)
    && (exists v :: v in vs && a < |v| && v[a] == low) && (exists v :: v in vs && a < |v| && v[a] == high)
  }

  lemma {:induction false} LowHigh(vs: seq<Vector>, a: nat)
    requires vs != [] && forall v :: v in vs ==> a < |v|
    ensures Spans(vs, a, LowOf(vs, a), HighOf(vs, a))
  {
    var front, last := vs[..|vs| - 1], vs[|vs| - 1];
    if front != [] {
      LowHigh(front, a);
    }
    assert vs == front + [last] && last in vs;
    assert LowOf(vs, a) == last[a] || exists v :: v in front && a < |v| && v[a] == LowOf(vs, a);
    assert HighOf(vs, a) == last[a] || exists v :: v in front && a < |v| && v[a] == HighOf(vs, a);
  }

  /** Where the least and the greatest coordinate are. */
  lemma Ends(vs: seq<Vector>, a: nat) returns (i: nat, j: nat)
    requires vs != [] && forall v :: v in vs ==> a < |v|
    ensures i < |vs| && j < |vs| && vs[i][a] == LowOf(vs, a) && vs[j][a] == HighOf(vs, a)
  {
    LowHigh(vs, a);
    var v :| v in vs && a < |v| && v[a] == LowOf(vs, a);
    var w :| w in vs && a < |w| && w[a] == HighOf(vs, a);
    i :| 0 <= i < |vs| && vs[i] == v;
    j :| 0 <= j < |vs| && vs[j] == w;
  }

  lemma SpanIsUnique(vs: seq<Vector>, a: nat, low: Float, high: Float)
    requires forall v :: v in vs ==> a < |v|
    requires Spans(vs, a, low, high)
    ensures LowOf(vs, a) == low && HighOf(vs, a) == high
  {
    LowHigh(vs, a);
  }

  function Low(vs: seq<Vector>, d: nat): (r: Vector)
    requires Cloud(vs, d)
    ensures |r| == d
  {
    seq(d, a requires 0 <= a < d => LowOf(vs, a))
  }

  /** A flat axis is widened by `nudge`, so that a reader never divides by nothing. */
  function Top(vs: seq<Vector>, a: nat, nudge: Float -> Float): Float
    requires forall v :: v in vs ==> a < |v|
  {
    if HighOf(vs, a) > LowOf(vs, a) then HighOf(vs, a) else nudge(LowOf(vs, a))
  }

  function High(vs: seq<Vector>, d: nat, nudge: Float -> Float): (r: Vector)
    requires Cloud(vs, d)
    ensures |r| == d
  {
    seq(d, a requires 0 <= a < d => Top(vs, a, nudge))
  }

  /** An axis's domain runs from its least coordinate to its greatest, or, when all are the same, to
      that one widened. */
  lemma DomainMeans(vs: seq<Vector>, d: nat, nudge: Float -> Float, a: nat)
    requires Cloud(vs, d) && vs != [] && a < d
    ensures (forall v :: v in vs ==> |v| == d && Low(vs, d)[a] <= v[a]) && exists v :: v in vs && |v| == d && v[a] == Low(vs, d)[a]
    ensures var same := forall v :: v in vs && |v| == d ==> v[a] == Low(vs, d)[a];
      && (same ==> High(vs, d, nudge)[a] == nudge(Low(vs, d)[a]))
      && (!same ==> (forall v :: v in vs && |v| == d ==> v[a] <= High(vs, d, nudge)[a])
                    && exists v :: v in vs && |v| == d && v[a] == High(vs, d, nudge)[a])
  {
    hide LowOf, HighOf;
    LowHigh(vs, a);
  }

  /** Vectors packed over their own domain and unpacked. */
  function Reread(vs: seq<Vector>, d: nat, nudge: Float -> Float): (r: seq<Vector>)
    requires Cloud(vs, d)
    ensures |r| == |vs| && Cloud(r, d)
  {
    Rounded(vs, Low(vs, d), High(vs, d, nudge))
  }

  /** What an axis spans. */
  function Breadth(vs: seq<Vector>, a: nat): real
    requires forall v :: v in vs ==> a < |v|
  {
    HighOf(vs, a) as real - LowOf(vs, a) as real
  }

  /** Each coordinate within half of one 65535th of what the axis spans. */
  ghost predicate WithinHalf(vs: seq<Vector>, rs: seq<Vector>, a: nat, span: real) {
    && |rs| == |vs|
    && forall i :: 0 <= i < |vs| ==> a < |vs[i]| && a < |rs[i]| && Near(vs[i][a], rs[i][a], span)
  }

  /** Inside the same bounds, exact at both of them, and near everywhere. */
  predicate KeepsPlace(x: real, r: real, low: real, top: real) {
    low <= r <= top && (x == low ==> r == low) && (x == top ==> r == top) && Near(x, r, top - low)
  }

  /** One coordinate of a vector that was packed over the domain of its axis. */
  lemma OneCoordinate(x: Float, low: Float, top: Float, high: Float)
    requires low <= x <= top && (if low < top then high == top else true)
    ensures KeepsPlace(x, Dequantize(Quantize(x, low, high), low, high), low, top)
  {
    EndsAreExact(low, high);
    if low < top {
      HalfAQuantum(x, low, high);
    }
  }

  lemma RereadCoordinate(vs: seq<Vector>, d: nat, nudge: Float -> Float, a: nat, i: nat)
    requires Cloud(vs, d) && a < d && i < |vs|
    ensures KeepsPlace(vs[i][a], Reread(vs, d, nudge)[i][a], LowOf(vs, a), HighOf(vs, a))
  {
    hide LowOf, HighOf, Quantize, Dequantize, KeepsPlace, Spans;
    var x, low, top, high := vs[i][a], LowOf(vs, a), HighOf(vs, a), Top(vs, a, nudge);
    assert low <= x <= top by {
      LowHigh(vs, a);
      assert vs[i] in vs;
      SpanBounds(vs, a, low, top, i);
    }
    OneCoordinate(x, low, top, high);
    assert Reread(vs, d, nudge)[i] == Point(Row(vs[i], Low(vs, d), High(vs, d, nudge)), Low(vs, d), High(vs, d, nudge));
  }

  lemma SpanBounds(vs: seq<Vector>, a: nat, low: Float, high: Float, i: nat)
    requires i < |vs| && Spans(vs, a, low, high)
    ensures a < |vs[i]| && low <= vs[i][a] <= high
  {
    assert vs[i] in vs;
  }

  /** Every coordinate comes back within half a step of what its axis spans. */
  lemma RereadNear(vs: seq<Vector>, d: nat, nudge: Float -> Float, a: nat)
    requires Cloud(vs, d) && a < d
    ensures WithinHalf(vs, Reread(vs, d, nudge), a, Breadth(vs, a))
  {
    hide LowOf, HighOf, Reread, Near;
    forall i | 0 <= i < |vs|
      ensures Near(vs[i][a], Reread(vs, d, nudge)[i][a], Breadth(vs, a))
    {
      RereadCoordinate(vs, d, nudge, a, i);
    }
  }

  /** The ends of every axis come back exactly, and nothing leaves them. */
  lemma RereadAxis(vs: seq<Vector>, d: nat, nudge: Float -> Float, a: nat)
    requires Cloud(vs, d) && a < d && vs != []
    ensures Spans(Reread(vs, d, nudge), a, LowOf(vs, a), HighOf(vs, a))
  {
    hide LowOf, HighOf, Reread, Near, Spans;
    var rs := Reread(vs, d, nudge);
    forall i | 0 <= i < |vs|
      ensures rs[i] in rs && KeepsPlace(vs[i][a], rs[i][a], LowOf(vs, a), HighOf(vs, a))
    {
      RereadCoordinate(vs, d, nudge, a, i);
    }
    var i, j := Ends(vs, a);
    Attained(rs, a, LowOf(vs, a), HighOf(vs, a), i, j);
  }

  lemma Attained(rs: seq<Vector>, a: nat, low: Float, high: Float, i: nat, j: nat)
    requires forall v :: v in rs ==> a < |v| && low <= v[a] <= high
    requires i < |rs| && j < |rs| && a < |rs[i]| && a < |rs[j]| && rs[i][a] == low && rs[j][a] == high
    ensures Spans(rs, a, low, high)
  {
    assert rs[i] in rs && rs[j] in rs;
  }

  /** What comes back has the domain of what was packed, so packing it again loses nothing further. */
  lemma RereadKeepsDomain(vs: seq<Vector>, d: nat, nudge: Float -> Float)
    requires Cloud(vs, d) && vs != []
    ensures Low(Reread(vs, d, nudge), d) == Low(vs, d)
    ensures High(Reread(vs, d, nudge), d, nudge) == High(vs, d, nudge)
    ensures Quanta(Reread(vs, d, nudge), Low(vs, d), High(vs, d, nudge)) == Quanta(vs, Low(vs, d), High(vs, d, nudge))
    ensures Reread(Reread(vs, d, nudge), d, nudge) == Reread(vs, d, nudge)
  {
    hide LowOf, HighOf, Rounded, Quanta, Spans;
    var rs := Reread(vs, d, nudge);
    forall a: nat | a < d
      ensures LowOf(rs, a) == LowOf(vs, a) && HighOf(rs, a) == HighOf(vs, a)
    {
      RereadAxis(vs, d, nudge, a);
      SpanIsUnique(rs, a, LowOf(vs, a), HighOf(vs, a));
    }
    assert Low(rs, d) == Low(vs, d);
    assert High(rs, d, nudge) == High(vs, d, nudge);
    QuantaAgain(vs, Low(vs, d), High(vs, d, nudge));
    RoundedAgain(vs, Low(vs, d), High(vs, d, nudge));
  }

  lemma RoundedAgain(vs: seq<Vector>, low: Vector, high: Vector)
    requires |low| == |high| && Cloud(vs, |low|)
    ensures Rounded(Rounded(vs, low, high), low, high) == Rounded(vs, low, high)
  {
    hide Row, Point;
    forall i | 0 <= i < |vs|
      ensures Rounded(Rounded(vs, low, high), low, high)[i] == Rounded(vs, low, high)[i]
    {
      RowAgain(vs[i], low, high);
    }
  }
}
