/** The packed bitmap of a parcel's cells. */
module ParcelBits {
  import opened Parcels

  function Mask(k: nat): bv8
    requires k < 8
  {
    match k
    case 0 => 0x01
    case 1 => 0x02
    case 2 => 0x04
    case 3 => 0x08
    case 4 => 0x10
    case 5 => 0x20
    case 6 => 0x40
    case _ => 0x80
  }

  predicate InGrid(edge: nat, x: int, y: int) {
    0 <= x < edge && 0 <= y < edge
  }

  function Index(edge: nat, x: int, y: int): nat
    requires InGrid(edge, x, y)
  {
    y * edge + x
  }

  predicate ByteBit(bitmap: seq<bv8>, byte: nat, k: nat)
    requires k < 8
  {
    byte < |bitmap| && HasMark(bitmap[byte], k)
  }

  predicate HasMark(b: bv8, k: nat)
    requires k < 8
  {
    b & Mask(k) != 0
  }

  function Marked(b: bv8, k: nat, value: bool): bv8
    requires k < 8
  {
    if value then b | Mask(k) else b & !Mask(k)
  }

  function SetByteBit(bitmap: seq<bv8>, byte: nat, k: nat, value: bool): seq<bv8>
    requires byte < |bitmap| && k < 8
  {
    bitmap[byte := Marked(bitmap[byte], k, value)]
  }

  predicate BitAt(bitmap: seq<bv8>, index: nat) {
    ByteBit(bitmap, index / 8, index % 8)
  }

  predicate BitGet(bitmap: seq<bv8>, edge: nat, x: int, y: int) {
    InGrid(edge, x, y) && BitAt(bitmap, Index(edge, x, y))
  }

  function Zeros(n: nat): (r: seq<bv8>)
    ensures |r| == n && forall i :: 0 <= i < n ==> r[i] == 0
  {
    if n == 0 then [] else Zeros(n - 1) + [0]
  }

  function Resized(bitmap: seq<bv8>, byte: nat): (r: seq<bv8>)
    ensures |r| == (if byte >= |bitmap| then byte + 1 else |bitmap|)
  {
    if byte >= |bitmap| then bitmap + Zeros(byte + 1 - |bitmap|) else bitmap
  }

  function SetBit(bitmap: seq<bv8>, index: nat, value: bool): seq<bv8> {
    SetByteBit(Resized(bitmap, index / 8), index / 8, index % 8, value)
  }

  function BitSet(bitmap: seq<bv8>, edge: nat, x: int, y: int, value: bool): seq<bv8> {
    if InGrid(edge, x, y) then SetBit(bitmap, Index(edge, x, y), value) else bitmap
  }

  /** The cells a bitmap stands for. */
  ghost function CellsIn(bitmap: seq<bv8>, edge: nat): set<Cell> {
    set c | c in Grid(edge) && BitGet(bitmap, edge, c.x, c.y)
  }

  // ----- one bit -----

  /** The k-th bit, counted from the lowest. */
  predicate BitOf(b: bv8, k: nat)
    requires k < 8
  {
    (b >> k) & 1 == 1
  }

  /** A byte's cells count from its lowest bit. */
  lemma LowestBitFirst(b: bv8, k: nat)
    requires k < 8
    ensures HasMark(b, k) <==> BitOf(b, k)
  {
  }

  /** Cells are bits row by row from the south-west, eight a byte. */
  lemma CellIsItsBit(bitmap: seq<bv8>, edge: nat, x: nat, y: nat)
    requires x < edge && y < edge
    ensures BitGet(bitmap, edge, x, y) <==>
      var bit: nat := y * edge + x; bit / 8 < |bitmap| && BitOf(bitmap[bit / 8], bit % 8)
  {
    hide HasMark, BitOf;
    var bit: nat := y * edge + x;
    if bit / 8 < |bitmap| {
      LowestBitFirst(bitmap[bit / 8], bit % 8);
    }
  }

  lemma MarkedReads(b: bv8, j: nat, value: bool, k: nat)
    requires j < 8 && k < 8
    ensures HasMark(Marked(b, j, value), k) <==> if j == k then value else HasMark(b, k)
  {
  }

  lemma ResizedBits(bitmap: seq<bv8>, byte: nat, index: nat)
    ensures BitAt(Resized(bitmap, byte), index) <==> BitAt(bitmap, index)
  {
    NoBit(Mask(index % 8));
  }

  lemma NoBit(m: bv8)
    ensures (0 as bv8) & m == 0
  {
  }

  lemma SetByteBitGets(bitmap: seq<bv8>, byte: nat, k: nat, value: bool, byte2: nat, k2: nat)
    requires byte < |bitmap| && k < 8 && k2 < 8
    ensures ByteBit(SetByteBit(bitmap, byte, k, value), byte2, k2)
      <==> if byte2 == byte && k2 == k then value else ByteBit(bitmap, byte2, k2)
  {
    hide HasMark, Marked;
    MarkedReads(bitmap[byte], k, value, k2);
  }

  /** Setting one bit changes that bit and no other. */
  lemma SetBitGets(bitmap: seq<bv8>, index: nat, value: bool, other: nat)
    ensures BitAt(SetBit(bitmap, index, value), other) <==> if other == index then value else BitAt(bitmap, other)
  {
    hide ByteBit, SetByteBit, Resized;
    var wide := Resized(bitmap, index / 8);
    ByteAndBit(index, other);
    SetByteBitGets(wide, index / 8, index % 8, value, other / 8, other % 8);
    ResizedBits(bitmap, index / 8, other);
  }

  lemma ByteAndBit(a: nat, b: nat)
    ensures a == b <==> a / 8 == b / 8 && a % 8 == b % 8
  {
    assert a == 8 * (a / 8) + a % 8 && b == 8 * (b / 8) + b % 8;
  }

  lemma IndexIsInjective(edge: nat, x: int, y: int, x2: int, y2: int)
    requires InGrid(edge, x, y) && InGrid(edge, x2, y2) && Index(edge, x, y) == Index(edge, x2, y2)
    ensures x == x2 && y == y2
  {
    if y < y2 {
      RowsApart(edge, y, y2);
    } else if y2 < y {
      RowsApart(edge, y2, y);
    }
  }

  lemma RowsApart(edge: nat, y: int, y2: int)
    requires y < y2
    ensures y * edge + edge <= y2 * edge
  {
    assert (y2 - y - 1) * edge >= 0;
    assert y2 * edge == y * edge + edge + (y2 - y - 1) * edge;
  }

  lemma BitSetGets(bitmap: seq<bv8>, edge: nat, x: int, y: int, value: bool, x2: int, y2: int)
    requires InGrid(edge, x, y) && InGrid(edge, x2, y2)
    ensures BitGet(BitSet(bitmap, edge, x, y, value), edge, x2, y2)
      <==> if x2 == x && y2 == y then value else BitGet(bitmap, edge, x2, y2)
  {
    hide SetBit, BitAt;
    SetBitGets(bitmap, Index(edge, x, y), value, Index(edge, x2, y2));
    if Index(edge, x, y) == Index(edge, x2, y2) {
      IndexIsInjective(edge, x, y, x2, y2);
    }
  }

  /** Over cells: a bit set adds its cell, a bit cleared removes it. */
  lemma BitSetCells(bitmap: seq<bv8>, edge: nat, x: int, y: int, value: bool)
    requires InGrid(edge, x, y)
    ensures CellsIn(BitSet(bitmap, edge, x, y, value), edge)
      == if value then CellsIn(bitmap, edge) + {Cell(x, y)} else CellsIn(bitmap, edge) - {Cell(x, y)}
  {
    hide BitSet, BitGet;
    forall c | c in Grid(edge)
      ensures BitGet(BitSet(bitmap, edge, x, y, value), edge, c.x, c.y)
        <==> if c == Cell(x, y) then value else BitGet(bitmap, edge, c.x, c.y)
    {
      BitSetGets(bitmap, edge, x, y, value, c.x, c.y);
    }
  }

  lemma ZerosAreEmpty(n: nat, edge: nat)
    ensures CellsIn(Zeros(n), edge) == {}
  {
    hide Mask;
    forall c | c in Grid(edge)
      ensures !BitGet(Zeros(n), edge, c.x, c.y)
    {
      NoBit(Mask(Index(edge, c.x, c.y) % 8));
    }
  }

  // ----- rectangles, cell by cell -----

  /** The cells visited before (x, y) in row order. */
  function Visited(b: Bounds, x: int, y: int): set<Cell> {
    Rect(b.west, b.south, b.east, y) + Rect(b.west, y, x, y + 1)
  }

  lemma VisitedSteps(b: Bounds, x: int, y: int)
    requires b.south <= y && b.west <= x
    ensures Visited(b, b.west, b.south) == {}
    ensures Visited(b, x + 1, y) == Visited(b, x, y) + {Cell(x, y)}
    ensures Visited(b, b.east, y) == Visited(b, b.west, y + 1)
    ensures !b.Empty() ==> Visited(b, b.west, b.north) == b.Cells()
    ensures x <= b.east && y < b.north ==> Visited(b, x, y) <= b.Cells()
  {
  }

  /** Sets a rectangle of bits in one bitmap and clears it in another. */
  method MoveRect(from: seq<bv8>, to: seq<bv8>, edge: nat, b: Bounds) returns (left: seq<bv8>, carved: seq<bv8>)
    requires 0 <= b.west && 0 <= b.south && b.east <= edge && b.north <= edge && !b.Empty()
    ensures CellsIn(left, edge) == CellsIn(from, edge) - b.Cells()
    ensures CellsIn(carved, edge) == CellsIn(to, edge) + b.Cells()
  {
    hide CellsIn, BitSet, Rect, Visited;
    left, carved := from, to;
    var y := b.south;
    VisitedSteps(b, b.west, b.south);
    while y < b.north
      invariant b.south <= y <= b.north
      invariant CellsIn(left, edge) == CellsIn(from, edge) - Visited(b, b.west, y)
      invariant CellsIn(carved, edge) == CellsIn(to, edge) + Visited(b, b.west, y)
    {
      var x := b.west;
      while x < b.east
        invariant b.west <= x <= b.east
        invariant CellsIn(left, edge) == CellsIn(from, edge) - Visited(b, x, y)
        invariant CellsIn(carved, edge) == CellsIn(to, edge) + Visited(b, x, y)
      {
        BitSetCells(carved, edge, x, y, true);
        BitSetCells(left, edge, x, y, false);
        VisitedSteps(b, x, y);
        carved := BitSet(carved, edge, x, y, true);
        left := BitSet(left, edge, x, y, false);
        x := x + 1;
      }
      VisitedSteps(b, b.west, y);
      y := y + 1;
    }
    VisitedSteps(b, b.west, b.south);
  }

  method FullBitmap(edge: nat) returns (bitmap: seq<bv8>)
    requires edge > 0
    ensures CellsIn(bitmap, edge) == Grid(edge)
  {
    hide CellsIn, BitSet, Rect, Visited;
    var b := Bounds(0, 0, edge, edge);
    bitmap := Zeros((edge * edge + 7) / 8);
    ZerosAreEmpty((edge * edge + 7) / 8, edge);
    VisitedSteps(b, 0, 0);
    var y := 0;
    while y < edge
      invariant 0 <= y <= edge && CellsIn(bitmap, edge) == Visited(b, 0, y)
    {
      var x := 0;
      while x < edge
        invariant 0 <= x <= edge && CellsIn(bitmap, edge) == Visited(b, x, y)
      {
        BitSetCells(bitmap, edge, x, y, true);
        VisitedSteps(b, x, y);
        bitmap := BitSet(bitmap, edge, x, y, true);
        x := x + 1;
      }
      VisitedSteps(b, 0, y);
      y := y + 1;
    }
  }

  /** Sixteen square metres for every bit set inside the grid. */
  method Area(bitmap: seq<bv8>, edge: nat) returns (area: nat)
    ensures area == 16 * |CellsIn(bitmap, edge)|
  {
    hide BitGet, Rect, Visited;
    var b := Bounds(0, 0, edge, edge);
    var bits := 0;
    VisitedSteps(b, 0, 0);
    var y := 0;
    while y < edge
      invariant 0 <= y <= edge && bits == |CellsIn(bitmap, edge) * Visited(b, 0, y)|
    {
      var x := 0;
      while x < edge
        invariant 0 <= x <= edge && bits == |CellsIn(bitmap, edge) * Visited(b, x, y)|
      {
        VisitedSteps(b, x, y);
        OneMoreCell(CellsIn(bitmap, edge), Visited(b, x, y), Cell(x, y));
        NotYetVisited(b, x, y);
        CellInGrid(edge, x, y);
        if BitGet(bitmap, edge, x, y) {
          bits := bits + 1;
        }
        x := x + 1;
      }
      VisitedSteps(b, 0, y);
      y := y + 1;
    }
    if edge > 0 {
      VisitedSteps(b, 0, 0);
      assert CellsIn(bitmap, edge) * b.Cells() == CellsIn(bitmap, edge);
    } else {
      NoCells(edge);
      assert CellsIn(bitmap, edge) == {};
      assert CellsIn(bitmap, edge) * Visited(b, 0, y) == {};
    }
    area := bits * 16;
  }

  lemma NoCells(edge: nat)
    requires edge == 0
    ensures Grid(edge) == {}
  {
  }

  lemma CellInGrid(edge: nat, x: int, y: int)
    requires InGrid(edge, x, y)
    ensures Cell(x, y) in Grid(edge)
  {
  }

  lemma NotYetVisited(b: Bounds, x: int, y: int)
    ensures Cell(x, y) !in Visited(b, x, y)
  {
  }

  lemma OneMoreCell(s: set<Cell>, seen: set<Cell>, c: Cell)
    ensures c !in seen ==> |s * (seen + {c})| == |s * seen| + if c in s then 1 else 0
  {
    if c in s {
      assert s * (seen + {c}) == s * seen + {c};
    } else {
      assert s * (seen + {c}) == s * seen;
    }
  }

  /** Adds the cells of one bitmap to another. */
  method AddCells(into: seq<bv8>, other: seq<bv8>, edge: nat) returns (bitmap: seq<bv8>)
    ensures CellsIn(bitmap, edge) == CellsIn(into, edge) + CellsIn(other, edge)
  {
    hide BitGet, BitSet, Rect, Visited;
    var b := Bounds(0, 0, edge, edge);
    bitmap := into;
    VisitedSteps(b, 0, 0);
    var y := 0;
    while y < edge
      invariant 0 <= y <= edge && CellsIn(bitmap, edge) == CellsIn(into, edge) + CellsIn(other, edge) * Visited(b, 0, y)
    {
      var x := 0;
      while x < edge
        invariant 0 <= x <= edge && CellsIn(bitmap, edge) == CellsIn(into, edge) + CellsIn(other, edge) * Visited(b, x, y)
      {
        VisitedSteps(b, x, y);
        CellInGrid(edge, x, y);
        if BitGet(other, edge, x, y) {
          BitSetCells(bitmap, edge, x, y, true);
          bitmap := BitSet(bitmap, edge, x, y, true);
        }
        x := x + 1;
      }
      VisitedSteps(b, 0, y);
      y := y + 1;
    }
    if edge > 0 {
      VisitedSteps(b, 0, 0);
    } else {
      NoCells(edge);
    }
  }
}
