/** Parcels always partition the region. */
module Parcels {
  import opened Prelude

  datatype Cell = Cell(x: int, y: int)

  /** The cells from (west, south) up to, and without, (east, north). */
  function Rect(west: int, south: int, east: int, north: int): set<Cell> {
    set x: int, y: int | west <= x < east && south <= y < north :: Cell(x, y)
  }

  function Grid(edge: nat): set<Cell> {
    Rect(0, 0, edge, edge)
  }

  datatype Info = Info(globalId: Bytes, localId: int, name: Bytes, owner: Bytes, claimDate: int)

  datatype Plot = Plot(info: Info, cells: set<Cell>)

  datatype Land = Land(edge: nat, lastId: int, plots: seq<Plot>)

  /** A rectangle of world metres. */
  datatype Metres = Metres(west: real, south: real, east: real, north: real)

  datatype Bounds = Bounds(west: int, south: int, east: int, north: int) {
    function Cells(): set<Cell> {
      Rect(west, south, east, north)
    }

    predicate Empty() {
      west >= east || south >= north
    }

    function Size(): int {
      (east - west) * (north - south)
    }
  }

  function Lesser(a: real, b: real): real {
    if b < a then b else a
  }

  function Greater(a: real, b: real): real {
    if a < b then b else a
  }

  function Ceiling(r: real): int {
    -(-r).Floor
  }

  /** The cells a rectangle overlaps, whichever way its corners are given. */
  function Overlapped(m: Metres): Bounds {
    Bounds((Lesser(m.west, m.east) / 4.0).Floor, (Lesser(m.south, m.north) / 4.0).Floor,
           Ceiling(Greater(m.west, m.east) / 4.0), Ceiling(Greater(m.south, m.north) / 4.0))
  }

  function Max(a: int, b: int): int {
    if a < b then b else a
  }

  function Min(a: int, b: int): int {
    if b < a then b else a
  }

  function Clamped(b: Bounds, edge: nat): Bounds {
    Bounds(Max(0, b.west), Max(0, b.south), Min(edge, b.east), Min(edge, b.north))
  }

  /** The first plot that has the cell, or the number of plots. */
  function OwnerAt(plots: seq<Plot>, c: Cell): (i: nat)
    ensures i <= |plots|
    ensures i < |plots| ==> c in plots[i].cells
    ensures forall j :: 0 <= j < i ==> c !in plots[j].cells
  {
    if plots == [] || c in plots[0].cells then 0 else 1 + OwnerAt(plots[1..], c)
  }

  // ----- divide -----

  /** The whole rectangle is the one plot's. */
  predicate Holds(plots: seq<Plot>, i: nat, b: Bounds) {
    i < |plots| && forall c :: c in b.Cells() ==> OwnerAt(plots, c) == i
  }

  predicate CanDivide(l: Land, b: Bounds) {
    && 0 <= b.west && 0 <= b.south && b.east <= l.edge && b.north <= l.edge && !b.Empty()
    && var i := OwnerAt(l.plots, Cell(b.west, b.south));
       Holds(l.plots, i, b) && |l.plots[i].cells| != b.Size()
  }

  const NEW_NAME: Bytes := "Parcel"

  /** The rectangle is carved out of the plot that holds it. */
  function Carve(l: Land, i: nat, b: Bounds, globalId: Bytes, owner: Bytes, claimDate: int): Land
    requires i < |l.plots|
  {
    var left := l.plots[i].(cells := l.plots[i].cells - b.Cells());
    var carved := Plot(Info(globalId, l.lastId + 1, NEW_NAME, owner, claimDate), b.Cells());
    Land(l.edge, l.lastId + 1, l.plots[i := left] + [carved])
  }

  function Divide(l: Land, m: Metres, globalId: Bytes, owner: Bytes, claimDate: int): (Land, Option<int>) {
    var b := Overlapped(m);
    if CanDivide(l, b) then
      (Carve(l, OwnerAt(l.plots, Cell(b.west, b.south)), b, globalId, owner, claimDate), Some(l.lastId + 1))
    else (l, None)
  }

  // ----- join -----

  /** The ids of the plots the rectangle meets. */
  ghost function Touched(plots: seq<Plot>, b: Bounds): set<int> {
    set c | c in b.Cells() && OwnerAt(plots, c) < |plots| :: plots[OwnerAt(plots, c)].info.localId
  }

  ghost predicate IsLeast(m: int, s: set<int>) {
    m in s && forall x :: x in s ==> m <= x
  }

  lemma Element<T>(s: set<T>) returns (x: T)
    requires s != {}
    ensures x in s
  {
    x :| x in s;
  }

  lemma ProperPart(part: set<Cell>, whole: set<Cell>)
    requires part <= whole && part != whole
    ensures whole - part != {}
  {
    var c :| c in whole && c !in part;
    assert c in whole - part;
  }

  lemma {:induction false} LeastExists(s: set<int>)
    requires s != {}
    ensures exists m :: IsLeast(m, s)
    decreases |s|
  {
    var x := Element(s);
    if s == {x} {
      assert IsLeast(x, s);
    } else {
      var rest := s - {x};
      assert s == rest + {x};
      LeastExists(rest);
      var m :| IsLeast(m, rest);
      forall y | y in s
        ensures Min(m, x) <= y
      {
        assert y == x || y in rest;
      }
      assert IsLeast(Min(m, x), s);
    }
  }

  ghost function Least(s: set<int>): int
    requires s != {}
  {
    LeastExists(s);
    var m :| IsLeast(m, s);
    m
  }

  /** All the cells of the plots with the given ids. */
  function CellsOf(plots: seq<Plot>, ids: set<int>): set<Cell> {
    if plots == [] then {}
    else (if plots[0].info.localId in ids then plots[0].cells else {}) + CellsOf(plots[1..], ids)
  }

  /** The plots of the given ids become one, at the master's place; the others stay. */
  function Merge(plots: seq<Plot>, ids: set<int>, master: int, cells: set<Cell>): seq<Plot> {
    if plots == [] then []
    else
      var p, rest := plots[0], Merge(plots[1..], ids, master, cells);
      if p.info.localId == master then [p.(cells := cells)] + rest
      else if p.info.localId in ids then rest
      else [p] + rest
  }

  ghost predicate CanJoin(l: Land, b: Bounds, owner: Bytes) {
    && !b.Empty() && |Touched(l.plots, b)| >= 2
    && forall i :: 0 <= i < |l.plots| && l.plots[i].info.localId in Touched(l.plots, b) ==> l.plots[i].info.owner == owner
  }

  ghost function Join(l: Land, m: Metres, owner: Bytes): (Land, Option<int>) {
    var b := Clamped(Overlapped(m), l.edge);
    if CanJoin(l, b, owner) then
      var ids := Touched(l.plots, b);
      var master := Least(ids);
      (l.(plots := Merge(l.plots, ids, master, CellsOf(l.plots, ids))), Some(master))
    else (l, None)
  }

  // ----- the invariant -----

  ghost predicate UniqueIds(plots: seq<Plot>) {
    forall i, j :: 0 <= i < j < |plots| ==> plots[i].info.localId != plots[j].info.localId
  }

  ghost predicate Disjoint(plots: seq<Plot>) {
    forall i, j, c :: 0 <= i < j < |plots| && c in plots[i].cells ==> c !in plots[j].cells
  }

  /** Every cell of the region is in exactly one plot, no plot is empty, and local ids are unique
      and already handed out. */
  ghost predicate Partition(l: Land) {
    UniqueIds(l.plots) && Disjoint(l.plots) && Sound(l) && Covered(l)
  }

  ghost predicate Sound(l: Land) {
    forall p :: p in l.plots ==> p.info.localId <= l.lastId && p.cells != {} && p.cells <= Grid(l.edge)
  }

  ghost predicate Covered(l: Land) {
    forall c :: c in Grid(l.edge) ==> OwnerAt(l.plots, c) < |l.plots|
  }

  lemma {:induction false} OwnerIs(plots: seq<Plot>, c: Cell, i: nat)
    requires Disjoint(plots) && i < |plots| && c in plots[i].cells
    ensures OwnerAt(plots, c) == i
  {
    var j := OwnerAt(plots, c);
    assert j <= i && c in plots[j].cells;
  }

  lemma Owned(plots: seq<Plot>, c: Cell, i: nat)
    requires i < |plots| && c in plots[i].cells
    ensures OwnerAt(plots, c) < |plots|
  {
  }

  // ----- sizes -----

  lemma {:induction false} RowSize(west: int, east: int, y: int)
    requires west <= east
    ensures |Rect(west, y, east, y + 1)| == east - west
    decreases east - west
  {
    if west == east {
      assert Rect(west, y, east, y + 1) == {};
    } else {
      RowSize(west, east - 1, y);
      assert Rect(west, y, east, y + 1) == Rect(west, y, east - 1, y + 1) + {Cell(east - 1, y)};
    }
  }

  lemma {:induction false} RectSize(west: int, south: int, east: int, north: int)
    requires west <= east && south <= north
    ensures |Rect(west, south, east, north)| == (east - west) * (north - south)
    decreases north - south
  {
    if south == north {
      assert Rect(west, south, east, north) == {};
    } else {
      RectSize(west, south, east, north - 1);
      RowSize(west, east, north - 1);
      assert Rect(west, south, east, north) == Rect(west, south, east, north - 1) + Rect(west, north - 1, east, north);
      assert Rect(west, south, east, north - 1) !! Rect(west, north - 1, east, north);
      assert (east - west) * (north - south) == (east - west) * (north - 1 - south) + (east - west);
    }
  }

  lemma {:induction false} SubsetSize(a: set<Cell>, b: set<Cell>)
    requires a <= b
    ensures |a| <= |b| && (|a| == |b| <==> a == b)
  {
    assert b == a + (b - a);
    assert |b| == |a| + |b - a|;
  }

  /** The area test refuses exactly the rectangle that is the whole plot. */
  lemma DivideKeepsPartOfTheSource(l: Land, b: Bounds, i: nat)
    requires Holds(l.plots, i, b) && !b.Empty()
    ensures |l.plots[i].cells| == b.Size() <==> l.plots[i].cells == b.Cells()
  {
    RectSize(b.west, b.south, b.east, b.north);
    assert b.Cells() <= l.plots[i].cells by {
      forall c | c in b.Cells()
        ensures c in l.plots[i].cells
      {
        assert OwnerAt(l.plots, c) == i;
      }
    }
    SubsetSize(b.Cells(), l.plots[i].cells);
  }

  function TotalCells(plots: seq<Plot>): nat {
    if plots == [] then 0 else |plots[0].cells| + TotalCells(plots[1..])
  }

  function AllCells(plots: seq<Plot>): set<Cell> {
    if plots == [] then {} else plots[0].cells + AllCells(plots[1..])
  }

  lemma {:induction false} InAllCells(plots: seq<Plot>, c: Cell)
    ensures c in AllCells(plots) <==> OwnerAt(plots, c) < |plots|
    decreases |plots|
  {
    if plots != [] {
      InAllCells(plots[1..], c);
    }
  }

  lemma {:induction false} DisjointTotal(plots: seq<Plot>)
    requires Disjoint(plots)
    ensures TotalCells(plots) == |AllCells(plots)|
    decreases |plots|
  {
    if plots != [] {
      var rest := plots[1..];
      assert Disjoint(rest) by {
        forall i, j, c | 0 <= i < j < |rest| && c in rest[i].cells
          ensures c !in rest[j].cells
        {
          assert c in plots[i + 1].cells && rest[j] == plots[j + 1];
        }
      }
      DisjointTotal(rest);
      forall c | c in AllCells(rest)
        ensures c !in plots[0].cells
      {
        InAllCells(rest, c);
        assert rest[OwnerAt(rest, c)] == plots[OwnerAt(rest, c) + 1];
      }
      assert plots[0].cells !! AllCells(rest);
    }
  }

  /** The parcels' areas add up to the region's. */
  lemma AreasAddUp(l: Land)
    requires Partition(l)
    ensures 16 * TotalCells(l.plots) == (4 * l.edge) * (4 * l.edge)
  {
    hide Rect, OwnerAt, UniqueIds, TotalCells, AllCells;
    assert Disjoint(l.plots);
    AllIsGrid(l);
    DisjointTotal(l.plots);
    RectSize(0, 0, l.edge, l.edge);
    Sixteenfold(TotalCells(l.plots), l.edge);
  }

  lemma Sixteenfold(total: nat, edge: nat)
    requires total == edge * edge
    ensures 16 * total == (4 * edge) * (4 * edge)
  {
  }

  lemma AllIsGrid(l: Land)
    requires Partition(l)
    ensures AllCells(l.plots) == Grid(l.edge)
  {
    hide AllCells, Grid, Disjoint, UniqueIds;
    forall c
      ensures c in AllCells(l.plots) <==> c in Grid(l.edge)
    {
      InAllCells(l.plots, c);
    }
  }

  // ----- divide keeps the partition -----

  lemma CarveKeeps(l: Land, i: nat, b: Bounds, globalId: Bytes, owner: Bytes, claimDate: int)
    requires Partition(l) && Holds(l.plots, i, b) && !b.Empty() && b.Cells() <= Grid(l.edge)
    requires |l.plots[i].cells| != b.Size()
    ensures Partition(Carve(l, i, b, globalId, owner, claimDate))
  {
    CarveIsSound(l, i, b, globalId, owner, claimDate);
    CarveIsDisjoint(l, i, b, globalId, owner, claimDate);
    CarveIsUnique(l, i, b, globalId, owner, claimDate);
    hide Disjoint, Sound, UniqueIds, Holds, Carve;
    forall c | c in Grid(l.edge)
      ensures var k := Carve(l, i, b, globalId, owner, claimDate); k.edge == l.edge && OwnerAt(k.plots, c) < |k.plots|
    {
      CarveCovers(l, i, b, globalId, owner, claimDate, c);
      CarveEdge(l, i, b, globalId, owner, claimDate);
    }
    CarveEdge(l, i, b, globalId, owner, claimDate);
  }

  lemma CarveIsUnique(l: Land, i: nat, b: Bounds, globalId: Bytes, owner: Bytes, claimDate: int)
    requires UniqueIds(l.plots) && Sound(l) && i < |l.plots|
    ensures UniqueIds(Carve(l, i, b, globalId, owner, claimDate).plots)
  {
    hide Rect;
    assert forall j :: 0 <= j < |l.plots| ==> l.plots[j] in l.plots;
  }

  lemma CarveIsSound(l: Land, i: nat, b: Bounds, globalId: Bytes, owner: Bytes, claimDate: int)
    requires Sound(l) && Holds(l.plots, i, b) && !b.Empty() && b.Cells() <= Grid(l.edge)
    requires |l.plots[i].cells| != b.Size()
    ensures Sound(Carve(l, i, b, globalId, owner, claimDate))
  {
    hide Rect;
    DivideKeepsPartOfTheSource(l, b, i);
    HeldCells(l.plots, i, b);
    ProperPart(b.Cells(), l.plots[i].cells);
    NotNothing(b);
    assert l.plots[i] in l.plots;
  }

  lemma CarveCovers(l: Land, i: nat, b: Bounds, globalId: Bytes, owner: Bytes, claimDate: int, c: Cell)
    requires i < |l.plots| && OwnerAt(l.plots, c) < |l.plots|
    ensures var plots := Carve(l, i, b, globalId, owner, claimDate).plots; OwnerAt(plots, c) < |plots|
  {
    hide Rect;
    var plots := Carve(l, i, b, globalId, owner, claimDate).plots;
    if c in b.Cells() {
      Owned(plots, c, |l.plots|);
    } else {
      var o := OwnerAt(l.plots, c);
      assert c in plots[o].cells;
      Owned(plots, c, o);
    }
  }

  lemma NotNothing(b: Bounds)
    requires !b.Empty()
    ensures b.Cells() != {}
  {
    assert Cell(b.west, b.south) in b.Cells();
  }

  lemma HeldCells(plots: seq<Plot>, i: nat, b: Bounds)
    requires Holds(plots, i, b)
    ensures i < |plots| && b.Cells() <= plots[i].cells
  {
    hide Rect;
    forall c | c in b.Cells()
      ensures c in plots[i].cells
    {
      assert OwnerAt(plots, c) == i;
    }
  }

  lemma CarveIsDisjoint(l: Land, i: nat, b: Bounds, globalId: Bytes, owner: Bytes, claimDate: int)
    requires Disjoint(l.plots) && Holds(l.plots, i, b)
    ensures Disjoint(Carve(l, i, b, globalId, owner, claimDate).plots)
  {
    hide Rect, OwnerAt;
    var plots := Carve(l, i, b, globalId, owner, claimDate).plots;
    forall x, y, c | 0 <= x < y < |plots| && c in plots[x].cells
      ensures c !in plots[y].cells
    {
      assert c in l.plots[x].cells;
      if y == |l.plots| && c in b.Cells() {
        OwnerIs(l.plots, c, x);
      }
    }
  }

  // ----- join keeps the partition -----

  lemma {:induction false} InCellsOf(plots: seq<Plot>, ids: set<int>, c: Cell)
    ensures c in CellsOf(plots, ids) <==> exists p :: p in plots && p.info.localId in ids && c in p.cells
    decreases |plots|
  {
    if plots != [] {
      InCellsOf(plots[1..], ids, c);
    }
  }

  /** Where a plot of the merged list came from. */
  ghost predicate CameFrom(p: Plot, q: Plot, ids: set<int>, master: int, cells: set<Cell>) {
    if q.info.localId == master then p == q.(cells := cells) else q.info.localId !in ids && p == q
  }

  lemma {:induction false} InMerge(plots: seq<Plot>, ids: set<int>, master: int, cells: set<Cell>, p: Plot)
    ensures p in Merge(plots, ids, master, cells) <==> exists q :: q in plots && CameFrom(p, q, ids, master, cells)
    decreases |plots|
  {
    if plots != [] {
      var first, rest := plots[0], plots[1..];
      InMerge(rest, ids, master, cells, p);
      assert forall q :: q in plots <==> q == first || q in rest;
      assert p in Merge(plots, ids, master, cells) <==>
        CameFrom(p, first, ids, master, cells) || p in Merge(rest, ids, master, cells);
    }
  }

  lemma {:induction false} MergeKeepsIds(plots: seq<Plot>, ids: set<int>, master: int, cells: set<Cell>)
    requires UniqueIds(plots)
    ensures UniqueIds(Merge(plots, ids, master, cells))
    decreases |plots|
  {
    if plots != [] {
      var rest := Merge(plots[1..], ids, master, cells);
      MergeKeepsIds(plots[1..], ids, master, cells);
      forall j | 0 <= j < |rest|
        ensures rest[j].info.localId != plots[0].info.localId
      {
        InMerge(plots[1..], ids, master, cells, rest[j]);
        var q :| q in plots[1..] && CameFrom(rest[j], q, ids, master, cells);
        var k :| 0 <= k < |plots[1..]| && plots[1..][k] == q;
        assert plots[k + 1] == q;
      }
    }
  }

  /** Disjointness of a list with unique ids, said of its members. */
  lemma DisjointMembers(plots: seq<Plot>)
    requires UniqueIds(plots)
    ensures Disjoint(plots) <==>
      forall p, q, c :: p in plots && q in plots && p.info.localId != q.info.localId && c in p.cells ==> c !in q.cells
  {
    if forall p, q, c :: p in plots && q in plots && p.info.localId != q.info.localId && c in p.cells ==> c !in q.cells {
      forall i, j, c | 0 <= i < j < |plots| && c in plots[i].cells
        ensures c !in plots[j].cells
      {
        assert plots[i] in plots && plots[j] in plots;
      }
    }
  }

  lemma MergeKeeps(l: Land, ids: set<int>, master: int)
    requires Partition(l) && master in ids
    requires exists p :: p in l.plots && p.info.localId == master
    ensures Partition(l.(plots := Merge(l.plots, ids, master, CellsOf(l.plots, ids))))
  {
    hide Rect, OwnerAt, Merge, CellsOf, Disjoint, UniqueIds;
    var cells := CellsOf(l.plots, ids);
    var plots := Merge(l.plots, ids, master, cells);
    MergeKeepsIds(l.plots, ids, master, cells);
    MergedAreDisjoint(l.plots, ids, master);
    MergedIsSound(l, ids, master);
    forall c | c in Grid(l.edge)
      ensures OwnerAt(plots, c) < |plots|
    {
      MergedCovers(l, ids, master, c);
    }
    hide Sound;
  }

  lemma MergedIsSound(l: Land, ids: set<int>, master: int)
    requires Partition(l) && master in ids
    ensures Sound(l.(plots := Merge(l.plots, ids, master, CellsOf(l.plots, ids))))
  {
    hide Partition, Rect, OwnerAt, Merge, CellsOf;
    forall p | p in Merge(l.plots, ids, master, CellsOf(l.plots, ids))
      ensures p.info.localId <= l.lastId && p.cells != {} && p.cells <= Grid(l.edge)
    {
      MergedIsGood(l, ids, master, p);
    }
  }

  lemma MergedAreDisjoint(old_: seq<Plot>, ids: set<int>, master: int)
    requires UniqueIds(old_) && Disjoint(old_) && master in ids
    ensures Disjoint(Merge(old_, ids, master, CellsOf(old_, ids)))
  {
    hide Merge, CellsOf;
    var cells := CellsOf(old_, ids);
    var plots := Merge(old_, ids, master, cells);
    MergeKeepsIds(old_, ids, master, cells);
    DisjointMembers(old_);
    DisjointMembers(plots);
    hide Disjoint;
    forall p, q, c | p in plots && q in plots && p.info.localId != q.info.localId && c in p.cells
      ensures c !in q.cells
    {
      InMerge(old_, ids, master, cells, p);
      InMerge(old_, ids, master, cells, q);
      InCellsOf(old_, ids, c);
    }
  }

  lemma MergedIsGood(l: Land, ids: set<int>, master: int, p: Plot)
    requires Partition(l) && master in ids
    requires p in Merge(l.plots, ids, master, CellsOf(l.plots, ids))
    ensures p.info.localId <= l.lastId && p.cells != {} && p.cells <= Grid(l.edge)
  {
    hide Rect, OwnerAt, Merge, CellsOf, Disjoint;
    var cells := CellsOf(l.plots, ids);
    InMerge(l.plots, ids, master, cells, p);
    var q :| q in l.plots && CameFrom(p, q, ids, master, cells);
    if q.info.localId == master {
      var d :| d in q.cells;
      InCellsOf(l.plots, ids, d);
      forall c | c in cells
        ensures c in Grid(l.edge)
      {
        InCellsOf(l.plots, ids, c);
      }
    }
  }

  lemma MergedCovers(l: Land, ids: set<int>, master: int, c: Cell)
    requires Partition(l) && master in ids && c in Grid(l.edge)
    requires exists p :: p in l.plots && p.info.localId == master
    ensures var plots := Merge(l.plots, ids, master, CellsOf(l.plots, ids)); OwnerAt(plots, c) < |plots|
  {
    hide Rect, Merge, CellsOf, Disjoint;
    var cells := CellsOf(l.plots, ids);
    var plots := Merge(l.plots, ids, master, cells);
    var q := l.plots[OwnerAt(l.plots, c)];
    var p: Plot;
    if q.info.localId in ids {
      var m :| m in l.plots && m.info.localId == master;
      p := m.(cells := cells);
      InCellsOf(l.plots, ids, c);
      assert CameFrom(p, m, ids, master, cells);
    } else {
      p := q;
      assert CameFrom(p, q, ids, master, cells);
    }
    InMerge(l.plots, ids, master, cells, p);
    var k :| 0 <= k < |plots| && plots[k] == p;
    Owned(plots, c, k);
  }

  // ----- every run -----

  datatype Op =
    | DivideOp(bounds: Metres, globalId: Bytes, owner: Bytes, claimDate: int)
    | JoinOp(bounds: Metres, owner: Bytes)

  ghost function Step(l: Land, op: Op): Land {
    match op
    case DivideOp(m, globalId, owner, claimDate) => Divide(l, m, globalId, owner, claimDate).0
    case JoinOp(m, owner) => Join(l, m, owner).0
  }

  const REGION_NAME: Bytes := "Homeworldz"

  /** One parcel over the whole region. */
  function Single(edge: nat, globalId: Bytes, owner: Bytes, claimDate: int): Land {
    Land(edge, 1, [Plot(Info(globalId, 1, REGION_NAME, owner, claimDate), Grid(edge))])
  }

  lemma SingleIsPartition(edge: nat, globalId: Bytes, owner: Bytes, claimDate: int)
    requires edge > 0
    ensures Partition(Single(edge, globalId, owner, claimDate))
  {
    assert Cell(0, 0) in Grid(edge);
  }

  lemma StepKeeps(l: Land, op: Op)
    requires Partition(l)
    ensures Partition(Step(l, op)) && Step(l, op).edge == l.edge
  {
    hide Partition, Carve, Merge, CellsOf, Overlapped, OwnerAt;
    match op
    case DivideOp(m, globalId, owner, claimDate) =>
      var b := Overlapped(m);
      if CanDivide(l, b) {
        InsideGrid(b, l.edge);
        var i := OwnerAt(l.plots, Cell(b.west, b.south));
        CarveKeeps(l, i, b, globalId, owner, claimDate);
        CarveEdge(l, i, b, globalId, owner, claimDate);
      }
    case JoinOp(m, owner) =>
      var b := Clamped(Overlapped(m), l.edge);
      if CanJoin(l, b, owner) {
        var ids := Touched(l.plots, b);
        TouchedLeast(l.plots, b);
        MergeKeeps(l, ids, Least(ids));
      }
  }

  lemma CarveEdge(l: Land, i: nat, b: Bounds, globalId: Bytes, owner: Bytes, claimDate: int)
    requires i < |l.plots|
    ensures Carve(l, i, b, globalId, owner, claimDate).edge == l.edge
  {
  }

  lemma InsideGrid(b: Bounds, edge: nat)
    requires 0 <= b.west && 0 <= b.south && b.east <= edge && b.north <= edge
    ensures b.Cells() <= Grid(edge)
  {
  }

  lemma TouchedLeast(plots: seq<Plot>, b: Bounds)
    requires Touched(plots, b) != {}
    ensures IsLeast(Least(Touched(plots, b)), Touched(plots, b))
    ensures exists p :: p in plots && p.info.localId == Least(Touched(plots, b))
  {
    hide Rect, OwnerAt;
    LeastExists(Touched(plots, b));
    var m := Least(Touched(plots, b));
    var c :| c in b.Cells() && OwnerAt(plots, c) < |plots| && plots[OwnerAt(plots, c)].info.localId == m;
    assert plots[OwnerAt(plots, c)] in plots;
  }

  ghost predicate IsRun(lands: seq<Land>, ops: seq<Op>) {
    && |lands| == |ops| + 1
    && (exists edge: nat, globalId, owner, claimDate :: edge > 0 && lands[0] == Single(edge, globalId, owner, claimDate))
    && forall k :: 0 <= k < |ops| ==> lands[k + 1] == Step(lands[k], ops[k])
  }

  /** Parcels always partition the region, and their areas always add up to it. */
  lemma {:induction false} EveryRunPartitions(lands: seq<Land>, ops: seq<Op>, k: nat)
    requires IsRun(lands, ops) && k < |lands|
    ensures Partition(lands[k]) && lands[k].edge == lands[0].edge
    ensures 16 * TotalCells(lands[k].plots) == (4 * lands[0].edge) * (4 * lands[0].edge)
    decreases k
  {
    hide Partition, Step, TotalCells;
    if k == 0 {
      var edge: nat, globalId, owner, claimDate :| edge > 0 && lands[0] == Single(edge, globalId, owner, claimDate);
      SingleIsPartition(edge, globalId, owner, claimDate);
    } else {
      EveryRunPartitions(lands, ops, k - 1);
      StepKeeps(lands[k - 1], ops[k - 1]);
    }
    AreasAddUp(lands[k]);
  }

  // ----- a join undoes a divide -----

  lemma {:induction false} MergeAppend(a: seq<Plot>, b: seq<Plot>, ids: set<int>, master: int, cells: set<Cell>)
    ensures Merge(a + b, ids, master, cells) == Merge(a, ids, master, cells) + Merge(b, ids, master, cells)
    ensures CellsOf(a + b, ids) == CellsOf(a, ids) + CellsOf(b, ids)
    decreases |a|
  {
    if a == [] {
      assert a + b == b;
    } else {
      assert (a + b)[1..] == a[1..] + b && (a + b)[0] == a[0];
      MergeAppend(a[1..], b, ids, master, cells);
    }
  }

  lemma {:induction false} MergeNone(a: seq<Plot>, ids: set<int>, master: int, cells: set<Cell>)
    requires master in ids && forall p :: p in a ==> p.info.localId !in ids
    ensures Merge(a, ids, master, cells) == a && CellsOf(a, ids) == {}
    decreases |a|
  {
    if a != [] {
      MergeNone(a[1..], ids, master, cells);
    }
  }

  /** A successful divide, then a join that meets the source and the carved parcel and no other,
      by their common owner: every parcel is as it was before, and the source survives. */
  lemma JoinUndoesDivide(l: Land, m: Metres, globalId: Bytes, owner: Bytes, claimDate: int, again: Metres)
    requires Partition(l) && Divide(l, m, globalId, owner, claimDate).1.Some?
    requires var i := OwnerAt(l.plots, Cell(Overlapped(m).west, Overlapped(m).south));
      var divided := Divide(l, m, globalId, owner, claimDate).0;
      && !Clamped(Overlapped(again), l.edge).Empty() && l.plots[i].info.owner == owner
      && Touched(divided.plots, Clamped(Overlapped(again), l.edge)) == {l.plots[i].info.localId, l.lastId + 1}
    ensures var i := OwnerAt(l.plots, Cell(Overlapped(m).west, Overlapped(m).south));
      Join(Divide(l, m, globalId, owner, claimDate).0, again, owner)
        == (l.(lastId := l.lastId + 1), Some(l.plots[i].info.localId))
  {
    hide Rect, OwnerAt, Overlapped, Clamped, Touched, Merge, CellsOf;
    var b, again_ := Overlapped(m), Clamped(Overlapped(again), l.edge);
    var i := OwnerAt(l.plots, Cell(b.west, b.south));
    var s, n := l.plots[i].info.localId, l.lastId + 1;
    var divided := Carve(l, i, b, globalId, owner, claimDate);
    assert s != n && |{s, n}| == 2;
    LeastOfTwo(s, n);
    CarveMerges(l, i, b, globalId, owner, claimDate);
  }

  lemma LeastOfTwo(s: int, n: int)
    requires s < n
    ensures Least({s, n}) == s
  {
    LeastExists({s, n});
  }

  lemma CarveMerges(l: Land, i: nat, b: Bounds, globalId: Bytes, owner: Bytes, claimDate: int)
    requires Partition(l) && Holds(l.plots, i, b)
    ensures var divided := Carve(l, i, b, globalId, owner, claimDate);
      var ids := {l.plots[i].info.localId, l.lastId + 1};
      Merge(divided.plots, ids, l.plots[i].info.localId, CellsOf(divided.plots, ids)) == l.plots
  {
    hide Rect, OwnerAt, Merge, CellsOf, Holds, Partition;
    HeldCells(l.plots, i, b);
    OthersAreElsewhere(l, i);
    var ps, s, n := l.plots, l.plots[i].info.localId, l.lastId + 1;
    var left := ps[i].(cells := ps[i].cells - b.Cells());
    var carved := Plot(Info(globalId, n, NEW_NAME, owner, claimDate), b.Cells());
    var before, after := ps[..i], ps[i + 1..];
    Pieces(before, left, after, carved, {s, n}, s, ps[i].cells);
    Around(ps, i, left, carved);
    assert left.cells + carved.cells == ps[i].cells;
    assert left.(cells := ps[i].cells) == ps[i];
  }

  lemma Around<T>(s: seq<T>, i: nat, x: T, y: T)
    requires i < |s|
    ensures s[i := x] + [y] == s[..i] + ([x] + (s[i + 1..] + [y]))
    ensures s == s[..i] + ([s[i]] + s[i + 1..])
  {
  }

  lemma OthersAreElsewhere(l: Land, i: nat)
    requires Partition(l) && i < |l.plots|
    ensures var ids := {l.plots[i].info.localId, l.lastId + 1};
      && (forall p :: p in l.plots[..i] ==> p.info.localId !in ids)
      && (forall p :: p in l.plots[i + 1..] ==> p.info.localId !in ids)
      && l.plots[i].info.localId != l.lastId + 1
  {
    hide Rect;
    forall j | 0 <= j < |l.plots|
      ensures l.plots[j].info.localId <= l.lastId
    {
      assert l.plots[j] in l.plots;
    }
  }

  lemma Pieces(before: seq<Plot>, left: Plot, after: seq<Plot>, carved: Plot, ids: set<int>, master: int, cells: set<Cell>)
    requires left.info.localId == master != carved.info.localId && ids == {master, carved.info.localId}
    requires forall p :: p in before + after ==> p.info.localId !in ids
    ensures var all := before + ([left] + (after + [carved]));
      && CellsOf(all, ids) == left.cells + carved.cells
      && Merge(all, ids, master, cells) == before + ([left.(cells := cells)] + after)
  {
    MergeAppend(before, [left] + (after + [carved]), ids, master, cells);
    MergeAppend([left], after + [carved], ids, master, cells);
    MergeAppend(after, [carved], ids, master, cells);
    MergeNone(before, ids, master, cells);
    MergeNone(after, ids, master, cells);
    assert Merge([left], ids, master, cells) == [left.(cells := cells)] && CellsOf([left], ids) == left.cells;
    assert Merge([carved], ids, master, cells) == [] && CellsOf([carved], ids) == carved.cells;
  }
}
