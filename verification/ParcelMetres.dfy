/** Divides and joins, by world metres. */
module ParcelMetres {
  import opened Prelude
  import opened Parcels

  /** The four-metre square of the cell and the rectangle, its corners given either way round, have
      some inside in common. */
  predicate Covers(m: Metres, c: Cell) {
    && (4.0 * c.x as real < m.west || 4.0 * c.x as real < m.east)
    && (m.west < 4.0 * (c.x + 1) as real || m.east < 4.0 * (c.x + 1) as real)
    && (4.0 * c.y as real < m.south || 4.0 * c.y as real < m.north)
    && (m.south < 4.0 * (c.y + 1) as real || m.north < 4.0 * (c.y + 1) as real)
  }

  predicate InRegion(edge: nat, c: Cell) {
    0 <= c.x < edge && 0 <= c.y < edge
  }

  // ----- cells and metres -----

  lemma FloorIs(r: real, x: int)
    ensures r.Floor <= x <==> r < (x + 1) as real
  {
  }

  lemma CeilingIs(r: real, x: int)
    ensures x < Ceiling(r) <==> x as real < r
  {
    FloorIs(-r, -x - 1);
  }

  lemma Along(a: real, b: real, x: int)
    ensures (Lesser(a, b) / 4.0).Floor <= x < Ceiling(Greater(a, b) / 4.0)
      <==> (4.0 * x as real < a || 4.0 * x as real < b) && (a < 4.0 * (x + 1) as real || b < 4.0 * (x + 1) as real)
  {
    FloorIs(Lesser(a, b) / 4.0, x);
    CeilingIs(Greater(a, b) / 4.0, x);
  }

  lemma OverlappedCovers(m: Metres, c: Cell)
    ensures c in Overlapped(m).Cells() <==> Covers(m, c)
  {
    Along(m.west, m.east, c.x);
    Along(m.south, m.north, c.y);
  }

  lemma GridIs(edge: nat, c: Cell)
    ensures c in Grid(edge) <==> InRegion(edge, c)
  {
  }

  lemma ClampedCovers(m: Metres, edge: nat, c: Cell)
    ensures c in Clamped(Overlapped(m), edge).Cells() <==> Covers(m, c) && InRegion(edge, c)
  {
    OverlappedCovers(m, c);
  }

  lemma EmptyIs(b: Bounds)
    ensures b.Empty() <==> forall c :: c !in b.Cells()
  {
    if !b.Empty() {
      assert Cell(b.west, b.south) in b.Cells();
    }
  }

  lemma InsideIs(b: Bounds, edge: nat)
    requires !b.Empty()
    ensures (0 <= b.west && 0 <= b.south && b.east <= edge && b.north <= edge) <==> forall c :: c in b.Cells() ==> InRegion(edge, c)
  {
    assert Cell(b.west, b.south) in b.Cells() && Cell(b.east - 1, b.north - 1) in b.Cells();
  }

  /** A new region is one parcel of all its cells, named after the grid, the first of its ids. */
  lemma SingleMeans(edge: nat, globalId: Bytes, owner: Bytes, claimDate: int, c: Cell)
    ensures var l := Single(edge, globalId, owner, claimDate);
      && l.edge == edge && l.lastId == 1 && |l.plots| == 1
      && l.plots[0].info == Info(globalId, 1, "Homeworldz", owner, claimDate)
      && (c in l.plots[0].cells <==> InRegion(edge, c))
  {
    GridIs(edge, c);
  }

  // ----- divide -----

  /** The rectangle covers some cell, all it covers is one plot's, and the plot has more. */
  ghost predicate Carvable(l: Land, m: Metres) {
    && (exists c :: Covers(m, c)) && (forall c :: Covers(m, c) ==> InRegion(l.edge, c))
    && exists i :: 0 <= i < |l.plots| && PartOf(l.plots[i], m)
  }

  ghost predicate PartOf(p: Plot, m: Metres) {
    && (forall c :: Covers(m, c) ==> c in p.cells) && exists c :: c in p.cells && !Covers(m, c)
  }

  lemma CanDivideIs(l: Land, m: Metres)
    requires Partition(l)
    ensures CanDivide(l, Overlapped(m)) <==> Carvable(l, m)
    ensures CanDivide(l, Overlapped(m)) ==>
      var b := Overlapped(m); var i := OwnerAt(l.plots, Cell(b.west, b.south));
      i < |l.plots| && PartOf(l.plots[i], m)
  {
    hide Overlapped, Rect, Covers, OwnerAt, Disjoint, UniqueIds, Sound, Covered, InRegion;
    var b := Overlapped(m);
    forall c
      ensures c in b.Cells() <==> Covers(m, c)
    {
      OverlappedCovers(m, c);
    }
    EmptyIs(b);
    if !b.Empty() {
      InsideIs(b, l.edge);
      HeldPart(l, m, b);
    }
  }

  lemma HeldPart(l: Land, m: Metres, b: Bounds)
    requires Disjoint(l.plots) && !b.Empty() && forall c :: c in b.Cells() <==> Covers(m, c)
    ensures var i := OwnerAt(l.plots, Cell(b.west, b.south));
      && (Holds(l.plots, i, b) && |l.plots[i].cells| != b.Size() ==> i < |l.plots| && PartOf(l.plots[i], m))
      && ((exists j :: 0 <= j < |l.plots| && PartOf(l.plots[j], m)) ==> Holds(l.plots, i, b) && |l.plots[i].cells| != b.Size())
  {
    hide Rect, Covers, OwnerAt, Disjoint;
    var first := Cell(b.west, b.south);
    var i := OwnerAt(l.plots, first);
    assert first in b.Cells() by { EmptyIs(b); CornerIn(b); }
    if Holds(l.plots, i, b) && |l.plots[i].cells| != b.Size() {
      DivideKeepsPartOfTheSource(l, b, i);
      HeldCells(l.plots, i, b);
      ProperPart(b.Cells(), l.plots[i].cells);
    }
    if j: nat :| j < |l.plots| && PartOf(l.plots[j], m) {
      forall c | c in b.Cells()
        ensures OwnerAt(l.plots, c) == j
      {
        OwnerIs(l.plots, c, j);
      }
      DivideKeepsPartOfTheSource(l, b, j);
    }
  }

  lemma CornerIn(b: Bounds)
    requires !b.Empty()
    ensures Cell(b.west, b.south) in b.Cells()
  {
  }

  /** A divide is granted exactly when the rectangle covers part of one plot and nothing else. The
      new plot then has the cells the rectangle covers, every other plot those of its own that it
      does not cover, and nothing else changes. */
  lemma DivideMeans(l: Land, m: Metres, globalId: Bytes, owner: Bytes, claimDate: int)
    requires Partition(l)
    ensures var (n, id) := Divide(l, m, globalId, owner, claimDate);
      && (id.Some? <==> Carvable(l, m)) && n.edge == l.edge && (id.None? ==> n == l)
      && (id.Some? ==>
            && id.value == n.lastId == l.lastId + 1 && |n.plots| == |l.plots| + 1
            && n.plots[|l.plots|].info == Info(globalId, id.value, "Parcel", owner, claimDate)
            && (forall c :: c in n.plots[|l.plots|].cells <==> Covers(m, c))
            && (forall j :: 0 <= j < |l.plots| ==> n.plots[j].info == l.plots[j].info)
            && forall j, c :: 0 <= j < |l.plots| ==> (c in n.plots[j].cells <==> c in l.plots[j].cells && !Covers(m, c)))
  {
    hide Overlapped, Rect, Covers, OwnerAt, UniqueIds, Sound, Covered, CanDivide, Carvable;
    CanDivideIs(l, m);
    var b := Overlapped(m);
    var n := Divide(l, m, globalId, owner, claimDate).0;
    if CanDivide(l, b) {
      var i := OwnerAt(l.plots, Cell(b.west, b.south));
      forall c
        ensures c in n.plots[|l.plots|].cells <==> Covers(m, c)
      {
        OverlappedCovers(m, c);
      }
      forall j, c | 0 <= j < |l.plots|
        ensures c in n.plots[j].cells <==> c in l.plots[j].cells && !Covers(m, c)
      {
        OverlappedCovers(m, c);
        if j != i && Covers(m, c) {
          assert c in l.plots[i].cells;
          assert Disjoint(l.plots) && c !in l.plots[j].cells by { OnlyIn(l.plots, c, i, j); }
        }
      }
    }
  }

  lemma OnlyIn(plots: seq<Plot>, c: Cell, i: nat, j: nat)
    requires Disjoint(plots) && i < |plots| && j < |plots| && i != j && c in plots[i].cells
    ensures c !in plots[j].cells
  {
  }

  // ----- join -----

  ghost predicate Meets(m: Metres, p: Plot) {
    exists c :: c in p.cells && Covers(m, c)
  }

  ghost predicate TwoMeet(l: Land, m: Metres) {
    exists i, j :: 0 <= i < j < |l.plots| && Meets(m, l.plots[i]) && Meets(m, l.plots[j])
  }

  /** The plot a join leaves: the info of the least id met, and the cells of all that were met. */
  ghost predicate Joined(l: Land, m: Metres, id: int, p: Plot) {
    && p.info.localId == id && (exists q :: q in l.plots && Meets(m, q) && q.info == p.info)
    && forall c :: c in p.cells <==> exists r :: r in l.plots && Meets(m, r) && c in r.cells
  }

  lemma TouchedIs(l: Land, m: Metres, i: nat)
    requires Partition(l) && i < |l.plots|
    ensures l.plots[i].info.localId in Touched(l.plots, Clamped(Overlapped(m), l.edge)) <==> Meets(m, l.plots[i])
  {
    hide Overlapped, Clamped, Rect, Covers, Covered, Disjoint, UniqueIds, Grid, InRegion;
    var b := Clamped(Overlapped(m), l.edge);
    if Meets(m, l.plots[i]) {
      var c :| c in l.plots[i].cells && Covers(m, c);
      assert l.plots[i] in l.plots;
      assert c in Grid(l.edge);
      GridIs(l.edge, c);
      ClampedCovers(m, l.edge, c);
      OwnerIs(l.plots, c, i);
    }
    if l.plots[i].info.localId in Touched(l.plots, b) {
      var c :| c in b.Cells() && OwnerAt(l.plots, c) < |l.plots| && l.plots[OwnerAt(l.plots, c)].info.localId == l.plots[i].info.localId;
      ClampedCovers(m, l.edge, c);
      SameId(l.plots, OwnerAt(l.plots, c), i);
    }
  }

  lemma SameId(plots: seq<Plot>, i: nat, j: nat)
    requires UniqueIds(plots) && i < |plots| && j < |plots| && plots[i].info.localId == plots[j].info.localId
    ensures i == j
  {
  }

  /** Every id touched is some plot's. */
  lemma TouchedIsSome(plots: seq<Plot>, b: Bounds, id: int)
    requires id in Touched(plots, b)
    ensures exists i :: 0 <= i < |plots| && plots[i].info.localId == id
  {
  }

  lemma TwoTouched(l: Land, m: Metres)
    requires Partition(l)
    ensures |Touched(l.plots, Clamped(Overlapped(m), l.edge))| >= 2 <==> TwoMeet(l, m)
  {
    hide Touched, Overlapped, Clamped, Meets, Sound, Disjoint, Covered;
    var ids := Touched(l.plots, Clamped(Overlapped(m), l.edge));
    if TwoMeet(l, m) {
      var i: nat, j: nat :| i < j < |l.plots| && Meets(m, l.plots[i]) && Meets(m, l.plots[j]);
      TouchedIs(l, m, i);
      TouchedIs(l, m, j);
      TwoAreTwo(ids, l.plots[i].info.localId, l.plots[j].info.localId);
    }
    if |ids| >= 2 {
      var x, y := TwoOf(ids);
      TouchedIsSome(l.plots, Clamped(Overlapped(m), l.edge), x);
      TouchedIsSome(l.plots, Clamped(Overlapped(m), l.edge), y);
      var i: nat :| i < |l.plots| && l.plots[i].info.localId == x;
      var j: nat :| j < |l.plots| && l.plots[j].info.localId == y;
      TouchedIs(l, m, i);
      TouchedIs(l, m, j);
      assert TwoMeet(l, m) by {
        if i < j {
          assert Meets(m, l.plots[i]) && Meets(m, l.plots[j]);
        } else {
          assert Meets(m, l.plots[j]) && Meets(m, l.plots[i]);
        }
      }
    }
  }

  lemma TwoAreTwo(s: set<int>, x: int, y: int)
    requires x in s && y in s && x != y
    ensures |s| >= 2
  {
    assert s == {x, y} + (s - {x, y});
  }

  lemma TwoOf(s: set<int>) returns (x: int, y: int)
    requires |s| >= 2
    ensures x in s && y in s && x != y
  {
    x := Element(s);
    assert s == {x} + (s - {x});
    y := Element(s - {x});
  }

  lemma CanJoinIs(l: Land, m: Metres, owner: Bytes)
    requires Partition(l)
    ensures CanJoin(l, Clamped(Overlapped(m), l.edge), owner)
      <==> TwoMeet(l, m) && forall p :: p in l.plots && Meets(m, p) ==> p.info.owner == owner
  {
    hide Touched, Overlapped, Clamped, Meets, TwoMeet, Partition;
    var b := Clamped(Overlapped(m), l.edge);
    TwoTouched(l, m);
    forall i: nat | i < |l.plots|
      ensures l.plots[i].info.localId in Touched(l.plots, b) <==> Meets(m, l.plots[i])
    {
      TouchedIs(l, m, i);
    }
    if b.Empty() {
      EmptyIs(b);
      NothingTouched(l.plots, b);
    }
    forall p | p in l.plots && Meets(m, p) && CanJoin(l, b, owner)
      ensures p.info.owner == owner
    {
      var i :| 0 <= i < |l.plots| && l.plots[i] == p;
    }
  }

  lemma NothingTouched(plots: seq<Plot>, b: Bounds)
    requires forall c :: c !in b.Cells()
    ensures Touched(plots, b) == {}
  {
    hide OwnerAt, Rect;
  }

  /** A join is granted exactly when the rectangle meets two plots or more, and all it meets are the
      owner's. It then leaves the plots it does not meet, as they were, and one of all the cells of
      those it meets, under the least of their ids. */
  lemma JoinMeans(l: Land, m: Metres, owner: Bytes)
    requires Partition(l)
    ensures var (n, id) := Join(l, m, owner);
      && (id.Some? <==> TwoMeet(l, m) && forall p :: p in l.plots && Meets(m, p) ==> p.info.owner == owner)
      && n.edge == l.edge && n.lastId == l.lastId && (id.None? ==> n == l)
      && (id.Some? ==>
            && (forall p :: p in l.plots && Meets(m, p) ==> id.value <= p.info.localId)
            && (exists p :: p in n.plots && Joined(l, m, id.value, p))
            && forall p :: p in n.plots <==> (p in l.plots && !Meets(m, p)) || Joined(l, m, id.value, p))
  {
    hide Touched, Overlapped, Clamped, Meets, TwoMeet, Partition, CanJoin, Merge, CellsOf, Joined, Least;
    CanJoinIs(l, m, owner);
    var b := Clamped(Overlapped(m), l.edge);
    if CanJoin(l, b, owner) {
      assert |Touched(l.plots, b)| >= 2 by { CanJoinTouches(l, b, owner); }
      MergedMeans(l, m, b);
    }
  }

  lemma CanJoinTouches(l: Land, b: Bounds, owner: Bytes)
    requires CanJoin(l, b, owner)
    ensures |Touched(l.plots, b)| >= 2
  {
  }

  lemma MergedMeans(l: Land, m: Metres, b: Bounds)
    requires Partition(l) && b == Clamped(Overlapped(m), l.edge) && |Touched(l.plots, b)| >= 2
    ensures var ids := Touched(l.plots, b); var id := Least(ids);
      var plots := Merge(l.plots, ids, id, CellsOf(l.plots, ids));
      && (forall p :: p in l.plots && Meets(m, p) ==> id <= p.info.localId)
      && (exists p :: p in plots && Joined(l, m, id, p))
      && forall p :: p in plots <==> (p in l.plots && !Meets(m, p)) || Joined(l, m, id, p)
  {
    hide Touched, Overlapped, Clamped, Meets, Merge, CellsOf, Joined, Sound, Disjoint, Covered, UniqueIds;
    var ids := Touched(l.plots, b);
    var id := Least(ids);
    assert IsLeast(id, ids) by { LeastExists(ids); }
    forall p | p in l.plots
      ensures p.info.localId in ids <==> Meets(m, p)
    {
      var i: nat :| i < |l.plots| && l.plots[i] == p;
      TouchedIs(l, m, i);
    }
    var cells := CellsOf(l.plots, ids);
    forall c
      ensures c in cells <==> exists r :: r in l.plots && Meets(m, r) && c in r.cells
    {
      InCellsOf(l.plots, ids, c);
    }
    TouchedIsSome(l.plots, b, id);
    var i: nat :| i < |l.plots| && l.plots[i].info.localId == id;
    var master := l.plots[i];
    assert master in l.plots && Meets(m, master);
    forall p
      ensures p in Merge(l.plots, ids, id, cells) <==> (p in l.plots && !Meets(m, p)) || Joined(l, m, id, p)
    {
      InMerge(l.plots, ids, id, cells, p);
      JoinedIs(l, m, id, cells, i, p);
      assert p == master.(cells := cells) ==> CameFrom(p, master, ids, id, cells);
      assert p in l.plots && !Meets(m, p) ==> CameFrom(p, p, ids, id, cells);
      if p in Merge(l.plots, ids, id, cells) {
        var q :| q in l.plots && CameFrom(p, q, ids, id, cells);
        if q.info.localId == id {
          SameId(l.plots, IndexOfPlot(l.plots, q), i);
        }
      }
    }
    JoinedIs(l, m, id, cells, i, master.(cells := cells));
  }

  function IndexOfPlot(plots: seq<Plot>, q: Plot): (i: nat)
    requires q in plots
    ensures i < |plots| && plots[i] == q
  {
    if plots[0] == q then 0 else 1 + IndexOfPlot(plots[1..], q)
  }

  lemma JoinedIs(l: Land, m: Metres, id: int, cells: set<Cell>, i: nat, p: Plot)
    requires UniqueIds(l.plots) && i < |l.plots| && l.plots[i].info.localId == id && Meets(m, l.plots[i])
    requires forall c :: c in cells <==> exists r :: r in l.plots && Meets(m, r) && c in r.cells
    ensures Joined(l, m, id, p) <==> p == l.plots[i].(cells := cells)
  {
    hide Meets, UniqueIds;
    if Joined(l, m, id, p) {
      var q :| q in l.plots && Meets(m, q) && q.info == p.info;
      SameId(l.plots, IndexOfPlot(l.plots, q), i);
      assert p.cells == cells;
    }
    assert l.plots[i] in l.plots;
  }
}
