/** The parcel set as the source has it: a list of parcels over packed bitmaps, edited in place,
    proved against the functions over sets of cells. */
module ParcelObject {
  import opened Prelude
  import opened Parcels
  import opened ParcelBits

  datatype Parcel = Parcel(info: Info, bitmap: seq<bv8>)

  ghost function PlotOf(p: Parcel, edge: nat): Plot {
    Plot(p.info, CellsIn(p.bitmap, edge))
  }

  ghost function PlotsOf(ps: seq<Parcel>, edge: nat): (plots: seq<Plot>)
    ensures |plots| == |ps| && forall i :: 0 <= i < |ps| ==> plots[i] == PlotOf(ps[i], edge)
  {
    seq(|ps|, i requires 0 <= i < |ps| => PlotOf(ps[i], edge))
  }

  lemma PlotsAppend(a: seq<Parcel>, p: Parcel, edge: nat)
    ensures PlotsOf(a + [p], edge) == PlotsOf(a, edge) + [PlotOf(p, edge)]
  {
  }

  lemma PlotsUpdate(a: seq<Parcel>, i: nat, p: Parcel, edge: nat)
    requires i < |a|
    ensures PlotsOf(a[i := p], edge) == PlotsOf(a, edge)[i := PlotOf(p, edge)]
  {
  }

  class ParcelSet {
    const edge: nat
    var lastLocalId: int
    var parcels: seq<Parcel>

    ghost function State(): Land
      reads this
    {
      Land(edge, lastLocalId, PlotsOf(parcels, edge))
    }

    /** One parcel over the whole region. */
    constructor (edge: nat, globalId: Bytes, owner: Bytes, claimDate: int)
      requires edge > 0
      ensures State() == Single(edge, globalId, owner, claimDate)
    {
      this.edge := edge;
      lastLocalId := 0;
      parcels := [];
      new;
      var id := NextLocalId();
      var bitmap := FullBitmap(edge);
      parcels := [Parcel(Info(globalId, id, REGION_NAME, owner, claimDate), bitmap)];
      assert PlotsOf(parcels, edge) == [PlotOf(parcels[0], edge)];
    }

    method NextLocalId() returns (id: int)
      modifies this`lastLocalId
      ensures id == lastLocalId == old(lastLocalId) + 1
    {
      lastLocalId := lastLocalId + 1;
      id := lastLocalId;
    }

    /** The first parcel that has the cell. */
    method OwnerOf(x: int, y: int) returns (i: nat)
      requires InGrid(edge, x, y)
      ensures i == OwnerAt(State().plots, Cell(x, y))
    {
      hide BitGet, Rect, OwnerAt;
      CellInGrid(edge, x, y);
      i := 0;
      while i < |parcels|
        invariant i <= |parcels| && forall j :: 0 <= j < i ==> Cell(x, y) !in State().plots[j].cells
      {
        if BitGet(parcels[i].bitmap, edge, x, y) {
          return;
        }
        i := i + 1;
      }
    }

    method ParcelAtCell(x: int, y: int) returns (i: Option<nat>)
      ensures i == if InGrid(edge, x, y) && OwnerAt(State().plots, Cell(x, y)) < |parcels|
                   then Some(OwnerAt(State().plots, Cell(x, y))) else None
    {
      if x < 0 || y < 0 || x >= edge || y >= edge {
        return None;
      }
      var found := OwnerOf(x, y);
      return if found < |parcels| then Some(found) else None;
    }

    /** The one parcel every cell of the rectangle belongs to. */
    method HoldingParcel(b: Bounds) returns (source: Option<nat>)
      requires 0 <= b.west && 0 <= b.south && b.east <= edge && b.north <= edge && !b.Empty()
      ensures var i := OwnerAt(State().plots, Cell(b.west, b.south));
        source == if Holds(State().plots, i, b) then Some(i) else None
    {
      hide Rect, OwnerAt, Visited, PlotsOf, Holds, BitGet, CellsIn, Bounds.Cells;
      source := None;
      ghost var plots := State().plots;
      ghost var first := OwnerAt(plots, Cell(b.west, b.south));
      var y := b.south;
      VisitedSteps(b, b.west, b.south);
      CellOf(b, b.west, b.south);
      while y < b.north
        invariant b.south <= y <= b.north
        invariant forall c :: c in Visited(b, b.west, y) ==> OwnerAt(plots, c) == first
        invariant if y == b.south then source == None else source == Some(first) && first < |parcels|
      {
        var x := b.west;
        while x < b.east
          invariant b.west <= x <= b.east
          invariant forall c :: c in Visited(b, x, y) ==> OwnerAt(plots, c) == first
          invariant if y == b.south && x == b.west then source == None else source == Some(first) && first < |parcels|
        {
          VisitedSteps(b, x, y);
          CellOf(b, x, y);
          var here := OwnerOf(x, y);
          if here == |parcels| {
            NotHeld(plots, first, b, Cell(x, y));
            return None;
          }
          if source == None {
            source := Some(here);
          } else if source != Some(here) {
            NotHeld(plots, first, b, Cell(x, y));
            return None;
          }
          x := x + 1;
        }
        VisitedSteps(b, b.west, y);
        y := y + 1;
      }
      VisitedSteps(b, b.west, b.south);
      AllHeld(plots, first, b);
    }

    /** Carves a rectangle that lies in one parcel, and is not all of it, into a parcel of its own. */
    method DivideParcel(m: Metres, globalId: Bytes, owner: Bytes, claimDate: int) returns (id: Option<int>)
      modifies this
      ensures (State(), id) == Divide(old(State()), m, globalId, owner, claimDate)
    {
      hide Overlapped, Rect, OwnerAt, CellsIn, Holds;
      var b := Overlapped(m);
      if b.west < 0 || b.south < 0 || b.east > edge || b.north > edge {
        return None;
      }
      if b.west >= b.east || b.south >= b.north {
        return None;
      }
      var source := HoldingParcel(b);
      if source == None {
        return None;
      }
      var i := source.value;
      HolderExists(State().plots, i, b);
      var area := Area(parcels[i].bitmap, edge);
      if area == (b.east - b.west) * (b.north - b.south) * 16 {
        return None;
      }
      var local := NextLocalId();
      var left, bits := MoveRect(parcels[i].bitmap, Zeros((edge * edge + 7) / 8), edge, b);
      ZerosAreEmpty((edge * edge + 7) / 8, edge);
      var carved := Parcel(Info(globalId, local, NEW_NAME, owner, claimDate), bits);
      PlotsUpdate(parcels, i, parcels[i].(bitmap := left), edge);
      PlotsAppend(parcels[i := parcels[i].(bitmap := left)], carved, edge);
      parcels := parcels[i := parcels[i].(bitmap := left)];
      parcels := parcels + [carved];
      return Some(local);
    }

    /** The ids of the parcels the rectangle meets, each once, in the order they are met. */
    method TouchedIds(b: Bounds) returns (touched: seq<int>)
      requires 0 <= b.west && 0 <= b.south && b.east <= edge && b.north <= edge && !b.Empty()
      ensures Distinct(touched) && Members(touched) == Touched(State().plots, b)
    {
      hide Rect, OwnerAt, Visited, PlotsOf, Distinct, Members;
      touched := [];
      NoMembers();
      var y := b.south;
      VisitedSteps(b, b.west, b.south);
      while y < b.north
        invariant b.south <= y <= b.north && Distinct(touched)
        invariant Members(touched) == IdsAt(State().plots, Visited(b, b.west, y))
      {
        var x := b.west;
        while x < b.east
          invariant b.west <= x <= b.east && Distinct(touched)
          invariant Members(touched) == IdsAt(State().plots, Visited(b, x, y))
        {
          VisitedSteps(b, x, y);
          var here := OwnerOf(x, y);
          IdsAtOneMore(State().plots, Visited(b, x, y), Cell(x, y));
          if here < |parcels| {
            var id := parcels[here].info.localId;
            OneMoreMember(touched, id);
            if id !in touched {
              touched := touched + [id];
            }
          }
          x := x + 1;
        }
        VisitedSteps(b, b.west, y);
        y := y + 1;
      }
      VisitedSteps(b, b.west, b.south);
    }

    method FindByLocalId(id: int) returns (i: nat)
      requires UniqueIds(State().plots) && exists p :: p in State().plots && p.info.localId == id
      ensures i < |parcels| && parcels[i].info.localId == id
      ensures forall j :: 0 <= j < |parcels| && parcels[j].info.localId == id ==> j == i
    {
      ghost var p :| p in State().plots && p.info.localId == id;
      ghost var k :| 0 <= k < |parcels| && State().plots[k] == p;
      i := 0;
      while parcels[i].info.localId != id
        invariant 0 <= i <= k
        decreases k - i
      {
        i := i + 1;
      }
      assert State().plots[i].info.localId == id;
      forall j | 0 <= j < |parcels| && parcels[j].info.localId == id
        ensures j == i
      {
        assert State().plots[j].info.localId == id;
      }
    }

    /** Joins the parcels the rectangle meets, when there are two or more and one owner has them all. */
    method JoinParcels(m: Metres, owner: Bytes) returns (id: Option<int>)
      requires UniqueIds(State().plots)
      modifies this
      ensures (State(), id) == Join(old(State()), m, owner)
    {
      hide Overlapped, Rect, OwnerAt, CellsIn, UniqueIds, Merge, CellsOf, Touched, Distinct, Members, PlotsOf, Least;
      var b := Clamped(Overlapped(m), edge);
      if b.west >= b.east || b.south >= b.north {
        return None;
      }
      var touched := TouchedIds(b);
      DistinctSize(touched);
      if |touched| < 2 {
        return None;
      }
      TouchedExist(State().plots, b, touched);
      var shared := AllOwnedBy(touched, owner);
      SameOwners(State().plots, parcels, edge, b, touched, owner);
      if !shared {
        return None;
      }
      var master := LeastOf(touched);
      var i := FindByLocalId(master);
      var bitmap := MergedBits(i, touched);
      ghost var plots, cells := State().plots, CellsOf(State().plots, Members(touched));
      parcels := parcels[i := parcels[i].(bitmap := bitmap)];
      EraseTouched(plots, touched, master, i, cells);
      return Some(master);
    }

    method AllOwnedBy(ids: seq<int>, owner: Bytes) returns (shared: bool)
      requires UniqueIds(State().plots)
      requires forall id :: id in ids ==> exists p :: p in State().plots && p.info.localId == id
      ensures shared <==> forall j :: 0 <= j < |parcels| && parcels[j].info.localId in ids ==> parcels[j].info.owner == owner
    {
      hide UniqueIds, PlotsOf;
      var k := 0;
      while k < |ids|
        invariant k <= |ids|
        invariant forall j :: 0 <= j < |parcels| && parcels[j].info.localId in ids[..k] ==> parcels[j].info.owner == owner
      {
        assert ids[k] in ids;
        var i := FindByLocalId(ids[k]);
        if parcels[i].info.owner != owner {
          assert parcels[i].info.localId in ids;
          return false;
        }
        assert ids[..k + 1] == ids[..k] + [ids[k]];
        k := k + 1;
      }
      assert ids[..k] == ids;
      return true;
    }

    /** The master's bits and those of every other touched parcel. */
    method MergedBits(master: nat, touched: seq<int>) returns (bitmap: seq<bv8>)
      requires UniqueIds(State().plots) && master < |parcels| && parcels[master].info.localId in touched
      requires forall id :: id in touched ==> exists p :: p in State().plots && p.info.localId == id
      ensures CellsIn(bitmap, edge) == CellsOf(State().plots, Members(touched))
    {
      hide UniqueIds, CellsIn, CellsOf, Members, PlotsOf;
      bitmap := parcels[master].bitmap;
      var m := parcels[master].info.localId;
      ghost var plots := State().plots;
      OneMoreId(plots, {}, m, master);
      SeenNone();
      NoIds(plots);
      var k := 0;
      while k < |touched|
        invariant k <= |touched| && CellsIn(bitmap, edge) == CellsOf(plots, Members(touched[..k]) + {m})
      {
        SeenOneMore(touched, k);
        if touched[k] != m {
          assert touched[k] in touched;
          var other := FindByLocalId(touched[k]);
          OneMoreId(plots, Members(touched[..k]) + {m}, touched[k], other);
          bitmap := AddCells(bitmap, parcels[other].bitmap, edge);
        }
        assert Members(touched[..k]) + {m} + {touched[k]} == Members(touched[..k + 1]) + {m};
        k := k + 1;
      }
      assert touched[..k] == touched;
      SeenAll(touched, m);
    }

    /** Every touched parcel but the master goes; the others keep their order. */
    method EraseTouched(ghost plots: seq<Plot>, touched: seq<int>, master: int, ghost i: nat, ghost cells: set<Cell>)
      requires i < |plots| == |parcels| && PlotsOf(parcels, edge) == plots[i := plots[i].(cells := cells)]
      requires plots[i].info.localId == master
      requires forall j :: 0 <= j < |plots| && plots[j].info.localId == master ==> j == i
      modifies this`parcels
      ensures PlotsOf(parcels, edge) == Merge(plots, Members(touched), master, cells)
    {
      hide PlotsOf, Members;
      var kept: seq<Parcel> := [];
      var k := 0;
      assert plots[0..] == plots;
      NoPlots(edge);
      while k < |parcels|
        invariant k <= |parcels| && parcels == old(parcels)
        invariant PlotsOf(kept, edge) + Merge(plots[k..], Members(touched), master, cells)
          == Merge(plots, Members(touched), master, cells)
      {
        ghost var rest := Merge(plots[k + 1..], Members(touched), master, cells);
        assert plots[k..][0] == plots[k] && plots[k..][1..] == plots[k + 1..];
        assert PlotOf(parcels[k], edge) == PlotsOf(parcels, edge)[k];
        IsMember(touched, parcels[k].info.localId);
        if parcels[k].info.localId == master || parcels[k].info.localId !in touched {
          PlotsAppend(kept, parcels[k], edge);
          assert PlotsOf(kept, edge) + ([PlotOf(parcels[k], edge)] + rest) == PlotsOf(kept, edge) + [PlotOf(parcels[k], edge)] + rest;
          kept := kept + [parcels[k]];
        }
        k := k + 1;
      }
      assert plots[k..] == [];
      parcels := kept;
    }
  }

  method LeastOf(ids: seq<int>) returns (least: int)
    requires |ids| > 0
    ensures least in ids && Members(ids) != {} && least == Least(Members(ids))
  {
    hide Members;
    least := ids[0];
    var k := 1;
    while k < |ids|
      invariant 1 <= k <= |ids| && least in ids && forall x :: x in ids[..k] ==> least <= x
    {
      assert ids[..k + 1] == ids[..k] + [ids[k]];
      if ids[k] < least {
        least := ids[k];
      }
      k := k + 1;
    }
    assert ids[..k] == ids;
    LeastIs(ids, least);
  }

  lemma LeastIs(ids: seq<int>, least: int)
    requires least in ids && forall x :: x in ids ==> least <= x
    ensures Members(ids) != {} && least == Least(Members(ids))
  {
    assert least in Members(ids);
    LeastExists(Members(ids));
    assert IsLeast(Least(Members(ids)), Members(ids));
  }

  lemma IsMember(s: seq<int>, x: int)
    ensures x in Members(s) <==> x in s
  {
  }

  lemma SeenNone()
    ensures Members([]) == {}
  {
  }

  lemma SeenOneMore(s: seq<int>, k: nat)
    requires k < |s|
    ensures Members(s[..k + 1]) == Members(s[..k]) + {s[k]} && s[..0] == []
  {
    assert s[..k + 1] == s[..k] + [s[k]];
  }

  lemma SeenAll(s: seq<int>, x: int)
    requires x in s
    ensures Members(s) + {x} == Members(s)
  {
  }

  lemma NoPlots(edge: nat)
    ensures PlotsOf([], edge) == []
  {
  }

  lemma {:induction false} NoIds(plots: seq<Plot>)
    ensures CellsOf(plots, {}) == {}
    decreases |plots|
  {
    if plots != [] {
      NoIds(plots[1..]);
    }
  }

  lemma OneMoreId(plots: seq<Plot>, ids: set<int>, id: int, i: nat)
    requires UniqueIds(plots) && i < |plots| && plots[i].info.localId == id
    ensures CellsOf(plots, ids + {id}) == CellsOf(plots, ids) + plots[i].cells
  {
    hide CellsOf;
    forall c
      ensures c in CellsOf(plots, ids + {id}) <==> c in CellsOf(plots, ids) || c in plots[i].cells
    {
      InCellsOf(plots, ids + {id}, c);
      InCellsOf(plots, ids, c);
      assert plots[i] in plots;
    }
  }

  lemma TouchedExist(plots: seq<Plot>, b: Bounds, touched: seq<int>)
    requires Members(touched) == Touched(plots, b)
    ensures forall id :: id in touched ==> exists p :: p in plots && p.info.localId == id
  {
    hide OwnerAt, Rect;
    forall id | id in touched
      ensures exists p :: p in plots && p.info.localId == id
    {
      assert id in Members(touched);
      var c :| c in b.Cells() && OwnerAt(plots, c) < |plots| && plots[OwnerAt(plots, c)].info.localId == id;
      assert plots[OwnerAt(plots, c)] in plots;
    }
  }

  lemma SameOwners(plots: seq<Plot>, parcels: seq<Parcel>, edge: nat, b: Bounds, touched: seq<int>, owner: Bytes)
    requires plots == PlotsOf(parcels, edge) && Members(touched) == Touched(plots, b)
    ensures (forall j :: 0 <= j < |parcels| && parcels[j].info.localId in touched ==> parcels[j].info.owner == owner)
      <==> forall j :: 0 <= j < |plots| && plots[j].info.localId in Touched(plots, b) ==> plots[j].info.owner == owner
  {
    hide Touched, CellsIn;
    assert forall j :: 0 <= j < |plots| ==> plots[j].info == parcels[j].info;
    assert forall x :: x in touched <==> x in Touched(plots, b) by {
      forall x
        ensures x in touched <==> x in Touched(plots, b)
      {
        IsMember(touched, x);
      }
    }
  }

  ghost function Members(s: seq<int>): set<int> {
    set x | x in s
  }

  lemma NoMembers()
    ensures Distinct<int>([]) && Members([]) == {}
  {
  }

  lemma OneMoreMember(s: seq<int>, x: int)
    requires Distinct(s)
    ensures x in Members(s) <==> x in s
    ensures x !in s ==> Distinct(s + [x])
    ensures Members(s + [x]) == Members(s) + {x}
  {
  }

  lemma {:induction false} DistinctSize(s: seq<int>)
    requires Distinct(s)
    ensures |Members(s)| == |s|
    decreases |s|
  {
    if s != [] {
      var front, last := s[..|s| - 1], s[|s| - 1];
      assert s == front + [last];
      DistinctSize(front);
      OneMoreMember(front, last);
      assert last !in front;
    }
  }

  /** The ids of the plots that have the cells. */
  ghost function IdsAt(plots: seq<Plot>, cells: set<Cell>): set<int> {
    set c | c in cells && OwnerAt(plots, c) < |plots| :: plots[OwnerAt(plots, c)].info.localId
  }

  lemma IdsAtOneMore(plots: seq<Plot>, cells: set<Cell>, c: Cell)
    ensures IdsAt(plots, {}) == {}
    ensures IdsAt(plots, cells + {c}) == IdsAt(plots, cells)
      + if OwnerAt(plots, c) < |plots| then {plots[OwnerAt(plots, c)].info.localId} else {}
  {
    hide OwnerAt;
  }

  lemma CellOf(b: Bounds, x: int, y: int)
    requires b.west <= x < b.east && b.south <= y < b.north
    ensures Cell(x, y) in b.Cells()
  {
  }

  lemma NotHeld(plots: seq<Plot>, i: nat, b: Bounds, c: Cell)
    requires c in b.Cells() && (OwnerAt(plots, c) != i || i >= |plots|)
    ensures !Holds(plots, i, b)
  {
    hide OwnerAt, Bounds.Cells;
  }

  lemma AllHeld(plots: seq<Plot>, i: nat, b: Bounds)
    requires i < |plots| && forall c :: c in b.Cells() ==> OwnerAt(plots, c) == i
    ensures Holds(plots, i, b)
  {
    hide OwnerAt, Bounds.Cells;
  }

  lemma HolderExists(plots: seq<Plot>, i: nat, b: Bounds)
    requires Holds(plots, i, b)
    ensures i < |plots|
  {
  }

  /** A region of a positive whole number of cells, as one parcel; any other size is refused. */
  method CreateParcelSet(regionSize: int, globalId: Bytes, owner: Bytes, claimDate: int) returns (r: Option<ParcelSet>)
    ensures r.Some? <==> regionSize > 0 && regionSize % 4 == 0
    ensures r.Some? ==> fresh(r.value) && r.value.State() == Single(regionSize / 4, globalId, owner, claimDate)
  {
    if regionSize <= 0 || regionSize % 4 != 0 {
      return None;
    }
    var parcels := new ParcelSet(regionSize / 4, globalId, owner, claimDate);
    return Some(parcels);
  }
}
