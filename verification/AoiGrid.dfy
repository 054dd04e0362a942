/** The area-of-interest grid of gcore/aoi.go, and the brute-force scan it stands for. */
module AoiGrid {
  import opened Options
  import opened Binary
  import opened Sorting

  /** A coordinate of the source is a float64: a number, or a NaN or infinity. */
  datatype Coord = Finite(v: real) | NotFinite

  datatype Position = Position(x: Coord, y: Coord)

  datatype Cell = Cell(x: int, y: int)

  datatype Entity = Entity(position: Position, cell: Cell)

  datatype AoiError = AlreadyExists | NotFound | PositionNotFinite | OutsideWorld

  /** Entered and Left of a move, as ascending lists. */
  datatype Change = Change(entered: seq<uint32>, left: seq<uint32>)

  datatype Size = Size(worldWidth: real, worldHeight: real, cellWidth: real, cellHeight: real)

  predicate PositiveSize(z: Size) {
    z.worldWidth > 0.0 && z.worldHeight > 0.0 && z.cellWidth > 0.0 && z.cellHeight > 0.0
  }

  function CellFor(z: Size, p: Position): Result<Cell, AoiError>
    requires PositiveSize(z)
  {
    if p.x.NotFinite? || p.y.NotFinite? then Err(PositionNotFinite)
    else if p.x.v < 0.0 || p.y.v < 0.0 || p.x.v >= z.worldWidth || p.y.v >= z.worldHeight then Err(OutsideWorld)
    else Ok(Cell((p.x.v / z.cellWidth).Floor, (p.y.v / z.cellHeight).Floor))
  }

  /** At most one cell apart on each axis. */
  predicate Near(a: Cell, b: Cell) { -1 <= a.x - b.x <= 1 && -1 <= a.y - b.y <= 1 }

  /** The other entities near this one, found by looking at all of them. */
  function Around(entities: map<uint32, Entity>, id: uint32): set<uint32>
    requires id in entities
  {
    set k | k in entities && k != id && Near(entities[k].cell, entities[id].cell)
  }

  /** Nearness is mutual. */
  lemma AroundSymmetric(entities: map<uint32, Entity>, a: uint32, b: uint32)
    requires a in entities && b in entities
    ensures a in Around(entities, b) <==> b in Around(entities, a)
  {
  }

  /** When one entity changes, the others keep each other and gain or lose only that one. */
  lemma AroundOthers(entities: map<uint32, Entity>, id: uint32, e: Entity, k: uint32)
    requires k in entities && k != id
    ensures Around(entities[id := e], k) - {id} == Around(entities, k) - {id}
    ensures id in Around(entities[id := e], k) <==> Near(e.cell, entities[k].cell)
  {
  }

  function IdsOf(list: seq<uint32>): set<uint32> { set id | id in list }

  /** The difference lists are disjoint, and new = (old - left) + entered. */
  lemma ChangeAdds(entered: seq<uint32>, left: seq<uint32>, older: set<uint32>, newer: set<uint32>)
    requires ListOf(entered, newer - older) && ListOf(left, older - newer)
    ensures IdsOf(entered) !! IdsOf(left)
    ensures newer == (older - IdsOf(left)) + IdsOf(entered)
  {
    assert IdsOf(entered) == newer - older && IdsOf(left) == older - newer;
  }

  // Buckets

  function AddedTo(cells: map<Cell, set<uint32>>, cell: Cell, id: uint32): map<Cell, set<uint32>> {
    cells[cell := (if cell in cells then cells[cell] else {}) + {id}]
  }

  function RemovedFrom(cells: map<Cell, set<uint32>>, cell: Cell, id: uint32): map<Cell, set<uint32>> {
    var rest := (if cell in cells then cells[cell] else {}) - {id};
    if rest == {} then cells - {cell} else cells[cell := rest]
  }

  /** The buckets list exactly the entities of their cell, and none is empty. */
  predicate Agree(entities: map<uint32, Entity>, cells: map<Cell, set<uint32>>) {
    && (forall c :: c in cells ==> cells[c] != {})
    && (forall c, id :: c in cells && id in cells[c] ==> id in entities && entities[id].cell == c)
    && (forall id :: id in entities ==> entities[id].cell in cells && id in cells[entities[id].cell])
  }

  lemma AddedAgrees(entities: map<uint32, Entity>, cells: map<Cell, set<uint32>>, id: uint32, e: Entity)
    requires Agree(entities, cells) && id !in entities
    ensures Agree(entities[id := e], AddedTo(cells, e.cell, id))
  {
  }

  lemma RemovedAgrees(entities: map<uint32, Entity>, cells: map<Cell, set<uint32>>, id: uint32)
    requires Agree(entities, cells) && id in entities
    ensures Agree(entities - {id}, RemovedFrom(cells, entities[id].cell, id))
  {
  }

  lemma SameCellAgrees(entities: map<uint32, Entity>, cells: map<Cell, set<uint32>>, id: uint32, e: Entity)
    requires Agree(entities, cells) && id in entities && e.cell == entities[id].cell
    ensures Agree(entities[id := e], cells)
  {
  }

  class AOIManager {
    const size: Size
    var entities: map<uint32, Entity>
    var cells: map<Cell, set<uint32>>

    /** Every entity is in the cell of its position, and the buckets agree. */
    ghost predicate Valid() reads this {
      && PositiveSize(size)
      && (forall id :: id in entities ==> CellFor(size, entities[id].position) == Ok(entities[id].cell))
      && Agree(entities, cells)
    }

    constructor (size: Size)
      requires PositiveSize(size)
      ensures Valid() && entities == map[] && this.size == size
    {
      this.size := size;
      entities := map[];
      cells := map[];
    }

    /** NewAOIManager: null stands for the error of a size that is not positive. */
    static method New(size: Size) returns (am: AOIManager?)
      ensures am != null <==> PositiveSize(size)
      ensures am != null ==> fresh(am) && am.Valid() && am.entities == map[] && am.size == size
    {
      if size.worldWidth <= 0.0 || size.worldHeight <= 0.0 || size.cellWidth <= 0.0 || size.cellHeight <= 0.0 {
        return null;
      }
      am := new AOIManager(size);
    }

    method AddEntity(id: uint32, position: Position) returns (err: Result<(), AoiError>)
      requires Valid()
      modifies this
      ensures Valid()
      ensures err.Ok? <==> id !in old(entities) && CellFor(size, position).Ok?
      ensures err.Ok? ==> entities == old(entities)[id := Entity(position, CellFor(size, position).value)]
      ensures err.Err? ==> entities == old(entities)
      ensures id in old(entities) ==> err == Err(AlreadyExists)
      ensures id !in old(entities) && CellFor(size, position).Err? ==> err == Err(CellFor(size, position).error)
    {
      if id in entities {
        return Err(AlreadyExists);
      }
      var cell := CellFor(size, position);
      if cell.Err? {
        return Err(cell.error);
      }
      hide CellFor, Agree, AddedTo;
      AddedAgrees(entities, cells, id, Entity(position, cell.value));
      entities := entities[id := Entity(position, cell.value)];
      AddToCell(cell.value, id);
      err := Ok(());
    }

    method AddToCell(cell: Cell, id: uint32)
      modifies this`cells
      ensures cells == AddedTo(old(cells), cell, id)
    {
      if cell !in cells {
        cells := cells[cell := {}];
      }
      cells := cells[cell := cells[cell] + {id}];
    }

    method RemoveFromCell(cell: Cell, id: uint32)
      modifies this`cells
      ensures cells == RemovedFrom(old(cells), cell, id)
    {
      var rest := if cell in cells then cells[cell] else {};
      rest := rest - {id};
      if cell in cells {
        cells := cells[cell := rest];
      }
      if |rest| == 0 {
        cells := cells - {cell};
      }
    }

    method RemoveEntity(id: uint32) returns (err: Result<(), AoiError>)
      requires Valid()
      modifies this
      ensures Valid()
      ensures err == if id in old(entities) then Ok(()) else Err(NotFound)
      ensures entities == old(entities) - {id}
    {
      if id !in entities {
        return Err(NotFound);
      }
      hide CellFor, Agree, RemovedFrom;
      RemovedAgrees(entities, cells, id);
      RemoveFromCell(entities[id].cell, id);
      entities := entities - {id};
      err := Ok(());
    }

    /** nearbyLocked: the nine buckets around an entity, sorted, are what the brute-force scan finds. */
    method Nearby(id: uint32) returns (ids: seq<uint32>)
      requires Valid() && id in entities
      ensures ListOf(ids, Around(entities, id))
    {
      hide CellFor;
      var c := entities[id].cell;
      var found: seq<uint32> := [];
      for x := c.x - 1 to c.x + 2
        invariant Distinct(found)
        invariant forall k :: k in found <==> k in Around(entities, id) && entities[k].cell.x < x
      {
        for y := c.y - 1 to c.y + 2
          invariant Distinct(found)
          invariant forall k :: k in found <==>
                      k in Around(entities, id)
                      && (entities[k].cell.x < x || (entities[k].cell.x == x && entities[k].cell.y < y))
        {
          var bucket := if Cell(x, y) in cells then cells[Cell(x, y)] else {};
          found := Collect(found, bucket, id);
        }
      }
      SortKeeps(found);
      ids := SortIds(found);
    }

    /** The loop over one bucket, in whatever order the map gives its keys. */
    static method Collect(found: seq<uint32>, bucket: set<uint32>, id: uint32) returns (all: seq<uint32>)
      requires Distinct(found) && forall k :: k in bucket ==> k !in found
      ensures Distinct(all)
      ensures forall k :: k in all <==> k in found || (k in bucket && k != id)
    {
      all := found;
      var rest := bucket;
      while rest != {}
        invariant rest <= bucket && Distinct(all)
        invariant forall k :: k in all <==> k in found || (k in bucket && k !in rest && k != id)
        decreases rest
      {
        var k :| k in rest;
        rest := rest - {k};
        if k != id {
          all := all + [k];
        }
      }
    }

    static method SortIds(ids: seq<uint32>) returns (sorted: seq<uint32>)
      requires Distinct(ids)
      ensures sorted == Sort(ids)
    {
      SortKeeps(ids);
      assert forall i :: 0 <= i < |Sort(ids)| ==> Sort(ids)[i] in Sort(ids);
      sorted := seq(|Sort(ids)|, i requires 0 <= i < |Sort(ids)| => Sort(ids)[i]);
    }

    /** difference: the members of source that target does not list. */
    static method Difference(source: seq<uint32>, target: seq<uint32>) returns (result: seq<uint32>)
      requires Ascending(source)
      ensures Ascending(result) && forall k :: k in result <==> k in source && k !in target
    {
      var contains: set<uint32> := {};
      for i := 0 to |target|
        invariant forall k :: k in contains <==> k in target[..i]
      {
        contains := contains + {target[i]};
      }
      assert target[..|target|] == target;
      result := [];
      for i := 0 to |source|
        invariant Ascending(result)
        invariant forall k :: k in result <==> k in source[..i] && k !in target
      {
        assert source[..i + 1] == source[..i] + [source[i]];
        if source[i] !in contains {
          assert forall j :: 0 <= j < |result| ==> result[j] in source[..i];
          result := result + [source[i]];
        }
      }
      assert source[..|source|] == source;
      SortKeeps(result);
      ListUnique(Sort(result), result);
      result := SortIds(result);
    }

    /** MoveEntity: the new position, and exactly who came into and went out of the neighbourhood. */
    method MoveEntity(id: uint32, position: Position) returns (r: Result<Change, AoiError>)
      requires Valid()
      modifies this
      ensures Valid()
      ensures r.Ok? <==> id in old(entities) && CellFor(size, position).Ok?
      ensures id !in old(entities) ==> r == Err(NotFound)
      ensures id in old(entities) && CellFor(size, position).Err? ==> r == Err(CellFor(size, position).error)
      ensures r.Err? ==> entities == old(entities)
      ensures r.Ok? ==>
                && entities == old(entities)[id := Entity(position, CellFor(size, position).value)]
                && ListOf(r.value.entered, Around(entities, id) - Around(old(entities), id))
                && ListOf(r.value.left, Around(old(entities), id) - Around(entities, id))
                && IdsOf(r.value.entered) !! IdsOf(r.value.left)
                && Around(entities, id) == (Around(old(entities), id) - IdsOf(r.value.left)) + IdsOf(r.value.entered)
    {
      if id !in entities {
        return Err(NotFound);
      }
      var newCell := CellFor(size, position);
      if newCell.Err? {
        return Err(newCell.error);
      }
      var oldNearby := Nearby(id);
      Relocate(id, position, newCell.value);
      hide CellFor, Valid, Around;
      var newNearby := Nearby(id);
      var entered := Difference(newNearby, oldNearby);
      var left := Difference(oldNearby, newNearby);
      ChangeAdds(entered, left, Around(old(entities), id), Around(entities, id));
      r := Ok(Change(entered, left));
    }

    /** The entity at its new place, in the bucket of its new cell. */
    method Relocate(id: uint32, position: Position, cell: Cell)
      requires Valid() && id in entities && CellFor(size, position) == Ok(cell)
      modifies this
      ensures Valid() && entities == old(entities)[id := Entity(position, cell)]
    {
      hide CellFor, Agree, AddedTo, RemovedFrom;
      var e := Entity(position, cell);
      if entities[id].cell != cell {
        RemovedAgrees(entities, cells, id);
        AddedAgrees(entities - {id}, RemovedFrom(cells, entities[id].cell, id), id, e);
        assert (entities - {id})[id := e] == entities[id := e];
        RemoveFromCell(entities[id].cell, id);
        AddToCell(cell, id);
      } else {
        SameCellAgrees(entities, cells, id, e);
      }
      entities := entities[id := e];
    }

    method GetNearbyEntityIDs(id: uint32) returns (r: Result<seq<uint32>, AoiError>)
      requires Valid()
      ensures id !in entities ==> r == Err(NotFound)
      ensures id in entities ==> r.Ok? && ListOf(r.value, Around(entities, id))
    {
      if id !in entities {
        return Err(NotFound);
      }
      var ids := Nearby(id);
      r := Ok(ids);
    }
  }

  // The grid as a distance bound

  /** Multiplying by a positive number keeps the order. */
  lemma Product(a: real, b: real, w: real, aw: real, bw: real)
    requires w > 0.0 && aw == a * w && bw == b * w
    ensures a > b <==> aw > bw
  {
    var d := a - b;
    assert d * w == aw - bw;
    if a <= b {
      var e := -d;
      assert e * w >= 0.0;
      assert e * w == bw - aw;
    }
  }

  /** Dividing by a positive cell size keeps the distance, in cells. */
  lemma Scaled(a: real, b: real, w: real)
    requires w > 0.0
    ensures a - b <= w ==> a / w - b / w <= 1.0
    ensures a / w - b / w < 2.0 ==> a - b < 2.0 * w
  {
    var p, q := a / w, b / w;
    assert p * w == a;
    assert q * w == b;
    var d := p - q;
    assert d * w == p * w - q * w;
    Product(d, 1.0, w, a - b, w);
    Product(2.0, d, w, 2.0 * w, a - b);
  }

  predicate Within(a: real, b: real, d: real) { -d <= a - b <= d }

  /** Entities within one cell size on both axes see each other; entities that see each other are
      strictly less than two cell sizes apart on each axis. */
  lemma CellDistance(z: Size, p: Position, q: Position)
    requires PositiveSize(z) && CellFor(z, p).Ok? && CellFor(z, q).Ok?
    ensures Within(p.x.v, q.x.v, z.cellWidth) && Within(p.y.v, q.y.v, z.cellHeight)
            ==> Near(CellFor(z, p).value, CellFor(z, q).value)
    ensures Near(CellFor(z, p).value, CellFor(z, q).value)
            ==> -2.0 * z.cellWidth < p.x.v - q.x.v < 2.0 * z.cellWidth
                && -2.0 * z.cellHeight < p.y.v - q.y.v < 2.0 * z.cellHeight
  {
    Scaled(p.x.v, q.x.v, z.cellWidth);
    Scaled(q.x.v, p.x.v, z.cellWidth);
    Scaled(p.y.v, q.y.v, z.cellHeight);
    Scaled(q.y.v, p.y.v, z.cellHeight);
  }

  /** A position has a cell exactly if it is finite and in the world, and it is the one that contains it. */
  lemma PlacedExactly(z: Size, p: Position)
    requires PositiveSize(z)
    ensures var r := CellFor(z, p);
            if p.x.NotFinite? || p.y.NotFinite? then r == Err(PositionNotFinite)
            else if !(0.0 <= p.x.v < z.worldWidth && 0.0 <= p.y.v < z.worldHeight) then r == Err(OutsideWorld)
            else
              r.Ok? && Spans(r.value.x, z.cellWidth, p.x.v) && Spans(r.value.y, z.cellHeight, p.y.v)
  {
    if CellFor(z, p).Ok? {
      FloorSpans(p.x.v, z.cellWidth);
      FloorSpans(p.y.v, z.cellHeight);
    }
  }

  /** Cell number n of this width contains v. */
  predicate Spans(n: int, width: real, v: real) { n as real * width <= v < (n as real + 1.0) * width }

  lemma FloorSpans(v: real, width: real)
    requires width > 0.0
    ensures Spans((v / width).Floor, width, v)
  {
    var q := v / width;
    var n := q.Floor as real;
    assert q * width == v;
    Product(n + 1.0, q, width, (n + 1.0) * width, v);
    Product(n, q, width, n * width, v);
  }

  /** Both bounds of the cell distance are tight on either axis, where the world has room for them: neighbours
      almost two cells apart, and entities just over one cell apart that do not see each other. */
  lemma BoundsAreTight(z: Size, d: real, onX: bool)
    requires PositiveSize(z)
    requires if onX then 0.0 < d < z.cellWidth && 2.0 * z.cellWidth < z.worldWidth
             else 0.0 < d < z.cellHeight && 2.0 * z.cellHeight < z.worldHeight
    ensures exists p, q :: CellFor(z, p).Ok? && CellFor(z, q).Ok? && Near(CellFor(z, p).value, CellFor(z, q).value)
                           && Along(q, onX) - Along(p, onX) == 2.0 * CellSize(z, onX) - d
    ensures exists p, q :: CellFor(z, p).Ok? && CellFor(z, q).Ok? && !Near(CellFor(z, p).value, CellFor(z, q).value)
                           && Along(q, onX) - Along(p, onX) == CellSize(z, onX) + d
  {
    var w := CellSize(z, onX);
    var p, q := At(0.0, onX), At(2.0 * w - d, onX);
    var p', q' := At(w - d, onX), At(2.0 * w, onX);
    FloorOf(0.0, w, 0);
    FloorOf(2.0 * w - d, w, 1);
    FloorOf(w - d, w, 0);
    FloorOf(2.0 * w, w, 2);
    FloorOf(0.0, z.cellWidth, 0);
    FloorOf(0.0, z.cellHeight, 0);
    assert CellFor(z, p).Ok? && CellFor(z, q).Ok? && Near(CellFor(z, p).value, CellFor(z, q).value);
    assert CellFor(z, p').Ok? && CellFor(z, q').Ok? && !Near(CellFor(z, p').value, CellFor(z, q').value);
    assert Along(q, onX) - Along(p, onX) == 2.0 * w - d;
    assert Along(q', onX) - Along(p', onX) == w + d;
  }

  /** A place on one of the axes of the world. */
  function At(v: real, onX: bool): Position {
    if onX then Position(Finite(v), Finite(0.0)) else Position(Finite(0.0), Finite(v))
  }

  function Along(p: Position, onX: bool): real
    requires p.x.Finite? && p.y.Finite?
  {
    if onX then p.x.v else p.y.v
  }

  function CellSize(z: Size, onX: bool): real { if onX then z.cellWidth else z.cellHeight }

  lemma FloorOf(a: real, w: real, n: int)
    requires w > 0.0 && n as real * w <= a < (n + 1) as real * w
    ensures (a / w).Floor == n
  {
    var q := a / w;
    assert q * w == a;
    Product(n as real, q, w, n as real * w, a);
    Product((n + 1) as real, q, w, (n + 1) as real * w, a);
  }
}
