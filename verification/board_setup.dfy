/** The board builder: a fixed catalog of ship shapes, the feasibility test
    that keeps ships from overlapping or touching edge to edge, stamping a ship
    onto the board, and placement driven by a stream of candidate anchors. */
module BoardSetup {
  import opened Grid

  // ---------------------------------------------------------------------------
  // Ship catalog
  // ---------------------------------------------------------------------------

  /** Offset of one ship cell from the ship's anchor cell. */
  datatype Offset = Offset(dx: nat, dy: nat)

  /** No offset occurs twice in the shape. */
  predicate DistinctOffsets(shape: seq<Offset>) {
    forall i, j :: 0 <= i < j < |shape| ==> shape[i] != shape[j]
  }

  /** The fixed catalog, ship id i at index i - 1: ids 1..4 are horizontal
      lines of length 2..5, id 5 is an L of four cells, ids 6 and 7 are
      vertical lines of length 3 and 2. */
  const Catalog: seq<seq<Offset>> := [
    [Offset(0, 0), Offset(1, 0)],
    [Offset(0, 0), Offset(1, 0), Offset(2, 0)],
    [Offset(0, 0), Offset(1, 0), Offset(2, 0), Offset(3, 0)],
    [Offset(0, 0), Offset(1, 0), Offset(2, 0), Offset(3, 0), Offset(4, 0)],
    [Offset(0, 0), Offset(1, 0), Offset(2, 0), Offset(2, 1)],
    [Offset(0, 0), Offset(0, 1), Offset(0, 2)],
    [Offset(0, 0), Offset(0, 1)]
  ]

  /** Catalog lookup by ship id; ids without a shape give None. */
  function ShipShape(id: int): (shape: Option<seq<Offset>>)
    ensures shape.Some? <==> 1 <= id <= 7
    ensures shape.Some? ==> 2 <= |shape.value| <= 5 && shape.value[0] == Offset(0, 0)
    ensures shape.Some? ==> DistinctOffsets(shape.value)
  {
    if 1 <= id <= |Catalog| then Some(Catalog[id - 1]) else None
  }

  /** The absolute cells of a shape anchored at (x, y), in offset order. */
  function Footprint(x: int, y: int, shape: seq<Offset>): (cells: seq<Cell>)
  {
    seq(|shape|, i requires 0 <= i < |shape| => Cell(x + shape[i].dx, y + shape[i].dy))
  }

  /** Distinct offsets give distinct cells. */
  lemma FootprintDistinct(x: int, y: int, shape: seq<Offset>)
    requires DistinctOffsets(shape)
    ensures var cells := Footprint(x, y, shape);
            forall i, j :: 0 <= i < j < |cells| ==> cells[i] != cells[j]
  {
    var cells := Footprint(x, y, shape);
    forall i, j | 0 <= i < j < |cells| ensures cells[i] != cells[j] {
      assert shape[i] != shape[j];
    }
  }

  // ---------------------------------------------------------------------------
  // Board state
  // ---------------------------------------------------------------------------

  /** Requested number of ships of one shape. */
  datatype ShipCount = ShipCount(id: int, count: int)

  /** The builder's state. `ships` lists (shape id, count) pairs in the order
      the configuration mapping iterates them; `grid` holds 0 for an empty
      cell and the ship id on an occupied one; `positions` maps a ship id to
      the cells of every ship of that id placed so far, in placement order. */
  datatype Board = Board(
    rows: nat,
    cols: nat,
    ships: seq<ShipCount>,
    grid: seq<seq<int>>,
    positions: map<int, seq<Cell>>)
  {
    predicate Valid() {
      IsGrid(grid, rows, cols)
    }

    predicate Contains(c: Cell) {
      InBounds(rows, cols, c)
    }

    function Tile(c: Cell): int
      requires Valid() && Contains(c)
    {
      grid[c.y][c.x]
    }
  }

  datatype BoardError = OutOfBounds

  /** A fresh builder: an all-empty grid and no recorded positions. */
  function NewBoard(rows: nat, cols: nat, ships: seq<ShipCount>): (b: Board)
    ensures b.Valid() && b.rows == rows && b.cols == cols && b.ships == ships
    ensures forall c :: b.Contains(c) ==> b.Tile(c) == 0
    ensures b.positions == map[]
  {
    Board(rows, cols, ships, Filled(rows, cols, 0), map[])
  }

  /** Bounds-checked read of one cell. */
  function GetTile(b: Board, x: int, y: int): (r: Result<int, BoardError>)
    requires b.Valid()
    ensures r.Err? <==> !b.Contains(Cell(x, y))
    ensures r.Err? ==> r.error == OutOfBounds
    ensures r.Ok? ==> r.value == b.Tile(Cell(x, y))
  {
    if x < 0 || x >= b.cols || y < 0 || y >= b.rows then Err(OutOfBounds)
    else Ok(b.grid[y][x])
  }

  /** The recorded cells of ship id, or none if it was never placed. */
  function GetShipPositions(b: Board, id: int): (cells: seq<Cell>)
    ensures id !in b.positions ==> cells == []
    ensures id in b.positions ==> cells == b.positions[id]
  {
    if id in b.positions then b.positions[id] else []
  }

  /** Clears the grid and the recorded positions; dimensions and the
      requested ships are kept. */
  function ResetBoard(b: Board): (b': Board)
    ensures b'.Valid() && b'.rows == b.rows && b'.cols == b.cols && b'.ships == b.ships
    ensures forall c :: b'.Contains(c) ==> b'.Tile(c) == 0
    ensures b'.positions == map[]
  {
    b.(grid := Filled(b.rows, b.cols, 0), positions := map[])
  }

  // ---------------------------------------------------------------------------
  // Feasibility test
  // ---------------------------------------------------------------------------

  /** Every footprint cell is on the board and empty, and every on-board
      orthogonal neighbour of a footprint cell is empty. */
  ghost predicate Feasible(b: Board, x: int, y: int, shape: seq<Offset>)
    requires b.Valid()
  {
    var cells := Footprint(x, y, shape);
    && (forall c :: c in cells ==> b.Contains(c) && b.Tile(c) == 0)
    && (forall c, n :: c in cells && Adjacent(c, n) && b.Contains(n) ==> b.Tile(n) == 0)
  }

  /** The first scan of the feasibility test: each cell is read in turn; a
      row or column index past the end of the grid rejects, as does an
      occupied cell. Cells are never negative here. */
  function ScanFootprint(b: Board, cells: seq<Cell>): (ok: bool)
    requires b.Valid()
    requires forall c :: c in cells ==> c.x >= 0 && c.y >= 0
    ensures ok <==> forall c :: c in cells ==> b.Contains(c) && b.Tile(c) == 0
  {
    if cells == [] then true
    else
      var c := cells[0];
      if c.y >= |b.grid| || c.x >= |b.grid[c.y]| then false
      else if b.grid[c.y][c.x] != 0 then false
      else ScanFootprint(b, cells[1..])
  }

  /** Every on-board cell among ns is empty. */
  function ScanAround(b: Board, ns: seq<Cell>): (ok: bool)
    requires b.Valid()
    ensures ok <==> forall n :: n in ns && b.Contains(n) ==> b.Tile(n) == 0
  {
    if ns == [] then true
    else
      var n := ns[0];
      (!b.Contains(n) || b.Tile(n) == 0) && ScanAround(b, ns[1..])
  }

  /** The second scan of the feasibility test: the four orthogonal neighbours
      of each footprint cell, skipping those off the board. */
  function ScanNeighbours(b: Board, cells: seq<Cell>): (ok: bool)
    requires b.Valid()
    ensures ok <==> forall c, n :: c in cells && Adjacent(c, n) && b.Contains(n) ==> b.Tile(n) == 0
  {
    if cells == [] then true
    else ScanAround(b, Neighbours(cells[0])) && ScanNeighbours(b, cells[1..])
  }

  /** Whether ship `id` may be anchored at (x, y): false for an id outside
      the catalog; otherwise the footprint scan followed by the neighbour
      scan. Anchors are non-negative (they are drawn from the board). */
  function CanPlaceShip(b: Board, x: int, y: int, id: int): (ok: bool)
    requires b.Valid() && x >= 0 && y >= 0
    ensures ok <==> ShipShape(id).Some? && Feasible(b, x, y, ShipShape(id).value)
    ensures ok ==> forall c :: c in Footprint(x, y, ShipShape(id).value) ==> b.Contains(c)
  {
    match ShipShape(id)
    case None => false
    case Some(shape) =>
      var cells := Footprint(x, y, shape);
      ScanFootprint(b, cells) && ScanNeighbours(b, cells)
  }

  // ---------------------------------------------------------------------------
  // Stamping a ship
  // ---------------------------------------------------------------------------

  /** Writes id onto each of cells in turn while appending each cell to acc. */
  function Stamp(grid: seq<seq<int>>, acc: seq<Cell>, cells: seq<Cell>, id: int)
    : (r: (seq<seq<int>>, seq<Cell>))
    requires forall c :: c in cells ==> 0 <= c.y < |grid| && 0 <= c.x < |grid[c.y]|
    ensures |r.0| == |grid| && forall y :: 0 <= y < |grid| ==> |r.0[y]| == |grid[y]|
    ensures forall c: Cell :: 0 <= c.y < |grid| && 0 <= c.x < |grid[c.y]| ==>
              At(r.0, c) == if c in cells then id else At(grid, c)
    ensures r.1 == acc + cells
    decreases |cells|
  {
    if cells == [] then (grid, acc)
    else Stamp(Update(grid, cells[0], id), acc + [cells[0]], cells[1..], id)
  }

  /** Places ship id with its anchor at (x, y). The caller has established
      that the id is in the catalog and the footprint lies on the board. */
  function PlaceShip(b: Board, x: int, y: int, id: int): (b': Board)
    requires b.Valid() && ShipShape(id).Some?
    requires forall c :: c in Footprint(x, y, ShipShape(id).value) ==> b.Contains(c)
    ensures b'.Valid() && b'.rows == b.rows && b'.cols == b.cols && b'.ships == b.ships
    ensures forall c :: b.Contains(c) ==>
              b'.Tile(c) == if c in Footprint(x, y, ShipShape(id).value) then id else b.Tile(c)
    ensures b'.positions.Keys == b.positions.Keys + {id}
    ensures b'.positions[id] == GetShipPositions(b, id) + Footprint(x, y, ShipShape(id).value)
    ensures forall k :: k in b.positions && k != id ==> b'.positions[k] == b.positions[k]
  {
    var cells := Footprint(x, y, ShipShape(id).value);
    assert forall c :: c in cells ==> 0 <= c.y < |b.grid| && 0 <= c.x < |b.grid[c.y]| by {
      forall c | c in cells ensures 0 <= c.y < |b.grid| && 0 <= c.x < |b.grid[c.y]| {
        assert b.Contains(c);
      }
    }
    var (grid, placed) := Stamp(b.grid, GetShipPositions(b, id), cells, id);
    b.(grid := grid, positions := b.positions[id := placed])
  }

  // ---------------------------------------------------------------------------
  // Placing all requested ships
  // ---------------------------------------------------------------------------

  /** n copies of id; none when n is not positive. */
  function Repeat(id: int, n: int): (ids: seq<int>)
    ensures |ids| == if n <= 0 then 0 else n
    ensures forall i :: 0 <= i < |ids| ==> ids[i] == id
    decreases n
  {
    if n <= 0 then [] else [id] + Repeat(id, n - 1)
  }

  /** The ship ids to place, one per ship, in configuration order. */
  function Pending(ships: seq<ShipCount>): seq<int>
  {
    if ships == [] then []
    else Repeat(ships[0].id, ships[0].count) + Pending(ships[1..])
  }

  /** All anchors lie on the board: `place_ships` draws x in [0, cols) and
      y in [0, rows). */
  predicate AnchorsOnBoard(b: Board, anchors: seq<Cell>) {
    forall i :: 0 <= i < |anchors| ==> b.Contains(anchors[i])
  }

  /** Places each pending id in turn. For the current id, anchors are taken
      from the stream until one is feasible; an infeasible anchor is dropped
      and the next is tried. None means the stream ran out first. */
  function PlaceAll(b: Board, pending: seq<int>, anchors: seq<Cell>): (r: Option<Board>)
    requires b.Valid() && AnchorsOnBoard(b, anchors)
    ensures r.Some? ==> r.value.Valid() && r.value.rows == b.rows && r.value.cols == b.cols
    ensures r.Some? ==> r.value.ships == b.ships
    ensures pending != [] && anchors == [] ==> r.None?
    decreases |anchors|
  {
    if pending == [] then Some(b)
    else if anchors == [] then None
    else
      var a := anchors[0];
      var rest := anchors[1..];
      assert AnchorsOnBoard(b, rest) by {
        forall i | 0 <= i < |rest| ensures b.Contains(rest[i]) {
          assert rest[i] == anchors[i + 1];
        }
      }
      if CanPlaceShip(b, a.x, a.y, pending[0]) then
        var b' := PlaceShip(b, a.x, a.y, pending[0]);
        assert AnchorsOnBoard(b', rest) by {
          assert b'.rows == b.rows && b'.cols == b.cols;
          forall i | 0 <= i < |rest| ensures b'.Contains(rest[i]) {
            assert b.Contains(rest[i]);
          }
        }
        PlaceAll(b', pending[1..], rest)
      else
        PlaceAll(b, pending, rest)
  }

  /** Places every requested ship, drawing anchors from the given stream. */
  function PlaceShips(b: Board, anchors: seq<Cell>): (r: Option<Board>)
    requires b.Valid() && AnchorsOnBoard(b, anchors)
    ensures r.Some? ==> r.value.Valid() && r.value.rows == b.rows && r.value.cols == b.cols
    ensures Pending(b.ships) != [] && anchors == [] ==> r.None?
  {
    PlaceAll(b, Pending(b.ships), anchors)
  }

  // ---------------------------------------------------------------------------
  // Board statistics
  // ---------------------------------------------------------------------------

  datatype Stats = Stats(emptySpaces: int, occupiedSpaces: int)

  /** Number of zero entries of a row. */
  function CountZeros(row: seq<int>): (n: nat)
    ensures n <= |row|
    ensures n == |row| <==> forall i :: 0 <= i < |row| ==> row[i] == 0
  {
    if row == [] then 0
    else (if row[0] == 0 then 1 else 0) + CountZeros(row[1..])
  }

  /** Number of zero entries of a grid whose rows all have length cols. */
  function CountEmpty(grid: seq<seq<int>>, cols: nat): (n: nat)
    requires forall y :: 0 <= y < |grid| ==> |grid[y]| == cols
    ensures n <= |grid| * cols
    ensures n == |grid| * cols <==> forall y, x :: 0 <= y < |grid| && 0 <= x < cols ==> grid[y][x] == 0
  {
    if grid == [] then 0
    else
      var first := CountZeros(grid[0]);
      var rest := CountEmpty(grid[1..], cols);
      assert |grid| * cols == cols + (|grid| - 1) * cols;
      assert first + rest == |grid| * cols <==> first == cols && rest == (|grid| - 1) * cols;
      assert (forall y, x :: 0 <= y < |grid| && 0 <= x < cols ==> grid[y][x] == 0) <==>
             (forall x :: 0 <= x < cols ==> grid[0][x] == 0) &&
             (forall y, x :: 0 <= y < |grid| - 1 && 0 <= x < cols ==> grid[1..][y][x] == 0) by {
        if (forall x :: 0 <= x < cols ==> grid[0][x] == 0) &&
           (forall y, x :: 0 <= y < |grid| - 1 && 0 <= x < cols ==> grid[1..][y][x] == 0) {
          forall y, x | 0 <= y < |grid| && 0 <= x < cols ensures grid[y][x] == 0 {
            if y > 0 { assert grid[y][x] == grid[1..][y - 1][x]; }
          }
        }
      }
      first + rest
  }

  /** Counts of empty and occupied cells. */
  function BoardStats(b: Board): (s: Stats)
    requires b.Valid()
    ensures s.emptySpaces + s.occupiedSpaces == b.rows * b.cols
    ensures 0 <= s.emptySpaces && 0 <= s.occupiedSpaces
    ensures s.occupiedSpaces == 0 <==> forall c :: b.Contains(c) ==> b.Tile(c) == 0
  {
    var empty := CountEmpty(b.grid, b.cols);
    assert (forall c :: b.Contains(c) ==> b.Tile(c) == 0) <==>
           (forall y, x :: 0 <= y < |b.grid| && 0 <= x < b.cols ==> b.grid[y][x] == 0) by {
      if forall c :: b.Contains(c) ==> b.Tile(c) == 0 {
        forall y, x | 0 <= y < |b.grid| && 0 <= x < b.cols ensures b.grid[y][x] == 0 {
          assert b.Contains(Cell(x, y));
        }
      }
    }
    Stats(empty, b.rows * b.cols - empty)
  }
}
