/** What the board builder guarantees: the ships it has placed never overlap
    and never touch edge to edge, the grid and the recorded positions agree
    with the placed ships, and each placement empties exactly as many cells
    as the ship has. */
module BoardProperties {
  import opened Grid
  import opened BoardSetup

  /** One placed ship: its id and its absolute cells. */
  datatype Instance = Instance(id: int, cells: seq<Cell>)

  /** The ids of the placed ships. */
  function IdsOf(insts: seq<Instance>): set<int>
    decreases |insts|
  {
    if insts == [] then {}
    else IdsOf(insts[..|insts| - 1]) + {insts[|insts| - 1].id}
  }

  /** The cells of every placed ship with the given id, in placement order. */
  function CellsOf(insts: seq<Instance>, id: int): seq<Cell>
    decreases |insts|
  {
    if insts == [] then []
    else
      var last := insts[|insts| - 1];
      CellsOf(insts[..|insts| - 1], id) + (if last.id == id then last.cells else [])
  }

  /** Some placed ship covers c. */
  ghost predicate Occupied(insts: seq<Instance>, c: Cell) {
    exists k :: 0 <= k < |insts| && c in insts[k].cells
  }

  /** Two ships share no cell and no edge. */
  ghost predicate Apart(p: Instance, q: Instance) {
    forall c, d :: c in p.cells && d in q.cells ==> c != d && !Adjacent(c, d)
  }

  /** p is one ship of the catalog: its id has a shape and its cells are
      that shape's footprint at some anchor with non-negative coordinates, so
      it never has no cells and never stands for two ships at once. */
  ghost predicate IsShip(p: Instance) {
    && ShipShape(p.id).Some?
    && exists x: nat, y: nat :: p.cells == Footprint(x, y, ShipShape(p.id).value)
  }

  /** The board is exactly the result of placing `insts`: each ship is a
      catalog ship lying on the board with its id on its cells, every other
      cell is empty, no two ships overlap or touch edge to edge, and the
      recorded positions list, per id, the cells of the ships of that id. */
  ghost predicate Consistent(b: Board, insts: seq<Instance>) {
    && b.Valid()
    && (forall k :: 0 <= k < |insts| ==> ShipShape(insts[k].id).Some?)
    && (forall k, c :: 0 <= k < |insts| && c in insts[k].cells ==> b.Contains(c) && b.Tile(c) == insts[k].id)
    && (forall c :: b.Contains(c) && !Occupied(insts, c) ==> b.Tile(c) == 0)
    && (forall j, k :: 0 <= j < k < |insts| ==> Apart(insts[j], insts[k]))
    && b.positions.Keys == IdsOf(insts)
    && (forall id :: id in b.positions ==> b.positions[id] == CellsOf(insts, id))
  }

  // ---------------------------------------------------------------------------
  // Bookkeeping over the instance list
  // ---------------------------------------------------------------------------

  lemma {:induction false} AppendInstance(insts: seq<Instance>, ship: Instance, id: int)
    ensures IdsOf(insts + [ship]) == IdsOf(insts) + {ship.id}
    ensures CellsOf(insts + [ship], id) == CellsOf(insts, id) + (if ship.id == id then ship.cells else [])
  {
    assert (insts + [ship])[..|insts|] == insts;
  }

  lemma {:induction false} CellsOfAbsent(insts: seq<Instance>, id: int)
    requires id !in IdsOf(insts)
    ensures CellsOf(insts, id) == []
    decreases |insts|
  {
    if insts != [] {
      CellsOfAbsent(insts[..|insts| - 1], id);
    }
  }

  lemma {:induction false} CellsOfOwner(insts: seq<Instance>, id: int, c: Cell)
    requires c in CellsOf(insts, id)
    ensures exists k :: 0 <= k < |insts| && insts[k].id == id && c in insts[k].cells
    decreases |insts|
  {
    var n := |insts| - 1;
    var prefix := insts[..n];
    if c in CellsOf(prefix, id) {
      CellsOfOwner(prefix, id, c);
      var k :| 0 <= k < |prefix| && prefix[k].id == id && c in prefix[k].cells;
      assert insts[k] == prefix[k];
    } else {
      assert insts[n].id == id && c in insts[n].cells;
    }
  }

  // ---------------------------------------------------------------------------
  // A fresh or reset board
  // ---------------------------------------------------------------------------

  /** A fresh board and a reset board are both the board of no ships. */
  lemma EmptyBoardsConsistent(rows: nat, cols: nat, ships: seq<ShipCount>, b: Board)
    ensures Consistent(NewBoard(rows, cols, ships), [])
    ensures Consistent(ResetBoard(b), [])
    ensures BoardStats(ResetBoard(b)) == Stats(b.rows * b.cols, 0)
    ensures forall id :: GetShipPositions(ResetBoard(b), id) == []
  {
  }

  // ---------------------------------------------------------------------------
  // One placement keeps the invariant
  // ---------------------------------------------------------------------------

  /** The new ship neither overlaps nor touches any ship already placed. */
  lemma {:induction false} NewShipApart(b: Board, insts: seq<Instance>, x: int, y: int, id: int, k: int)
    requires Consistent(b, insts) && x >= 0 && y >= 0 && CanPlaceShip(b, x, y, id)
    requires 0 <= k < |insts|
    ensures Apart(insts[k], Instance(id, Footprint(x, y, ShipShape(id).value)))
  {
    var cells := Footprint(x, y, ShipShape(id).value);
    assert Feasible(b, x, y, ShipShape(id).value);
    forall c, d | c in insts[k].cells && d in cells ensures c != d && !Adjacent(c, d) {
      assert b.Tile(c) == insts[k].id && insts[k].id != 0;
      assert b.Contains(d) && b.Tile(d) == 0;
      AdjacentSymmetric(c, d);
    }
  }

  /** The parts of the placement step, one conjunct of the invariant each. */
  lemma OldShipCellKept(b: Board, insts: seq<Instance>, x: int, y: int, id: int, k: int, c: Cell)
    requires Consistent(b, insts) && x >= 0 && y >= 0 && CanPlaceShip(b, x, y, id)
    requires 0 <= k < |insts| && c in insts[k].cells
    ensures b.Contains(c) && PlaceShip(b, x, y, id).Tile(c) == insts[k].id
  {
    NewShipApart(b, insts, x, y, id, k);
    assert c !in Footprint(x, y, ShipShape(id).value);
  }

  lemma PlaceShipTiles(b: Board, insts: seq<Instance>, x: int, y: int, id: int)
    requires Consistent(b, insts) && x >= 0 && y >= 0 && CanPlaceShip(b, x, y, id)
    ensures var b' := PlaceShip(b, x, y, id);
            var insts' := insts + [Instance(id, Footprint(x, y, ShipShape(id).value))];
            forall k, c :: 0 <= k < |insts'| && c in insts'[k].cells ==> b'.Contains(c) && b'.Tile(c) == insts'[k].id
  {
    var cells := Footprint(x, y, ShipShape(id).value);
    var ship := Instance(id, cells);
    var insts' := insts + [ship];
    var n := |insts|;
    forall k, c | 0 <= k < |insts'| && c in insts'[k].cells
      ensures PlaceShip(b, x, y, id).Contains(c) && PlaceShip(b, x, y, id).Tile(c) == insts'[k].id
    {
      if k < n {
        assert insts'[k] == insts[k];
        OldShipCellKept(b, insts, x, y, id, k, c);
      } else {
        assert insts'[k] == ship;
      }
    }
  }

  lemma PlaceShipEmpty(b: Board, insts: seq<Instance>, x: int, y: int, id: int)
    requires Consistent(b, insts) && x >= 0 && y >= 0 && CanPlaceShip(b, x, y, id)
    ensures var b' := PlaceShip(b, x, y, id);
            var insts' := insts + [Instance(id, Footprint(x, y, ShipShape(id).value))];
            forall c :: b'.Contains(c) && !Occupied(insts', c) ==> b'.Tile(c) == 0
  {
    var cells := Footprint(x, y, ShipShape(id).value);
    var ship := Instance(id, cells);
    var b' := PlaceShip(b, x, y, id);
    var insts' := insts + [ship];
    var n := |insts|;
    assert insts'[n] == ship;
    assert forall k :: 0 <= k < n ==> insts'[k] == insts[k];
    forall c | b'.Contains(c) && !Occupied(insts', c) ensures b'.Tile(c) == 0 {
      assert c !in cells;
      assert !Occupied(insts, c);
    }
  }

  lemma PlaceShipApart(b: Board, insts: seq<Instance>, x: int, y: int, id: int)
    requires Consistent(b, insts) && x >= 0 && y >= 0 && CanPlaceShip(b, x, y, id)
    ensures var insts' := insts + [Instance(id, Footprint(x, y, ShipShape(id).value))];
            && (forall k :: 0 <= k < |insts'| ==> ShipShape(insts'[k].id).Some?)
            && (forall j, k :: 0 <= j < k < |insts'| ==> Apart(insts'[j], insts'[k]))
  {
    var ship := Instance(id, Footprint(x, y, ShipShape(id).value));
    var insts' := insts + [ship];
    var n := |insts|;
    assert insts'[n] == ship;
    assert forall k :: 0 <= k < n ==> insts'[k] == insts[k];
    forall j, k | 0 <= j < k < |insts'| ensures Apart(insts'[j], insts'[k]) {
      if k == n {
        NewShipApart(b, insts, x, y, id, j);
      }
    }
  }

  lemma PlaceShipPositions(b: Board, insts: seq<Instance>, x: int, y: int, id: int)
    requires Consistent(b, insts) && x >= 0 && y >= 0 && CanPlaceShip(b, x, y, id)
    ensures var b' := PlaceShip(b, x, y, id);
            var insts' := insts + [Instance(id, Footprint(x, y, ShipShape(id).value))];
            && b'.positions.Keys == IdsOf(insts')
            && (forall i :: i in b'.positions ==> b'.positions[i] == CellsOf(insts', i))
  {
    var ship := Instance(id, Footprint(x, y, ShipShape(id).value));
    var b' := PlaceShip(b, x, y, id);
    var insts' := insts + [ship];
    AppendInstance(insts, ship, id);
    forall i | i in b'.positions ensures b'.positions[i] == CellsOf(insts', i) {
      AppendInstance(insts, ship, i);
      if i == id && id !in b.positions {
        CellsOfAbsent(insts, id);
      }
    }
  }

  /** Stamping a ship that the feasibility test accepted onto a consistent
      board gives a consistent board with that ship added at the end. */
  lemma PlaceShipKeepsConsistent(b: Board, insts: seq<Instance>, x: int, y: int, id: int)
    requires Consistent(b, insts) && x >= 0 && y >= 0 && CanPlaceShip(b, x, y, id)
    ensures Consistent(PlaceShip(b, x, y, id), insts + [Instance(id, Footprint(x, y, ShipShape(id).value))])
  {
    PlaceShipTiles(b, insts, x, y, id);
    PlaceShipEmpty(b, insts, x, y, id);
    PlaceShipApart(b, insts, x, y, id);
    PlaceShipPositions(b, insts, x, y, id);
  }

  // ---------------------------------------------------------------------------
  // Placing all requested ships keeps the invariant
  // ---------------------------------------------------------------------------

  /** The instance lists a successful placement run can add to insts:
      one whole catalog ship per pending id, in order, leaving a consistent
      board. */
  ghost predicate AddsShips(r: Board, insts: seq<Instance>, pending: seq<int>, more: seq<Instance>) {
    && |more| == |pending|
    && (forall k :: 0 <= k < |more| ==> more[k].id == pending[k] && IsShip(more[k]))
    && Consistent(r, insts + more)
  }

  lemma PrependShip(r: Board, insts: seq<Instance>, ship: Instance, pending: seq<int>, more': seq<Instance>)
    requires pending != [] && ship.id == pending[0] && IsShip(ship)
    requires AddsShips(r, insts + [ship], pending[1..], more')
    ensures AddsShips(r, insts, pending, [ship] + more')
  {
    var more := [ship] + more';
    assert insts + [ship] + more' == insts + more;
    forall k | 0 <= k < |more| ensures more[k].id == pending[k] && IsShip(more[k]) {
      if k > 0 {
        assert more[k] == more'[k - 1];
      }
    }
  }

  lemma AnchorsTail(b: Board, b': Board, anchors: seq<Cell>)
    requires anchors != [] && AnchorsOnBoard(b, anchors)
    requires b'.rows == b.rows && b'.cols == b.cols
    ensures b.Contains(anchors[0]) && AnchorsOnBoard(b', anchors[1..])
  {
    var rest := anchors[1..];
    forall i | 0 <= i < |rest| ensures b'.Contains(rest[i]) {
      assert rest[i] == anchors[i + 1];
      assert b.Contains(anchors[i + 1]);
    }
    assert b.Contains(anchors[0]);
  }

  /** If placement from a consistent board finishes, the final board is the
      board of the old ships plus one new ship per pending id, in order. */
  lemma {:induction false} PlaceAllKeepsConsistent(
    b: Board, insts: seq<Instance>, pending: seq<int>, anchors: seq<Cell>)
    requires Consistent(b, insts) && AnchorsOnBoard(b, anchors)
    ensures PlaceAll(b, pending, anchors).Some? ==>
              exists more :: AddsShips(PlaceAll(b, pending, anchors).value, insts, pending, more)
    decreases |anchors|
  {
    if pending == [] {
      assert insts + [] == insts;
      assert AddsShips(b, insts, pending, []);
    } else if anchors != [] {
      var a := anchors[0];
      var rest := anchors[1..];
      AnchorsTail(b, b, anchors);
      if CanPlaceShip(b, a.x, a.y, pending[0]) {
        var b' := PlaceShip(b, a.x, a.y, pending[0]);
        var ship := Instance(pending[0], Footprint(a.x, a.y, ShipShape(pending[0]).value));
        PlaceShipKeepsConsistent(b, insts, a.x, a.y, pending[0]);
        AnchorsTail(b, b', anchors);
        PlaceAllKeepsConsistent(b', insts + [ship], pending[1..], rest);
        var r := PlaceAll(b, pending, anchors);
        assert r == PlaceAll(b', pending[1..], rest);
        if r.Some? {
          var more' :| AddsShips(r.value, insts + [ship], pending[1..], more');
          assert IsShip(ship) by {
            var ax: nat, ay: nat := a.x, a.y;
            assert ship.cells == Footprint(ax, ay, ShipShape(ship.id).value);
          }
          PrependShip(r.value, insts, ship, pending, more');
        }
      } else {
        PlaceAllKeepsConsistent(b, insts, pending, rest);
      }
    }
  }

  /** Whenever placement finishes on a consistent board (in particular a
      fresh or reset one), every requested ship has been added and no two
      ships on the final board overlap or touch edge to edge. */
  lemma PlaceShipsKeepsConsistent(b: Board, insts: seq<Instance>, anchors: seq<Cell>)
    requires Consistent(b, insts) && AnchorsOnBoard(b, anchors)
    ensures PlaceShips(b, anchors).Some? ==>
              exists more :: AddsShips(PlaceShips(b, anchors).value, insts, Pending(b.ships), more)
  {
    PlaceAllKeepsConsistent(b, insts, Pending(b.ships), anchors);
  }

  /** Two dominoes (ship id 1) on a row of four cells either overlap or
      touch edge to edge. */
  lemma DominoesClash(px: nat, qx: nat)
    requires px + 1 < 4 && qx + 1 < 4
    ensures var domino := [Offset(0, 0), Offset(1, 0)];
            !Apart(Instance(1, Footprint(px, 0, domino)), Instance(1, Footprint(qx, 0, domino)))
  {
    var domino := [Offset(0, 0), Offset(1, 0)];
    var p, q := Footprint(px, 0, domino), Footprint(qx, 0, domino);
    assert p[0] == Cell(px, 0) && p[1] == Cell(px + 1, 0);
    assert q[0] == Cell(qx, 0) && q[1] == Cell(qx + 1, 0);
    assert p[0] in p && p[1] in p && q[0] in q && q[1] in q;
    if px == qx {
      assert p[0] == q[0];
    } else if px < qx {
      assert p[1] == q[0] || Adjacent(p[1], q[0]);
    } else {
      assert Adjacent(p[0], q[1]) || p[0] == q[1];
    }
  }

  /** No consistent board of one row and four columns holds two ships of
      id 1. */
  lemma NoTwoDominoes(b: Board, more: seq<Instance>)
    requires b.rows == 1 && b.cols == 4 && |more| == 2 && more[0].id == 1 && more[1].id == 1
    requires IsShip(more[0]) && IsShip(more[1])
    ensures !Consistent(b, more)
  {
    if Consistent(b, more) {
      var domino := [Offset(0, 0), Offset(1, 0)];
      assert ShipShape(1).value == domino;
      var p, q := more[0], more[1];
      var px: nat, py: nat :| p.cells == Footprint(px, py, domino);
      var qx: nat, qy: nat :| q.cells == Footprint(qx, qy, domino);
      assert p.cells[1] == Cell(px + 1, py) && b.Contains(p.cells[1]);
      assert q.cells[1] == Cell(qx + 1, qy) && b.Contains(q.cells[1]);
      assert p == Instance(1, Footprint(px, 0, domino)) && q == Instance(1, Footprint(qx, 0, domino));
      DominoesClash(px, qx);
    }
  }

  /** The fully occupied 1x4 board with two recorded dominoes is not the
      outcome of placing two ships of id 1: the invariant keeps them apart. */
  lemma TouchingPairExcluded(more: seq<Instance>)
    ensures var row := [Cell(0, 0), Cell(1, 0), Cell(2, 0), Cell(3, 0)];
            var b := Board(1, 4, [ShipCount(1, 2)], [[1, 1, 1, 1]], map[1 := row]);
            !AddsShips(b, [], Pending(b.ships), more)
  {
    var row := [Cell(0, 0), Cell(1, 0), Cell(2, 0), Cell(3, 0)];
    var b := Board(1, 4, [ShipCount(1, 2)], [[1, 1, 1, 1]], map[1 := row]);
    assert Pending(b.ships) == [1, 1];
    if AddsShips(b, [], [1, 1], more) {
      assert [] + more == more;
      NoTwoDominoes(b, more);
    }
  }

  // ---------------------------------------------------------------------------
  // Ids outside the catalog
  // ---------------------------------------------------------------------------

  lemma {:induction false} RepeatContains(id: int, n: int)
    requires n > 0
    ensures id in Repeat(id, n)
  {
  }

  lemma {:induction false} PendingContains(ships: seq<ShipCount>, k: int)
    requires 0 <= k < |ships| && ships[k].count > 0
    ensures ships[k].id in Pending(ships)
    decreases |ships|
  {
    if k == 0 {
      RepeatContains(ships[0].id, ships[0].count);
    } else {
      PendingContains(ships[1..], k - 1);
    }
  }

  lemma {:induction false} PlaceAllStuckOnUnknownId(b: Board, pending: seq<int>, anchors: seq<Cell>, bad: int)
    requires b.Valid() && AnchorsOnBoard(b, anchors)
    requires bad in pending && ShipShape(bad).None?
    ensures PlaceAll(b, pending, anchors).None?
    decreases |anchors|
  {
    if anchors != [] {
      var a := anchors[0];
      var rest := anchors[1..];
      assert b.Contains(a);
      assert AnchorsOnBoard(b, rest) by {
        forall i | 0 <= i < |rest| ensures b.Contains(rest[i]) {
          assert rest[i] == anchors[i + 1];
        }
      }
      if CanPlaceShip(b, a.x, a.y, pending[0]) {
        var b' := PlaceShip(b, a.x, a.y, pending[0]);
        assert pending[0] != bad;
        assert bad in pending[1..];
        assert AnchorsOnBoard(b', rest) by {
          forall i | 0 <= i < |rest| ensures b'.Contains(rest[i]) {
            assert b.Contains(rest[i]);
          }
        }
        PlaceAllStuckOnUnknownId(b', pending[1..], rest, bad);
      } else {
        PlaceAllStuckOnUnknownId(b, pending, rest, bad);
      }
    }
  }

  /** A positive request for an id outside the catalog can never be met:
      placement only ends by running out of anchors. */
  lemma UnknownIdNeverPlaced(b: Board, anchors: seq<Cell>, k: int)
    requires b.Valid() && AnchorsOnBoard(b, anchors)
    requires 0 <= k < |b.ships| && b.ships[k].count > 0 && ShipShape(b.ships[k].id).None?
    ensures PlaceShips(b, anchors).None?
  {
    PendingContains(b.ships, k);
    PlaceAllStuckOnUnknownId(b, Pending(b.ships), anchors, b.ships[k].id);
  }

  // ---------------------------------------------------------------------------
  // Recorded positions
  // ---------------------------------------------------------------------------

  /** On a consistent board the recorded positions of an id are the cells of
      the ships of that id in placement order, each holding that id; an id
      never placed has none. */
  lemma ShipPositionsAgree(b: Board, insts: seq<Instance>, id: int)
    requires Consistent(b, insts)
    ensures GetShipPositions(b, id) == CellsOf(insts, id)
    ensures id !in IdsOf(insts) ==> GetShipPositions(b, id) == []
    ensures forall c :: c in GetShipPositions(b, id) ==> GetTile(b, c.x, c.y) == Ok(id)
  {
    if id !in b.positions {
      CellsOfAbsent(insts, id);
    }
    forall c | c in GetShipPositions(b, id) ensures GetTile(b, c.x, c.y) == Ok(id) {
      CellsOfOwner(insts, id, c);
    }
  }

  // ---------------------------------------------------------------------------
  // Board statistics under placement
  // ---------------------------------------------------------------------------

  lemma {:induction false} CountZerosUpdate(row: seq<int>, i: int, v: int)
    requires 0 <= i < |row| && row[i] == 0 && v != 0
    ensures CountZeros(row[i := v]) == CountZeros(row) - 1
    decreases |row|
  {
    if i > 0 {
      assert row[i := v][1..] == row[1..][i - 1 := v];
      CountZerosUpdate(row[1..], i - 1, v);
    } else {
      assert row[i := v][1..] == row[1..];
    }
  }

  lemma {:induction false} CountEmptyUpdate(grid: seq<seq<int>>, cols: nat, c: Cell, v: int)
    requires forall y :: 0 <= y < |grid| ==> |grid[y]| == cols
    requires 0 <= c.y < |grid| && 0 <= c.x < cols && At(grid, c) == 0 && v != 0
    ensures CountEmpty(Update(grid, c, v), cols) == CountEmpty(grid, cols) - 1
    decreases |grid|
  {
    var g' := Update(grid, c, v);
    if c.y == 0 {
      assert g'[1..] == grid[1..];
      assert g'[0] == grid[0][c.x := v];
      CountZerosUpdate(grid[0], c.x, v);
    } else {
      assert g'[1..] == Update(grid[1..], Cell(c.x, c.y - 1), v);
      assert g'[0] == grid[0];
      CountEmptyUpdate(grid[1..], cols, Cell(c.x, c.y - 1), v);
    }
  }

  lemma {:induction false} StampCount(grid: seq<seq<int>>, cols: nat, acc: seq<Cell>, cells: seq<Cell>, id: int)
    requires forall y :: 0 <= y < |grid| ==> |grid[y]| == cols
    requires forall c :: c in cells ==> 0 <= c.y < |grid| && 0 <= c.x < cols && At(grid, c) == 0
    requires forall i, j :: 0 <= i < j < |cells| ==> cells[i] != cells[j]
    requires id != 0
    ensures CountEmpty(Stamp(grid, acc, cells, id).0, cols) == CountEmpty(grid, cols) - |cells|
    decreases |cells|
  {
    if cells != [] {
      var g1 := Update(grid, cells[0], id);
      var rest := cells[1..];
      CountEmptyUpdate(grid, cols, cells[0], id);
      forall c | c in rest ensures 0 <= c.y < |g1| && 0 <= c.x < cols && At(g1, c) == 0 {
        var j :| 0 <= j < |rest| && rest[j] == c;
        assert cells[j + 1] == c;
      }
      forall i, j | 0 <= i < j < |rest| ensures rest[i] != rest[j] {
        assert rest[i] == cells[i + 1] && rest[j] == cells[j + 1];
      }
      StampCount(g1, cols, acc + [cells[0]], rest, id);
    }
  }

  /** Each accepted placement turns exactly as many empty cells into
      occupied ones as the ship has cells. */
  lemma PlaceShipStats(b: Board, x: int, y: int, id: int)
    requires b.Valid() && x >= 0 && y >= 0 && CanPlaceShip(b, x, y, id)
    ensures var size := |ShipShape(id).value|;
            && BoardStats(PlaceShip(b, x, y, id)).emptySpaces == BoardStats(b).emptySpaces - size
            && BoardStats(PlaceShip(b, x, y, id)).occupiedSpaces == BoardStats(b).occupiedSpaces + size
  {
    var shape := ShipShape(id).value;
    var cells := Footprint(x, y, shape);
    FootprintDistinct(x, y, shape);
    assert Feasible(b, x, y, shape);
    forall c | c in cells ensures 0 <= c.y < |b.grid| && 0 <= c.x < b.cols && At(b.grid, c) == 0 {
      assert b.Contains(c) && b.Tile(c) == 0;
    }
    StampCount(b.grid, b.cols, GetShipPositions(b, id), cells, id);
  }

  // ---------------------------------------------------------------------------
  // A one-by-three board with one three-cell ship
  // ---------------------------------------------------------------------------

  /** One row of three empty cells, asked for one ship of id 2. */
  function Strip(): Board {
    NewBoard(1, 3, [ShipCount(2, 1)])
  }

  /** The strip with the ship placed. */
  function FullStrip(): Board {
    Board(1, 3, [ShipCount(2, 1)], [[2, 2, 2]], map[2 := [Cell(0, 0), Cell(1, 0), Cell(2, 0)]])
  }

  /** The three-cell horizontal ship fits the strip only when anchored at
      its left end. */
  lemma StripAnchors(x: int, y: int)
    requires x >= 0 && y >= 0
    ensures CanPlaceShip(Strip(), x, y, 2) <==> x == 0 && y == 0
  {
    var b := Strip();
    var shape := ShipShape(2).value;
    var cells := Footprint(x, y, shape);
    assert shape == [Offset(0, 0), Offset(1, 0), Offset(2, 0)];
    if x == 0 && y == 0 {
      forall c, n | c in cells && Adjacent(c, n) && b.Contains(n) ensures b.Tile(n) == 0 {
      }
    } else {
      assert cells[2] == Cell(x + 2, y);
      assert !b.Contains(cells[2]);
    }
  }

  lemma StripPlaced()
    ensures PlaceShip(Strip(), 0, 0, 2) == FullStrip()
  {
    var b' := PlaceShip(Strip(), 0, 0, 2);
    var cells := Footprint(0, 0, ShipShape(2).value);
    assert cells == [Cell(0, 0), Cell(1, 0), Cell(2, 0)];
    assert b'.Tile(Cell(0, 0)) == 2 && b'.Tile(Cell(1, 0)) == 2 && b'.Tile(Cell(2, 0)) == 2;
    assert b'.grid[0] == [2, 2, 2];
    assert b'.grid == [[2, 2, 2]];
    assert b'.positions.Keys == {2};
    assert b'.positions[2] == [] + cells == [Cell(0, 0), Cell(1, 0), Cell(2, 0)];
    var full := FullStrip().positions;
    assert full.Keys == {2} && full[2] == [Cell(0, 0), Cell(1, 0), Cell(2, 0)];
    assert forall i :: i in full ==> full[i] == b'.positions[i];
    assert b'.positions == full;
  }

  lemma {:induction false} StripStream(anchors: seq<Cell>)
    requires AnchorsOnBoard(Strip(), anchors)
    ensures PlaceAll(Strip(), [2], anchors) == if Cell(0, 0) in anchors then Some(FullStrip()) else None
    decreases |anchors|
  {
    if anchors != [] {
      var a := anchors[0];
      AnchorsTail(Strip(), Strip(), anchors);
      StripAnchors(a.x, a.y);
      if a == Cell(0, 0) {
        StripPlaced();
      } else {
        StripStream(anchors[1..]);
        assert Cell(0, 0) in anchors <==> Cell(0, 0) in anchors[1..];
      }
    }
  }

  /** On the strip, placement succeeds exactly when the anchor stream ever
      offers the left end, and then fills the strip with the one ship. The
      same holds after any reset of the filled strip. */
  lemma StripScenario(anchors: seq<Cell>)
    requires AnchorsOnBoard(Strip(), anchors)
    ensures PlaceShips(Strip(), anchors) == if Cell(0, 0) in anchors then Some(FullStrip()) else None
    ensures ResetBoard(FullStrip()) == Strip()
  {
    assert Pending(Strip().ships) == [2];
    StripStream(anchors);
    assert ResetBoard(FullStrip()).grid == Strip().grid;
  }
}
