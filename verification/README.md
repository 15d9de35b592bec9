# Battleships core in Dafny

A model of the two game components of a Battleships program and proofs about
them:

- **BoardSetup** is the board builder. It has a fixed catalog of seven ship
  shapes. Its feasibility test rejects a ship that would overlap another ship,
  leave the board, or touch another ship edge to edge. It stamps a ship onto
  the grid and records the ship's cells. It places every requested ship
  using a stream of candidate anchor cells. It also reads tiles with a bounds
  check, resets the board and counts empty and occupied cells.
- **Strategy** is the targeting engine. It holds a belief grid over the
  opponent's board (`?`, `H`, `M`, `S`, `X` become `Unknown`, `Hit`, `Miss`,
  `Sunk`, `Blocked`) and the remaining-ships mapping. It scores every cell by
  counting the all-unknown horizontal and vertical windows that cover it. It
  picks the first best unknown cell in row-major order. It updates its
  beliefs when an attack result is reported.

Files:

- `grid.dfy` (module `Grid`): cells, `Option`/`Result`, and grids stored row
  by row (`g[y][x]`).
- `board_setup.dfy` (module `BoardSetup`): the builder's operations.
- `board_properties.dfy` (module `BoardProperties`): the placement
  invariant `Consistent` (ships have catalog ids, lie on the board, carry
  their id, never overlap or touch another ship, and the recorded positions
  match). Each ship a placement run adds is moreover one whole catalog shape
  at some anchor (`IsShip`). It is proved to be
  preserved by every placement step and by a whole placement run. This file
  also holds the statistics and unknown-id lemmas and a worked example.
- `strategy.dfy` (module `Strategy`): the engine's operations. The
  probability map is a loop program proved equal to a declarative per-cell
  `Score`.
- `strategy_properties.dfy` (module `StrategyProperties`): lemmas about
  scores, the choice of attack, the remaining-length budget, and two worked
  examples.

Python dictionaries are modelled as sequences of entries in their iteration
order. A ship's recorded positions are a Dafny `map` from id to a sequence
of cells.

The random anchor draw is a parameter: `PlaceShips` takes the sequence of
anchors the draw would produce. It returns `None` when the given anchors run
out before every ship is placed. `place_ships` would keep drawing instead; it
never stops only when no anchor is ever feasible, as for an id outside the
catalog.

Two behaviours of the code a reader may not expect:

- A requested ship id outside the catalog is not skipped. `_can_place_ship`
  rejects every anchor for it, so `place_ships` never finishes. The lemma
  `BoardProperties.UnknownIdNeverPlaced` states this: any finite anchor
  stream runs out.
- `register_attack` writes the new belief whatever the cell held before. A
  `Miss`, `Sunk` or `Blocked` cell can therefore be overwritten.
  `Strategy.RegisterAttack` states exactly this, with no restriction on the
  old belief.

## Model

| member | source | states |
|---|---|---|
| BoardSetup.ShipShape | board_setup/board_setup.py:3-11 | exactly ids 1 to 7 have a shape; each shape has 2 to 5 distinct offsets and starts at its anchor (0, 0) |
| BoardSetup.FootprintDistinct | board_setup/board_setup.py:59-64 | the cells a shape stamps are pairwise distinct, so a placement writes as many cells as the shape has |
| BoardSetup.NewBoard | board_setup/board_setup.py:14-19 | a new builder is a rows×cols grid of empty cells with no recorded positions and keeps the requested ships |
| BoardSetup.GetTile | board_setup/board_setup.py:24-27 | reading fails with OutOfBounds exactly when the coordinate is off the board; otherwise it returns the cell at column x, row y |
| BoardSetup.GetShipPositions | board_setup/board_setup.py:75-79 | an id never placed has no positions; otherwise the recorded list is returned |
| BoardSetup.ResetBoard | board_setup/board_setup.py:66-68 | after a reset every cell is empty and no positions are recorded; dimensions and requested ships are unchanged |
| BoardSetup.ScanFootprint | board_setup/board_setup.py:44-48 | the overlap scan, with an index past the grid end counted as a rejection, accepts exactly when every footprint cell is on the board and empty |
| BoardSetup.ScanNeighbours | board_setup/board_setup.py:49-54 | the neighbour scan accepts exactly when no on-board orthogonal neighbour of a footprint cell is occupied |
| BoardSetup.CanPlaceShip | board_setup/board_setup.py:40-57 | the test is true exactly when the id has a shape and the footprint lies on empty cells with no occupied orthogonal neighbour; a true test implies the whole footprint is on the board |
| BoardSetup.Stamp | board_setup/board_setup.py:62-64 | footprint cells get the id, all other cells keep their value, and the position list grows by the footprint in offset order |
| BoardSetup.PlaceShip | board_setup/board_setup.py:59-64 | footprint cells hold the id and all other cells are unchanged; the id's position list is its old list (empty if absent) followed by the footprint; other ids keep their lists |
| BoardSetup.PlaceAll | board_setup/board_setup.py:30-38 | a completed run keeps dimensions and requested ships; with ships still pending and no anchors left it does not complete |
| BoardSetup.PlaceShips | board_setup/board_setup.py:29-38 | a completed placement keeps the board's shape; with a ship to place and no anchors it cannot complete |
| BoardSetup.CountZeros | board_setup/board_setup.py:71 | the number of empty entries of a row is at most its length and equals it exactly when the whole row is empty |
| BoardSetup.CountEmpty | board_setup/board_setup.py:71 | the empty count is at most rows×cols and reaches it exactly when every cell is empty |
| BoardSetup.BoardStats | board_setup/board_setup.py:70-73 | empty and occupied counts are non-negative and add up to rows×cols; occupied is zero exactly when the board is empty |
| BoardProperties.EmptyBoardsConsistent | board_setup/board_setup.py:14-19 | a new builder and a reset builder both satisfy the placement invariant with no ships; a reset board has rows×cols empty cells and no positions for any id |
| BoardProperties.NewShipApart | board_setup/board_setup.py:45-54 | a ship accepted by the feasibility test shares no cell and no edge with any ship already on a consistent board |
| BoardProperties.PlaceShipTiles | board_setup/board_setup.py:62-63 | after stamping, every ship (old and new) still lies on the board with its id on each of its cells |
| BoardProperties.PlaceShipEmpty | board_setup/board_setup.py:62-63 | after stamping, every cell covered by no ship is still empty |
| BoardProperties.PlaceShipApart | board_setup/board_setup.py:40-57 | after stamping, all ships have catalog ids and no two of them overlap or touch edge to edge |
| BoardProperties.PlaceShipPositions | board_setup/board_setup.py:61-64 | after stamping, the recorded ids are those of the placed ships, and each id's list is the cells of its ships in placement order |
| BoardProperties.PlaceShipKeepsConsistent | board_setup/board_setup.py:36-37 | stamping a ship the test accepted onto a consistent board yields a consistent board with that ship appended |
| BoardProperties.PlaceAllKeepsConsistent | board_setup/board_setup.py:30-38 | a completed placement run adds exactly one ship per pending id, in order, each being that id's catalog shape at some anchor; the final board is consistent: no overlaps, no edge contact, positions match |
| BoardProperties.PlaceShipsKeepsConsistent | board_setup/board_setup.py:29-38 | completed placement from a consistent board (e.g. new or reset) adds every requested ship, each a whole catalog shape, with no two ships overlapping or touching edge to edge, also when they share an id |
| BoardProperties.DominoesClash | board_setup/board_setup.py:4 | two id-1 ships (dominoes) on a row of four cells always overlap or touch edge to edge |
| BoardProperties.TouchingPairExcluded | board_setup/board_setup.py:29-57 | a 1×4 row fully occupied by id 1, with two id-1 ships requested, is not the outcome of any completed placement: the two ships would touch |
| BoardProperties.PendingContains | board_setup/board_setup.py:30-31 | every id requested with a positive count is among the ships to place |
| BoardProperties.PlaceAllStuckOnUnknownId | board_setup/board_setup.py:33-38 | if an id without a shape is pending, no anchor stream completes the run |
| BoardProperties.UnknownIdNeverPlaced | board_setup/board_setup.py:41-43 | requesting at least one ship of an id outside the catalog means placement never completes, whatever the anchors |
| BoardProperties.ShipPositionsAgree | board_setup/board_setup.py:75-79 | on a consistent board the positions reported for an id are the cells of its ships in placement order, each reading back as that id through the bounds-checked accessor |
| BoardProperties.CountEmptyUpdate | board_setup/board_setup.py:71 | writing a non-zero id over one empty cell lowers the empty count by exactly one |
| BoardProperties.StampCount | board_setup/board_setup.py:62-63 | stamping distinct empty cells lowers the empty count by their number |
| BoardProperties.PlaceShipStats | board_setup/board_setup.py:70-73 | each accepted placement moves exactly the shape's size from the empty count to the occupied count |
| BoardProperties.StripAnchors | board_setup/board_setup.py:40-57 | on a 1×3 empty board the three-cell horizontal ship fits only when anchored at (0, 0) |
| BoardProperties.StripScenario | board_setup/board_setup.py:29-38 | on the 1×3 board, placement completes exactly when the stream ever offers (0, 0), and then fills the row with id 2 and records its three cells; resetting gives back the empty board |
| Strategy.NewState | strategy/strategy.py:4-8 | a new engine believes every cell unknown and keeps the remaining-ships entries |
| Strategy.CalculateProbabilityMap | strategy/strategy.py:22-41 | each cell of the map holds the number of all-unknown horizontal and vertical windows of each positive remaining length that cover it |
| Strategy.GetNextAttack | strategy/strategy.py:10-20 | the chosen cell is unknown, no unknown cell scores higher, and every unknown cell before it in row-major order scores strictly lower; at least one unknown cell is required |
| Strategy.DecrementFirst | strategy/strategy.py:53-56 | using up a length keeps the entries and their keys in order, and changes nothing when no length is positive |
| Strategy.DecrementFirstAt | strategy/strategy.py:53-56 | when some length is positive, exactly the first such entry loses one and every other entry is unchanged |
| Strategy.BlockUnknown | strategy/strategy.py:58-62 | the listed on-board cells that were unknown become blocked; every other cell keeps its belief |
| Strategy.MarkSunk | strategy/strategy.py:51-62 | the sunk cell becomes Sunk; its unknown orthogonal neighbours become Blocked and other cells are unchanged; the first positive remaining length drops by one |
| Strategy.RegisterAttack | strategy/strategy.py:43-49 | a miss or plain hit changes only the attacked cell; a sinking hit also blocks the unknown neighbours of that cell and uses up one remaining length if any is positive |
| StrategyProperties.ScoreZeroOffUnknown | strategy/strategy.py:29-39 | a cell already hit, missed, sunk or blocked scores zero, because no all-unknown window covers it |
| StrategyProperties.ContributionEdgeCases | strategy/strategy.py:24-30 | a non-positive length adds nothing, a length longer than a row (column) adds no horizontal (vertical) window, and length one adds exactly two on an unknown cell |
| StrategyProperties.FirstBestUnique | strategy/strategy.py:15-18 | at most one cell is the first best unknown cell, so the attack is determined by the state |
| StrategyProperties.DecrementFirstTotal | strategy/strategy.py:53-56 | a sink lowers the total remaining length by exactly one when some length is positive and leaves it unchanged otherwise |
| StrategyProperties.DecrementFirstNonNegative | strategy/strategy.py:53-56 | a sink never makes a non-negative remaining length negative |
| StrategyProperties.AllSunkIffNoLength | strategy/strategy.py:70-71 | with non-negative lengths, every ship counts as sunk exactly when the total remaining length is zero |
| StrategyProperties.SinkProgress | strategy/strategy.py:43-56 | reporting a sink while a ship is afloat lowers the total remaining length by one; once all are sunk the entries stay as they are |
| StrategyProperties.AttackOnlyLearns | strategy/strategy.py:43-62 | no report makes a cell unknown again, and a cell becomes blocked only when it was an unknown neighbour of a reported sink |
| StrategyProperties.Row4Scores | strategy/strategy.py:22-41 | on a 1×4 unknown row with one length-2 entry, the map is 1, 2, 2, 1 |
| StrategyProperties.Row4Attack | strategy/strategy.py:10-20 | on that row the chosen attack is (1, 0), the leftmost of the two best cells, and no other |
| StrategyProperties.Square3Sink | strategy/strategy.py:43-62 | a sink at (2, 0) on a 3×3 unknown board makes (2, 0) sunk and blocks (1, 0) and (2, 1); all else stays unknown, and the first entry's length drops from 2 to 1 |

## Left out

- Random anchors: `random.randint` is replaced by an injected anchor sequence. The model's `None` result means only that the given anchors ran out; `place_ships` would keep drawing and would still finish if a feasible anchor came later. Its retry is endless only when no anchor is feasible, for example for an id with no shape (`BoardProperties.UnknownIdNeverPlaced`). The model does not represent non-termination.
- An empty board (zero rows or columns) makes `randint` raise `ValueError`. The model has no anchors on such a board, so placement with ships pending returns `None`.
- Negative indices: Python lists accept negative indices and wrap around. Anchors come from the board, so `CanPlaceShip` requires a non-negative anchor. `RegisterAttack` and `MarkSunk` require an on-board cell, because `register_attack` and `_mark_sunk` do no bounds check on it.
- BoardSetup.PlaceShip: requires a catalog id and an on-board footprint. `place_ships` only calls it after the feasibility test, which guarantees both.
- Strategy.GetNextAttack: requires some unknown cell. With none, `max` over an empty generator raises `ValueError`.
- Negative `rows` or `cols`: dimensions are `nat`, so such a board cannot be built. In Python the grid would be empty (a negative `range` is empty), yet `board_stats` would still report `rows * cols` occupied cells: 6 for rows -2 and cols -3, and -2 for rows 2 and cols -1. The model does not reproduce these counts.
- The `not shape` branch for an empty shape list: no catalog shape is empty, so only the missing-id case of that branch is modelled.
- `get_board`, `get_enemy_board`, `get_remaining_ships` are left out. They return the internal objects by reference, and the model's state is a value that callers read directly.
- Aliasing between the two components: each owns its own state in the model.
- Strategy.AllShipsSunk: a predicate with no contract of its own. `StrategyProperties.AllSunkIffNoLength` and `StrategyProperties.SinkProgress` state what it means.
- BoardSetup.Pending: the flattening of the requested (id, count) pairs into one id per ship has no contract of its own. `BoardProperties.PendingContains` states the property the proofs use.
