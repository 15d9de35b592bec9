/** The targeting engine: a belief grid over the opponent's board, a
    remaining-length budget per ship entry, the window-counting heuristic
    that scores each unknown cell, the choice of the next attack, and the
    updates made when an attack result is reported. */
module Strategy {
  import opened Grid

  /** What is known about one opponent cell: '?', 'H', 'M', 'S' and 'X'. */
  datatype Belief = Unknown | Hit | Miss | Sunk | Blocked

  /** One entry of the remaining-ships mapping: its key and the remaining
      length value that the heuristic uses as a ship length. */
  datatype Remaining = Remaining(id: int, length: int)

  /** The engine's state. `ships` lists the mapping's entries in its
      iteration order. */
  datatype State = State(rows: nat, cols: nat, ships: seq<Remaining>, board: seq<seq<Belief>>)
  {
    predicate Valid() {
      IsGrid(board, rows, cols)
    }

    predicate Contains(c: Cell) {
      InBounds(rows, cols, c)
    }

    function BeliefAt(c: Cell): Belief
      requires Valid() && Contains(c)
    {
      board[c.y][c.x]
    }
  }

  /** A fresh engine: nothing is known about any cell. */
  function NewState(rows: nat, cols: nat, ships: seq<Remaining>): (s: State)
    ensures s.Valid() && s.rows == rows && s.cols == cols && s.ships == ships
    ensures forall c :: s.Contains(c) ==> s.BeliefAt(c) == Unknown
  {
    State(rows, cols, ships, Filled(rows, cols, Unknown))
  }

  // ---------------------------------------------------------------------------
  // Windows and scores
  // ---------------------------------------------------------------------------

  /** Horizontal windows run along a row, vertical ones along a column. */
  datatype Orientation = Horizontal | Vertical

  /** Number of lines (rows or columns) in the orientation. */
  function Lines(s: State, o: Orientation): nat {
    if o == Horizontal then s.rows else s.cols
  }

  /** Number of cells on one line. */
  function LineLength(s: State, o: Orientation): nat {
    if o == Horizontal then s.cols else s.rows
  }

  /** The cell at position pos of the given line. */
  function CellOn(o: Orientation, line: int, pos: int): Cell {
    if o == Horizontal then Cell(pos, line) else Cell(line, pos)
  }

  /** The line through c. */
  function LineOf(o: Orientation, c: Cell): int {
    if o == Horizontal then c.y else c.x
  }

  /** The position of c along its line. */
  function PosOf(o: Orientation, c: Cell): int {
    if o == Horizontal then c.x else c.y
  }

  /** The window of `len` cells starting at `start` on `line` fits the board
      and every cell in it is unknown. */
  predicate WindowFree(s: State, o: Orientation, line: int, start: int, len: int)
    requires s.Valid() && 0 <= line < Lines(s, o) && 0 <= start && start + len <= LineLength(s, o)
  {
    forall pos :: start <= pos < start + len ==> s.BeliefAt(CellOn(o, line, pos)) == Unknown
  }

  /** The number of window starts below n whose all-unknown window of `len`
      cells, on the line through c, covers c. */
  function Covering(s: State, o: Orientation, len: int, c: Cell, n: int): nat
    requires s.Valid() && s.Contains(c) && len > 0 && 0 <= n <= LineLength(s, o) - len + 1
    decreases n
  {
    if n == 0 then 0
    else
      var start := n - 1;
      var hit := start <= PosOf(o, c) < start + len && WindowFree(s, o, LineOf(o, c), start, len);
      Covering(s, o, len, c, n - 1) + (if hit then 1 else 0)
  }

  /** The number of all-unknown windows of `len` cells in orientation o that
      cover c; none when the window is longer than the line. */
  function Cover(s: State, o: Orientation, len: int, c: Cell): nat
    requires s.Valid() && s.Contains(c) && len > 0
  {
    if len > LineLength(s, o) then 0
    else Covering(s, o, len, c, LineLength(s, o) - len + 1)
  }

  /** What one remaining-ships entry adds to the score of c: both
      orientations for a positive length, nothing otherwise. */
  function Contribution(s: State, len: int, c: Cell): nat
    requires s.Valid() && s.Contains(c)
  {
    if len > 0 then Cover(s, Horizontal, len, c) + Cover(s, Vertical, len, c) else 0
  }

  /** The score of c summed over the given entries. */
  function ScoreOf(s: State, ships: seq<Remaining>, c: Cell): nat
    requires s.Valid() && s.Contains(c)
    decreases |ships|
  {
    if ships == [] then 0
    else ScoreOf(s, ships[..|ships| - 1], c) + Contribution(s, ships[|ships| - 1].length, c)
  }

  /** The heuristic score of c: over every remaining-ships entry, the number
      of all-unknown horizontal and vertical windows of that entry's length
      that cover c. */
  function Score(s: State, c: Cell): nat
    requires s.Valid() && s.Contains(c)
  {
    ScoreOf(s, s.ships, c)
  }

  // ---------------------------------------------------------------------------
  // Computing the probability map
  // ---------------------------------------------------------------------------

  /** Adds one to every cell of the window of `len` cells at `start` on `line`. */
  method AddWindow(s: State, m: seq<seq<int>>, o: Orientation, line: int, start: int, len: int)
    returns (m': seq<seq<int>>)
    requires s.Valid() && IsGrid(m, s.rows, s.cols)
    requires 0 <= line < Lines(s, o) && 0 <= start && 0 < len && start + len <= LineLength(s, o)
    ensures IsGrid(m', s.rows, s.cols)
    ensures forall c :: s.Contains(c) ==>
              At(m', c) == At(m, c) + (if LineOf(o, c) == line && start <= PosOf(o, c) < start + len then 1 else 0)
  {
    m' := m;
    var i := 0;
    while i < len
      invariant 0 <= i <= len
      invariant IsGrid(m', s.rows, s.cols)
      invariant forall c :: s.Contains(c) ==>
                  At(m', c) == At(m, c) + (if LineOf(o, c) == line && start <= PosOf(o, c) < start + i then 1 else 0)
    {
      var c := CellOn(o, line, start + i);
      m' := Update(m', c, At(m', c) + 1);
      i := i + 1;
    }
  }

  /** Slides a window of `len` cells along one line, counting every
      all-unknown window on each of its cells. */
  method AddLine(s: State, m: seq<seq<int>>, o: Orientation, len: int, line: int)
    returns (m': seq<seq<int>>)
    requires s.Valid() && IsGrid(m, s.rows, s.cols) && 0 < len && 0 <= line < Lines(s, o)
    ensures IsGrid(m', s.rows, s.cols)
    ensures forall c :: s.Contains(c) ==>
              At(m', c) == At(m, c) + (if LineOf(o, c) == line then Cover(s, o, len, c) else 0)
  {
    m' := m;
    var n := LineLength(s, o) - len + 1;
    var start := 0;
    while start < n
      invariant 0 <= start && (n > 0 ==> start <= n) && (n <= 0 ==> start == 0)
      invariant IsGrid(m', s.rows, s.cols)
      invariant forall c :: s.Contains(c) ==>
                  At(m', c) == At(m, c) + (if LineOf(o, c) == line && n > 0 then Covering(s, o, len, c, start) else 0)
    {
      if WindowFree(s, o, line, start, len) {
        m' := AddWindow(s, m', o, line, start, len);
      }
      start := start + 1;
    }
  }

  /** Slides a window of `len` cells along every line of one orientation. */
  method AddOrientation(s: State, m: seq<seq<int>>, o: Orientation, len: int)
    returns (m': seq<seq<int>>)
    requires s.Valid() && IsGrid(m, s.rows, s.cols) && 0 < len
    ensures IsGrid(m', s.rows, s.cols)
    ensures forall c :: s.Contains(c) ==> At(m', c) == At(m, c) + Cover(s, o, len, c)
  {
    m' := m;
    var line := 0;
    while line < Lines(s, o)
      invariant 0 <= line <= Lines(s, o)
      invariant IsGrid(m', s.rows, s.cols)
      invariant forall c :: s.Contains(c) ==>
                  At(m', c) == At(m, c) + (if LineOf(o, c) < line then Cover(s, o, len, c) else 0)
    {
      m' := AddLine(s, m', o, len, line);
      line := line + 1;
    }
  }

  /** The probability map: for each entry with a positive length, first the
      horizontal sweep, then the vertical one. Each cell ends up holding
      its score. */
  method CalculateProbabilityMap(s: State) returns (m: seq<seq<int>>)
    requires s.Valid()
    ensures IsGrid(m, s.rows, s.cols)
    ensures forall c :: s.Contains(c) ==> At(m, c) == Score(s, c)
  {
    m := Filled(s.rows, s.cols, 0);
    var k := 0;
    while k < |s.ships|
      invariant 0 <= k <= |s.ships|
      invariant IsGrid(m, s.rows, s.cols)
      invariant forall c :: s.Contains(c) ==> At(m, c) == ScoreOf(s, s.ships[..k], c)
    {
      var len := s.ships[k].length;
      if len > 0 {
        m := AddOrientation(s, m, Horizontal, len);
        m := AddOrientation(s, m, Vertical, len);
      }
      assert s.ships[..k + 1][..k] == s.ships[..k];
      k := k + 1;
    }
    assert s.ships[..k] == s.ships;
  }

  // ---------------------------------------------------------------------------
  // Choosing the next attack
  // ---------------------------------------------------------------------------

  /** a comes before b in a row-major scan (rows top to bottom, each row
      left to right). */
  predicate Before(a: Cell, b: Cell) {
    a.y < b.y || (a.y == b.y && a.x < b.x)
  }

  /** Some cell is still unknown. */
  ghost predicate HasUnknown(s: State)
    requires s.Valid()
  {
    exists c :: s.Contains(c) && s.BeliefAt(c) == Unknown
  }

  /** c is the first unknown cell, in row-major order, with the highest
      score among unknown cells. */
  ghost predicate IsFirstBest(s: State, c: Cell)
    requires s.Valid()
  {
    && s.Contains(c) && s.BeliefAt(c) == Unknown
    && (forall d :: s.Contains(d) && s.BeliefAt(d) == Unknown ==> Score(s, d) <= Score(s, c))
    && (forall d :: s.Contains(d) && s.BeliefAt(d) == Unknown && Before(d, c) ==> Score(s, d) < Score(s, c))
  }

  /** The running maximum of the scan, after every cell before `next`:
      when `found`, c is the first unknown cell seen with the highest score
      seen, and that score is `best`; otherwise no unknown cell was seen. */
  ghost predicate ScanSoFar(s: State, next: Cell, found: bool, c: Cell, best: int)
    requires s.Valid()
  {
    && (found ==> s.Contains(c) && s.BeliefAt(c) == Unknown && best == Score(s, c) && Before(c, next))
    && (!found ==> forall d :: s.Contains(d) && Before(d, next) ==> s.BeliefAt(d) != Unknown)
    && (forall d :: s.Contains(d) && Before(d, next) && s.BeliefAt(d) == Unknown ==> Score(s, d) <= best)
    && (forall d :: s.Contains(d) && s.BeliefAt(d) == Unknown && Before(d, c) ==> Score(s, d) < best)
  }

  /** Continues the scan across row y. */
  method ScanRow(s: State, m: seq<seq<int>>, y: int, found: bool, c: Cell, best: int)
    returns (found': bool, c': Cell, best': int)
    requires s.Valid() && IsGrid(m, s.rows, s.cols) && 0 <= y < s.rows
    requires forall d :: s.Contains(d) ==> At(m, d) == Score(s, d)
    requires ScanSoFar(s, Cell(0, y), found, c, best)
    ensures ScanSoFar(s, Cell(0, y + 1), found', c', best')
  {
    found', c', best' := found, c, best;
    var x := 0;
    while x < s.cols
      invariant 0 <= x <= s.cols
      invariant ScanSoFar(s, Cell(x, y), found', c', best')
    {
      var here := Cell(x, y);
      if s.board[y][x] == Unknown && (!found' || m[y][x] > best') {
        assert At(m, here) == Score(s, here);
        c' := here;
        best' := m[y][x];
        found' := true;
      }
      x := x + 1;
    }
  }

  /** Scans the unknown cells row by row and keeps the first one with the
      highest score; a later cell replaces it only with a strictly higher
      score. At least one cell must still be unknown. */
  method GetNextAttack(s: State) returns (c: Cell)
    requires s.Valid() && HasUnknown(s)
    ensures IsFirstBest(s, c)
  {
    var m := CalculateProbabilityMap(s);
    var found := false;
    var best := 0;
    c := Cell(0, 0);
    var y := 0;
    while y < s.rows
      invariant 0 <= y <= s.rows
      invariant ScanSoFar(s, Cell(0, y), found, c, best)
    {
      found, c, best := ScanRow(s, m, y, found, c, best);
      y := y + 1;
    }
    assert forall d :: s.Contains(d) ==> Before(d, Cell(0, s.rows));
  }

  // ---------------------------------------------------------------------------
  // Reporting attack results
  // ---------------------------------------------------------------------------

  /** The index of the first entry with a positive length. */
  predicate IsFirstPositive(ships: seq<Remaining>, k: int) {
    && 0 <= k < |ships|
    && ships[k].length > 0
    && forall j :: 0 <= j < k ==> ships[j].length <= 0
  }

  /** Decrements the length of the first entry, in iteration order, whose
      length is positive; no entry changes if none is positive. */
  function DecrementFirst(ships: seq<Remaining>): (r: seq<Remaining>)
    ensures |r| == |ships|
    ensures (forall i :: 0 <= i < |ships| ==> ships[i].length <= 0) ==> r == ships
    ensures forall i :: 0 <= i < |ships| ==> r[i].id == ships[i].id
  {
    if ships == [] then []
    else if ships[0].length > 0 then [ships[0].(length := ships[0].length - 1)] + ships[1..]
    else [ships[0]] + DecrementFirst(ships[1..])
  }

  /** The entry decremented is the first one with a positive length, and it
      loses exactly one; all other entries are unchanged. */
  lemma {:induction false} DecrementFirstAt(ships: seq<Remaining>, k: int)
    requires IsFirstPositive(ships, k)
    ensures DecrementFirst(ships)[k].length == ships[k].length - 1
    ensures forall i :: 0 <= i < |ships| && i != k ==> DecrementFirst(ships)[i] == ships[i]
    decreases |ships|
  {
    if k > 0 {
      var tail := ships[1..];
      assert IsFirstPositive(tail, k - 1) by {
        assert tail[k - 1] == ships[k];
        forall j | 0 <= j < k - 1 ensures tail[j].length <= 0 {
          assert tail[j] == ships[j + 1];
        }
      }
      DecrementFirstAt(tail, k - 1);
      var r := DecrementFirst(ships);
      assert r == [ships[0]] + DecrementFirst(tail) by {
        assert ships[0].length <= 0;
      }
      assert r[k] == DecrementFirst(tail)[k - 1];
      forall i | 0 <= i < |ships| && i != k ensures r[i] == ships[i] {
        if i > 0 {
          assert r[i] == DecrementFirst(tail)[i - 1];
        }
      }
    }
  }

  /** Marks every on-board cell of ns that is still unknown as blocked. */
  function BlockUnknown(board: seq<seq<Belief>>, rows: nat, cols: nat, ns: seq<Cell>)
    : (r: seq<seq<Belief>>)
    requires IsGrid(board, rows, cols)
    ensures IsGrid(r, rows, cols)
    ensures forall c :: InBounds(rows, cols, c) ==>
              At(r, c) == if c in ns && At(board, c) == Unknown then Blocked else At(board, c)
    decreases |ns|
  {
    if ns == [] then board
    else
      var n := ns[0];
      var next := if InBounds(rows, cols, n) && At(board, n) == Unknown then Update(board, n, Blocked) else board;
      BlockUnknown(next, rows, cols, ns[1..])
  }

  /** A sink at (x, y): the cell becomes sunk, one remaining length is used
      up, and the unknown orthogonal neighbours of this one cell become
      blocked. */
  function MarkSunk(s: State, x: int, y: int): (s': State)
    requires s.Valid() && s.Contains(Cell(x, y))
    ensures s'.Valid() && s'.rows == s.rows && s'.cols == s.cols
    ensures s'.BeliefAt(Cell(x, y)) == Sunk
    ensures forall c :: s.Contains(c) && c != Cell(x, y) ==>
              s'.BeliefAt(c) == if Adjacent(Cell(x, y), c) && s.BeliefAt(c) == Unknown then Blocked else s.BeliefAt(c)
    ensures s'.ships == DecrementFirst(s.ships)
  {
    var sunk := Update(s.board, Cell(x, y), Sunk);
    var ships := DecrementFirst(s.ships);
    s.(board := BlockUnknown(sunk, s.rows, s.cols, Neighbours(Cell(x, y))), ships := ships)
  }

  /** Records the result of attacking (x, y): a miss, a hit, or a hit that
      sank a ship. */
  function RegisterAttack(s: State, x: int, y: int, isHit: bool, isSunk: bool): (s': State)
    requires s.Valid() && s.Contains(Cell(x, y))
    ensures s'.Valid() && s'.rows == s.rows && s'.cols == s.cols
    ensures s'.BeliefAt(Cell(x, y)) == if !isHit then Miss else if isSunk then Sunk else Hit
    ensures !(isHit && isSunk) ==> s'.ships == s.ships
    ensures !(isHit && isSunk) ==>
              forall c :: s.Contains(c) && c != Cell(x, y) ==> s'.BeliefAt(c) == s.BeliefAt(c)
    ensures isHit && isSunk ==> s'.ships == DecrementFirst(s.ships)
    ensures isHit && isSunk ==>
              forall c :: s.Contains(c) && c != Cell(x, y) ==>
                s'.BeliefAt(c) == if Adjacent(Cell(x, y), c) && s.BeliefAt(c) == Unknown then Blocked else s.BeliefAt(c)
  {
    if isHit then
      var hit := s.(board := Update(s.board, Cell(x, y), Hit));
      if isSunk then MarkSunk(hit, x, y) else hit
    else
      s.(board := Update(s.board, Cell(x, y), Miss))
  }

  /** Every remaining length is zero. */
  predicate AllShipsSunk(s: State) {
    forall i :: 0 <= i < |s.ships| ==> s.ships[i].length == 0
  }
}
