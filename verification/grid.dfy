/** Vocabulary shared by both game components: board coordinates, optional
    and fallible results, and rectangular grids stored row by row, so that the
    cell at column x and row y is g[y][x]. */
module Grid {

  /** An absolute board coordinate: x is the column, y the row. */
  datatype Cell = Cell(x: int, y: int)

  datatype Option<+T> = None | Some(value: T)

  datatype Result<+T, +E> = Ok(value: T) | Err(error: E)

  /** The cell lies on a board of the given dimensions. */
  predicate InBounds(rows: int, cols: int, c: Cell) {
    0 <= c.x < cols && 0 <= c.y < rows
  }

  /** g has exactly `rows` rows, each of exactly `cols` entries. */
  predicate IsGrid<T>(g: seq<seq<T>>, rows: nat, cols: nat) {
    |g| == rows && forall y :: 0 <= y < rows ==> |g[y]| == cols
  }

  /** The entry of g at cell c. */
  function At<T>(g: seq<seq<T>>, c: Cell): T
    requires 0 <= c.y < |g| && 0 <= c.x < |g[c.y]|
  {
    g[c.y][c.x]
  }

  /** A rows-by-cols grid holding v everywhere. */
  function Filled<T>(rows: nat, cols: nat, v: T): (g: seq<seq<T>>)
    ensures IsGrid(g, rows, cols)
    ensures forall c :: InBounds(rows, cols, c) ==> At(g, c) == v
  {
    seq(rows, _ => seq(cols, _ => v))
  }

  /** g with the single entry at c replaced by v. */
  function Update<T>(g: seq<seq<T>>, c: Cell, v: T): (g': seq<seq<T>>)
    requires 0 <= c.y < |g| && 0 <= c.x < |g[c.y]|
    ensures |g'| == |g| && forall y :: 0 <= y < |g| ==> |g'[y]| == |g[y]|
    ensures At(g', c) == v
    ensures forall d: Cell :: 0 <= d.y < |g| && 0 <= d.x < |g[d.y]| && d != c ==> At(g', d) == At(g, d)
  {
    g[c.y := g[c.y][c.x := v]]
  }

  /** a and b share an edge: they differ by one step along exactly one axis.
      Diagonal neighbours are not adjacent. */
  predicate Adjacent(a: Cell, b: Cell) {
    || (a.x == b.x && (a.y - b.y == 1 || b.y - a.y == 1))
    || (a.y == b.y && (a.x - b.x == 1 || b.x - a.x == 1))
  }

  /** The four orthogonal neighbours of c, in the order the game visits them:
      left, right, up, down. Some may lie off the board. */
  function Neighbours(c: Cell): (ns: seq<Cell>)
    ensures |ns| == 4
    ensures forall d :: d in ns <==> Adjacent(c, d)
  {
    [Cell(c.x - 1, c.y), Cell(c.x + 1, c.y), Cell(c.x, c.y - 1), Cell(c.x, c.y + 1)]
  }

  lemma AdjacentSymmetric(a: Cell, b: Cell)
    ensures Adjacent(a, b) <==> Adjacent(b, a)
  {
  }
}
