/** Properties of the targeting engine: scores vanish off unknown cells,
    the choice of attack is determined, sinks use up the remaining-length
    budget one unit at a time, and the two worked examples. */
module StrategyProperties {
  import opened Grid
  import opened Strategy

  // ---------------------------------------------------------------------------
  // Scores
  // ---------------------------------------------------------------------------

  lemma {:induction false} CoveringZero(s: State, o: Orientation, len: int, c: Cell, n: int)
    requires s.Valid() && s.Contains(c) && len > 0 && 0 <= n <= LineLength(s, o) - len + 1
    requires s.BeliefAt(c) != Unknown
    ensures Covering(s, o, len, c, n) == 0
    decreases n
  {
    if n > 0 {
      CoveringZero(s, o, len, c, n - 1);
      var start := n - 1;
      assert CellOn(o, LineOf(o, c), PosOf(o, c)) == c;
      if start <= PosOf(o, c) < start + len {
        assert !WindowFree(s, o, LineOf(o, c), start, len);
      }
    }
  }

  lemma {:induction false} ScoreOfZero(s: State, ships: seq<Remaining>, c: Cell)
    requires s.Valid() && s.Contains(c) && s.BeliefAt(c) != Unknown
    ensures ScoreOf(s, ships, c) == 0
    decreases |ships|
  {
    if ships != [] {
      ScoreOfZero(s, ships[..|ships| - 1], c);
      var len := ships[|ships| - 1].length;
      if len > 0 {
        if len <= LineLength(s, Horizontal) {
          CoveringZero(s, Horizontal, len, c, LineLength(s, Horizontal) - len + 1);
        }
        if len <= LineLength(s, Vertical) {
          CoveringZero(s, Vertical, len, c, LineLength(s, Vertical) - len + 1);
        }
      }
    }
  }

  /** A cell already hit, missed, sunk or blocked scores zero: no
      all-unknown window can cover it. */
  lemma ScoreZeroOffUnknown(s: State, c: Cell)
    requires s.Valid() && s.Contains(c) && s.BeliefAt(c) != Unknown
    ensures Score(s, c) == 0
  {
    ScoreOfZero(s, s.ships, c);
  }

  /** A window of one cell covers only its own cell, so an entry of length
      one scores one per orientation on an unknown cell. */
  lemma {:induction false} CoveringSingle(s: State, o: Orientation, c: Cell, n: int)
    requires s.Valid() && s.Contains(c) && 0 <= n <= LineLength(s, o)
    requires s.BeliefAt(c) == Unknown
    ensures Covering(s, o, 1, c, n) == if PosOf(o, c) < n then 1 else 0
    decreases n
  {
    if n > 0 {
      CoveringSingle(s, o, c, n - 1);
      assert CellOn(o, LineOf(o, c), PosOf(o, c)) == c;
      if PosOf(o, c) == n - 1 {
        assert WindowFree(s, o, LineOf(o, c), n - 1, 1);
      }
    }
  }

  /** Entries with a non-positive length, or a length longer than the
      line in an orientation, add nothing in that orientation; an entry of
      length one adds one horizontal and one vertical window on every
      unknown cell. */
  lemma ContributionEdgeCases(s: State, len: int, c: Cell)
    requires s.Valid() && s.Contains(c)
    ensures len <= 0 ==> Contribution(s, len, c) == 0
    ensures len > 0 && len > s.cols ==> Cover(s, Horizontal, len, c) == 0
    ensures len > 0 && len > s.rows ==> Cover(s, Vertical, len, c) == 0
    ensures len == 1 && s.BeliefAt(c) == Unknown ==> Contribution(s, len, c) == 2
  {
    if len == 1 && s.BeliefAt(c) == Unknown {
      CoveringSingle(s, Horizontal, c, s.cols);
      CoveringSingle(s, Vertical, c, s.rows);
    }
  }

  // ---------------------------------------------------------------------------
  // The next attack
  // ---------------------------------------------------------------------------

  /** At most one cell is the first best one, so the chosen attack is
      determined by the state. */
  lemma FirstBestUnique(s: State, c: Cell, d: Cell)
    requires s.Valid() && IsFirstBest(s, c) && IsFirstBest(s, d)
    ensures c == d
  {
    assert !Before(c, d) by {
      assert Score(s, d) <= Score(s, c);
    }
    assert !Before(d, c) by {
      assert Score(s, c) <= Score(s, d);
    }
  }

  // ---------------------------------------------------------------------------
  // Remaining-length budget
  // ---------------------------------------------------------------------------

  /** The sum of the remaining lengths. */
  function Total(ships: seq<Remaining>): int {
    if ships == [] then 0 else ships[0].length + Total(ships[1..])
  }

  predicate NonNegative(ships: seq<Remaining>) {
    forall i :: 0 <= i < |ships| ==> ships[i].length >= 0
  }

  predicate AnyPositive(ships: seq<Remaining>) {
    exists i :: 0 <= i < |ships| && ships[i].length > 0
  }

  lemma AnyPositiveTail(ships: seq<Remaining>)
    requires ships != [] && ships[0].length <= 0
    ensures AnyPositive(ships) <==> AnyPositive(ships[1..])
  {
    var tail := ships[1..];
    if AnyPositive(ships) {
      var i :| 0 <= i < |ships| && ships[i].length > 0;
      assert tail[i - 1] == ships[i];
    }
    if AnyPositive(tail) {
      var i :| 0 <= i < |tail| && tail[i].length > 0;
      assert ships[i + 1] == tail[i];
    }
  }

  /** A sink lowers the total by exactly one when some length is positive
      and leaves it alone otherwise. */
  lemma {:induction false} DecrementFirstTotal(ships: seq<Remaining>)
    ensures Total(DecrementFirst(ships)) == Total(ships) - (if AnyPositive(ships) then 1 else 0)
    decreases |ships|
  {
    if ships != [] {
      var r := DecrementFirst(ships);
      if ships[0].length > 0 {
        assert r[1..] == ships[1..];
        assert AnyPositive(ships);
      } else {
        var tail := ships[1..];
        DecrementFirstTotal(tail);
        AnyPositiveTail(ships);
        assert r[1..] == DecrementFirst(tail);
      }
    }
  }

  /** A sink never drives a length below zero. */
  lemma DecrementFirstNonNegative(ships: seq<Remaining>)
    requires NonNegative(ships)
    ensures NonNegative(DecrementFirst(ships))
  {
    if AnyPositive(ships) {
      var i :| 0 <= i < |ships| && ships[i].length > 0;
      FirstPositiveExists(ships, i);
      var k :| IsFirstPositive(ships, k);
      DecrementFirstAt(ships, k);
    }
  }

  /** Some entry is the first positive one when any entry is positive. */
  lemma {:induction false} FirstPositiveExists(ships: seq<Remaining>, i: int)
    requires 0 <= i < |ships| && ships[i].length > 0
    ensures exists k :: IsFirstPositive(ships, k)
    decreases i
  {
    if !IsFirstPositive(ships, i) {
      var j :| 0 <= j < i && ships[j].length > 0;
      FirstPositiveExists(ships, j);
    }
  }

  /** With non-negative lengths, every ship is sunk exactly when no
      length remains. */
  lemma {:induction false} AllSunkIffNoLength(ships: seq<Remaining>)
    requires NonNegative(ships)
    ensures Total(ships) >= 0
    ensures (forall i :: 0 <= i < |ships| ==> ships[i].length == 0) <==> Total(ships) == 0
    decreases |ships|
  {
    if ships != [] {
      var tail := ships[1..];
      assert forall i :: 0 <= i < |tail| ==> tail[i] == ships[i + 1];
      AllSunkIffNoLength(tail);
      if Total(ships) == 0 {
        forall i | 0 <= i < |ships| ensures ships[i].length == 0 {
          if i > 0 {
            assert ships[i] == tail[i - 1];
          }
        }
      }
    }
  }

  /** Reporting a sink on an engine with non-negative lengths: if some ship
      is still afloat, the total remaining length drops by exactly one and
      stays non-negative; once all are sunk, the budget stays as it is. */
  lemma SinkProgress(s: State, x: int, y: int)
    requires s.Valid() && s.Contains(Cell(x, y)) && NonNegative(s.ships)
    ensures var s' := RegisterAttack(s, x, y, true, true);
            && NonNegative(s'.ships)
            && (AllShipsSunk(s) ==> s'.ships == s.ships && AllShipsSunk(s'))
            && (!AllShipsSunk(s) ==> Total(s'.ships) == Total(s.ships) - 1)
  {
    var s' := RegisterAttack(s, x, y, true, true);
    DecrementFirstTotal(s.ships);
    DecrementFirstNonNegative(s.ships);
    if !AllShipsSunk(s) {
      var i :| 0 <= i < |s.ships| && s.ships[i].length != 0;
      assert AnyPositive(s.ships);
    }
  }

  // ---------------------------------------------------------------------------
  // Attack results
  // ---------------------------------------------------------------------------

  /** Reporting an attack never makes a cell unknown again, and a cell
      becomes blocked only as an unknown orthogonal neighbour of a sink. */
  lemma AttackOnlyLearns(s: State, x: int, y: int, isHit: bool, isSunk: bool, c: Cell)
    requires s.Valid() && s.Contains(Cell(x, y)) && s.Contains(c)
    ensures var s' := RegisterAttack(s, x, y, isHit, isSunk);
            && (s'.BeliefAt(c) == Unknown ==> s.BeliefAt(c) == Unknown)
            && (s'.BeliefAt(c) == Blocked && s.BeliefAt(c) != Blocked ==>
                  isHit && isSunk && Adjacent(Cell(x, y), c) && s.BeliefAt(c) == Unknown)
  {
  }

  // ---------------------------------------------------------------------------
  // Worked examples
  // ---------------------------------------------------------------------------

  /** One row of four unknown cells and one entry of length two. */
  function Row4(): State {
    NewState(1, 4, [Remaining(1, 2)])
  }

  lemma Row4Scores()
    ensures Score(Row4(), Cell(0, 0)) == 1
    ensures Score(Row4(), Cell(1, 0)) == 2
    ensures Score(Row4(), Cell(2, 0)) == 2
    ensures Score(Row4(), Cell(3, 0)) == 1
  {
    var s := Row4();
    assert WindowFree(s, Horizontal, 0, 0, 2);
    assert WindowFree(s, Horizontal, 0, 1, 2);
    assert WindowFree(s, Horizontal, 0, 2, 2);
    assert s.ships[..0] == [];
    forall x | 0 <= x < 4
      ensures Score(s, Cell(x, 0)) == Covering(s, Horizontal, 2, Cell(x, 0), 3)
    {
    }
    var c0, c1, c2, c3 := Cell(0, 0), Cell(1, 0), Cell(2, 0), Cell(3, 0);
    assert Covering(s, Horizontal, 2, c0, 1) == 1;
    assert Covering(s, Horizontal, 2, c1, 1) == 1;
    assert Covering(s, Horizontal, 2, c2, 1) == 0;
    assert Covering(s, Horizontal, 2, c3, 1) == 0;
    assert Covering(s, Horizontal, 2, c0, 2) == 1;
    assert Covering(s, Horizontal, 2, c1, 2) == 2;
    assert Covering(s, Horizontal, 2, c2, 2) == 1;
    assert Covering(s, Horizontal, 2, c3, 2) == 0;
  }

  /** On the row of four, the map is 1, 2, 2, 1 and the attack goes to the
      first of the two best cells, (1, 0). */
  lemma Row4Attack(c: Cell)
    ensures IsFirstBest(Row4(), c) <==> c == Cell(1, 0)
  {
    var s := Row4();
    Row4Scores();
    assert forall d :: s.Contains(d) ==> d.y == 0 && 0 <= d.x < 4;
    assert forall d :: s.Contains(d) ==> s.BeliefAt(d) == Unknown;
    assert forall d :: s.Contains(d) ==> Score(s, d) <= 2 by {
      forall d | s.Contains(d) ensures Score(s, d) <= 2 {
        assert d == Cell(0, 0) || d == Cell(1, 0) || d == Cell(2, 0) || d == Cell(3, 0);
      }
    }
    forall d | s.Contains(d) && Before(d, Cell(1, 0)) ensures Score(s, d) < 2 {
      assert d == Cell(0, 0);
    }
    assert IsFirstBest(s, Cell(1, 0));
    if IsFirstBest(s, c) {
      FirstBestUnique(s, c, Cell(1, 0));
    }
  }

  /** A three-by-three unknown board with two entries, the first of
      length two. */
  function Square3(): State {
    NewState(3, 3, [Remaining(1, 2), Remaining(2, 3)])
  }

  /** A sink at (2, 0) on Square3: that cell is sunk, its on-board
      neighbours (1, 0) and (2, 1) are blocked, every other cell stays
      unknown, and the first entry's length drops from two to one. */
  lemma Square3Sink(c: Cell)
    requires Square3().Contains(c)
    ensures var s' := RegisterAttack(Square3(), 2, 0, true, true);
            && s'.ships == [Remaining(1, 1), Remaining(2, 3)]
            && s'.BeliefAt(c) ==
                 if c == Cell(2, 0) then Sunk
                 else if c == Cell(1, 0) || c == Cell(2, 1) then Blocked
                 else Unknown
  {
    var s := Square3();
    assert IsFirstPositive(s.ships, 0);
  }
}
