/**
 * The maze board: a grid of cell codes (see MazeCells) plus the position of
 * the runner, with the greedy least-visited step of the maze runner.
 */
module Board {
  import opened Wrappers
  import opened MazeCells
  import opened Directions

  /** What one call of the step produces. */
  datatype Step =
    | Moved       // the runner moved one cell (the Java method returns true)
    | NoMove      // the goal is next door, or no neighbour qualifies (returns false)
    | IndexFault  // a move was chosen while the runner is off the grid: the Java array write throws

  class MazeBoard {
    var cell: array2<int>
    var numRows: int
    var numCols: int
    var currentRow: int
    var currentCol: int

    /**
     * The recorded dimensions are those of the array, every cell holds a Java
     * `int`, and the position is one the code can produce (at least -1, and
     * small enough that adding one does not overflow).
     */
    ghost predicate Valid()
      reads this, cell
    {
      && cell.Length0 == numRows && cell.Length1 == numCols
      && numRows <= INT_MAX && numCols <= INT_MAX
      && -1 <= currentRow < INT_MAX && -1 <= currentCol < INT_MAX
      && forall i, j :: 0 <= i < numRows && 0 <= j < numCols ==> IsInt32(cell[i, j])
    }

    /** A board with no maze yet and the runner not placed. */
    constructor ()
      ensures Valid()
      ensures numRows == 0 && numCols == 0
      ensures currentRow == -1 && currentCol == -1
    {
      cell := new int[0, 0];
      numRows, numCols := 0, 0;
      currentRow, currentCol := -1, -1;
    }

    predicate InRange(i: int, j: int)
      reads this
    {
      InBounds(i, j, numRows, numCols)
    }

    /** Allocates a `rowSize` by `colSize` maze of unvisited pathways; the runner stays where it was. */
    method ResetBoard(rowSize: int, colSize: int)
      requires Valid()
      requires 0 <= rowSize <= INT_MAX && 0 <= colSize <= INT_MAX
      modifies this
      ensures Valid() && fresh(cell)
      ensures numRows == rowSize && numCols == colSize
      ensures currentRow == old(currentRow) && currentCol == old(currentCol)
      ensures forall i, j :: 0 <= i < numRows && 0 <= j < numCols ==> cell[i, j] == 0
    {
      numRows := rowSize;
      numCols := colSize;
      cell := new int[rowSize, colSize]((i, j) => 0);
    }

    /**
     * Loads character `v` into cell (r, c): an in-range cell gets the code of
     * `v` and nothing else changes; any other (r, c) leaves the grid alone.
     */
    method Set(r: int, c: int, v: char)
      requires Valid()
      modifies cell
      ensures Valid()
      ensures InRange(r, c) ==> cell[r, c] == CellCode(v)
      ensures forall i, j :: 0 <= i < numRows && 0 <= j < numCols && (i != r || j != c) ==> cell[i, j] == old(cell[i, j])
    {
      if r < 0 || r >= numRows || c < 0 || c >= numCols {
        return;
      }
      cell[r, c] := CellCode(v);
    }

    /** The offsets the neighbour queries are called with. */
    static predicate IsDelta(d: int) {
      -1 <= d <= 1
    }

    /** The code of the neighbour at the given offset; off the grid reads as a wall. */
    function Contents(dr: int, dc: int): (v: int)
      reads this, cell
      requires Valid() && IsDelta(dr) && IsDelta(dc)
      ensures IsInt32(v)
      ensures !InRange(currentRow + dr, currentCol + dc) ==> v == WALL
      ensures InRange(currentRow + dr, currentCol + dc) ==> v == cell[currentRow + dr, currentCol + dc]
    {
      if currentRow + dr < 0 || currentRow + dr >= numRows || currentCol + dc < 0 || currentCol + dc >= numCols then
        WALL
      else
        cell[currentRow + dr, currentCol + dc]
    }

    /** The runner may step to the neighbour: it is on the grid and a pathway, not a wall or a door. */
    predicate NotWall(dr: int, dc: int)
      reads this, cell
      requires Valid() && IsDelta(dr) && IsDelta(dc)
      ensures NotWall(dr, dc) <==> Contents(dr, dc) >= 0
      ensures NotWall(dr, dc) ==> InRange(currentRow + dr, currentCol + dc)
    {
      if currentRow + dr < 0 || currentRow + dr >= numRows || currentCol + dc < 0 || currentCol + dc >= numCols then
        false
      else
        cell[currentRow + dr, currentCol + dc] >= 0
    }

    /** The visit count of the neighbour, or FAR_AWAY when the runner cannot step there. */
    function Marks(dr: int, dc: int): (m: int)
      reads this, cell
      requires Valid() && IsDelta(dr) && IsDelta(dc)
      ensures 0 <= m <= INT_MAX
      ensures NotWall(dr, dc) ==> m == Contents(dr, dc)
      ensures !NotWall(dr, dc) ==> m == FAR_AWAY
    {
      if currentRow + dr < 0 || currentRow + dr >= numRows || currentCol + dc < 0 || currentCol + dc >= numCols then
        FAR_AWAY
      else if cell[currentRow + dr, currentCol + dc] < 0 then
        FAR_AWAY
      else
        cell[currentRow + dr, currentCol + dc]
    }

    /** The direction `d` is open and its marks are no more than those of any of the four neighbours. */
    predicate Qualifies(d: Dir)
      reads this, cell
      requires Valid()
    {
      var m := Marks(d.DRow(), d.DCol());
      && NotWall(d.DRow(), d.DCol())
      && m <= Marks(1, 0) && m <= Marks(0, 1) && m <= Marks(-1, 0) && m <= Marks(0, -1)
    }

    /** The marks in direction `d`. */
    function MarksToward(d: Dir): int
      reads this, cell
      requires Valid()
    {
      Marks(d.DRow(), d.DCol())
    }

    /** The runner may step in direction `d`. */
    predicate OpenToward(d: Dir)
      reads this, cell
      requires Valid()
    {
      NotWall(d.DRow(), d.DCol())
    }

    /**
     * The direction the step takes when the goal is not next door: the first
     * of down, right, up, left that is open and has no more marks than any of
     * the four neighbours.
     */
    function Chosen(): (choice: Option<Dir>)
      reads this, cell
      requires Valid()
      ensures choice.Some? ==> OpenToward(choice.value)
    {
      if Qualifies(Down) then Some(Down)
      else if Qualifies(Right) then Some(Right)
      else if Qualifies(Up) then Some(Up)
      else if Qualifies(Left) then Some(Left)
      else None
    }

    /** The chosen direction has the fewest marks of all four neighbours. */
    lemma ChosenIsLeastMarked(e: Dir)
      requires Valid() && Chosen().Some?
      ensures MarksToward(Chosen().value) <= MarksToward(e)
    {
    }

    /** Ties go to the earlier direction: an open direction tried before the chosen one has strictly more marks. */
    lemma ChosenBreaksTiesByOrder(e: Dir)
      requires Valid() && Chosen().Some?
      requires e.Rank() < Chosen().value.Rank() && OpenToward(e)
      ensures MarksToward(Chosen().value) < MarksToward(e)
    {
    }

    /** A direction is chosen exactly when some open neighbour has the fewest marks of the four. */
    lemma ChosenExactlyWhenOpenMinimum()
      requires Valid()
      ensures Chosen().Some? <==> exists d: Dir :: OpenToward(d) && forall e: Dir :: MarksToward(d) <= MarksToward(e)
    {
      if Chosen().Some? {
        var d := Chosen().value;
        forall e: Dir ensures MarksToward(d) <= MarksToward(e) {
          ChosenIsLeastMarked(e);
        }
      }
      if d: Dir :| OpenToward(d) && forall e: Dir :: MarksToward(d) <= MarksToward(e) {
        assert MarksToward(d) <= MarksToward(Down) && MarksToward(d) <= MarksToward(Right);
        assert MarksToward(d) <= MarksToward(Up) && MarksToward(d) <= MarksToward(Left);
        assert Qualifies(d);
      }
    }

    /** An open neighbour with no more marks than FAR_AWAY guarantees that some direction is chosen. */
    lemma ChosenWhenOpenNeighbour(d: Dir)
      requires Valid() && OpenToward(d) && MarksToward(d) <= FAR_AWAY
      ensures Chosen().Some?
    {
    }

    /** Some orthogonal neighbour is the goal door. */
    predicate GoalAdjacent()
      reads this, cell
      requires Valid()
    {
      Contents(1, 0) == STOP || Contents(0, 1) == STOP || Contents(-1, 0) == STOP || Contents(0, -1) == STOP
    }

    /** The goal is next door exactly when the neighbour in some direction holds the STOP code. */
    lemma GoalAdjacentInSomeDirection()
      requires Valid()
      ensures GoalAdjacent() <==> exists d: Dir :: Contents(d.DRow(), d.DCol()) == STOP
    {
      if GoalAdjacent() {
        var d :| d in Order && Contents(d.DRow(), d.DCol()) == STOP;
      }
    }

    /**
     * One tick of the runner.  Next to the goal, or with no qualifying
     * neighbour, nothing changes.  Otherwise the cell being left gets one
     * more mark (Java `int` arithmetic), no other cell changes, and the
     * runner moves one cell in the chosen direction onto a pathway -- unless
     * the runner is off the grid, where the array write faults and nothing
     * changes.
     */
    method MakeMove() returns (r: Step)
      requires Valid()
      modifies this, cell
      ensures Valid()
      ensures cell == old(cell) && numRows == old(numRows) && numCols == old(numCols)
      ensures old(GoalAdjacent()) ==> r == NoMove
      ensures !old(GoalAdjacent()) && old(Chosen()).None? ==> r == NoMove
      ensures (forall d: Dir :: !old(OpenToward(d))) ==> r == NoMove
      ensures !old(GoalAdjacent()) && old(Chosen()).Some? ==>
        r == if old(InRange(currentRow, currentCol)) then Moved else IndexFault
      ensures r != Moved ==> currentRow == old(currentRow) && currentCol == old(currentCol)
      ensures r != Moved ==> forall i, j :: 0 <= i < numRows && 0 <= j < numCols ==> cell[i, j] == old(cell[i, j])
      ensures r == Moved ==>
        && currentRow == old(currentRow) + old(Chosen()).value.DRow()
        && currentCol == old(currentCol) + old(Chosen()).value.DCol()
      ensures r == Moved ==> cell[old(currentRow), old(currentCol)] == Inc32(old(cell[currentRow, currentCol]))
      ensures r == Moved ==> forall i, j :: 0 <= i < numRows && 0 <= j < numCols && (i != old(currentRow) || j != old(currentCol)) ==>
        cell[i, j] == old(cell[i, j])
      ensures r == Moved ==> InRange(currentRow, currentCol) && cell[currentRow, currentCol] >= 0
    {
      if Contents(1, 0) == STOP || Contents(0, 1) == STOP || Contents(-1, 0) == STOP || Contents(0, -1) == STOP {
        return NoMove;
      }
      var choice := Chosen();
      if choice.None? {
        return NoMove;
      }
      var d := choice.value;
      if currentRow < 0 || currentRow >= numRows || currentCol < 0 || currentCol >= numCols {
        return IndexFault;
      }
      cell[currentRow, currentCol] := Inc32(cell[currentRow, currentCol]);
      currentRow := currentRow + d.DRow();
      currentCol := currentCol + d.DCol();
      r := Moved;
    }

    /** The last START among the first `j` cells of row `i`, as its column. */
    function LastStartInRow(i: int, j: int): (c: Option<int>)
      reads this, cell
      requires Valid() && 0 <= i < numRows && 0 <= j <= numCols
      ensures c.Some? ==> 0 <= c.value < j && cell[i, c.value] == START
      ensures c.Some? ==> forall y :: c.value < y < j ==> cell[i, y] != START
      ensures c.None? ==> forall y :: 0 <= y < j ==> cell[i, y] != START
      decreases j
    {
      if j == 0 then None
      else if cell[i, j - 1] == START then Some(j - 1)
      else LastStartInRow(i, j - 1)
    }

    /** The last START, in row-major order, among the first `i` rows. */
    function LastStartInRows(i: int): (p: Option<(int, int)>)
      reads this, cell
      requires Valid() && 0 <= i <= numRows
      ensures p.Some? ==> 0 <= p.value.0 < i && 0 <= p.value.1 < numCols && cell[p.value.0, p.value.1] == START
      ensures p.Some? ==> forall x, y :: 0 <= x < i && 0 <= y < numCols && (x > p.value.0 || (x == p.value.0 && y > p.value.1)) ==>
        cell[x, y] != START
      ensures p.None? ==> forall x, y :: 0 <= x < i && 0 <= y < numCols ==> cell[x, y] != START
      decreases i
    {
      if i == 0 then None
      else match LastStartInRow(i - 1, numCols)
        case Some(c) => Some((i - 1, c))
        case None => LastStartInRows(i - 1)
    }

    /** The last START of the grid met by a row-major scan that has finished `i` rows and `j` cells of row `i`. */
    function ScannedStart(i: int, j: int): Option<(int, int)>
      reads this, cell
      requires Valid() && 0 <= i < numRows && 0 <= j <= numCols
    {
      match LastStartInRow(i, j)
      case Some(c) => Some((i, c))
      case None => LastStartInRows(i)
    }

    /** The runner is one row above the START cell `p`, or at (row0, col0) if there is none. */
    ghost predicate PlacedAbove(p: Option<(int, int)>, row0: int, col0: int)
      reads this
    {
      match p
      case Some((i, j)) => currentRow == i - 1 && currentCol == j
      case None => currentRow == row0 && currentCol == col0
    }

    /**
     * Places the runner one row above the last START cell in row-major order
     * (not checking that this is a pathway or even on the grid); without a
     * START cell the runner stays put.  The grid is only read.
     */
    method FindStart()
      requires Valid()
      modifies this`currentRow, this`currentCol
      ensures Valid()
      ensures PlacedAbove(LastStartInRows(numRows), old(currentRow), old(currentCol))
    {
      var i := 0;
      while i < numRows
        invariant 0 <= i <= numRows
        invariant Valid()
        invariant PlacedAbove(LastStartInRows(i), old(currentRow), old(currentCol))
      {
        var j := 0;
        while j < numCols
          invariant 0 <= j <= numCols
          invariant Valid()
          invariant PlacedAbove(ScannedStart(i, j), old(currentRow), old(currentCol))
        {
          if cell[i, j] == START {
            currentRow := i - 1;
            currentCol := j;
          }
          j := j + 1;
        }
        i := i + 1;
      }
    }
  }
}
