/**
 * Client code that drives a board only through the contracts of
 * Board.MazeBoard, on small concrete mazes.
 */
module BoardScenarios {
  import opened MazeCells
  import opened Directions
  import opened Wrappers
  import opened Board

  /**
   * The 3 by 3 maze
   *     * 1 *
   *     2   1
   *     * S *
   * puts the runner at the centre.  Down is the start door, right and up
   * both carry one mark and left carries two: the runner goes right, the
   * earlier of the two tied directions, and leaves one mark in the centre.
   */
  method TieBreakScenario() {
    var b := new MazeBoard();
    b.ResetBoard(3, 3);
    b.Set(0, 0, '*'); b.Set(0, 1, '1'); b.Set(0, 2, '*');
    b.Set(1, 0, '2'); b.Set(1, 1, ' '); b.Set(1, 2, '1');
    b.Set(2, 0, '*'); b.Set(2, 1, 'S'); b.Set(2, 2, '*');
    assert b.cell[2, 2] != START && b.cell[2, 1] == START;
    b.FindStart();
    TieBreakStep(b);
  }

  /** The step of TieBreakScenario, from the centre of that maze. */
  method TieBreakStep(b: MazeBoard)
    requires b.Valid() && b.numRows == 3 && b.numCols == 3
    requires b.currentRow == 1 && b.currentCol == 1
    requires b.cell[0, 1] == 1 && b.cell[1, 0] == 2 && b.cell[1, 1] == 0 && b.cell[1, 2] == 1 && b.cell[2, 1] == START
    modifies b, b.cell
  {
    assert b.MarksToward(Down) == FAR_AWAY && b.MarksToward(Right) == 1;
    assert b.MarksToward(Up) == 1 && b.MarksToward(Left) == 2;
    assert !b.GoalAdjacent();
    assert b.Chosen() == Some(Right);
    var r := b.MakeMove();
    assert r == Moved;
    assert b.currentRow == 1 && b.currentCol == 2;
    assert b.cell[1, 1] == 1;
  }

  /**
   * A pathway whose other neighbours are all walls: after placement above
   * the start door the runner is stuck, and the step changes nothing.
   */
  method WalledInScenario() {
    var b := new MazeBoard();
    b.ResetBoard(3, 3);
    b.Set(0, 0, '*'); b.Set(0, 1, '*'); b.Set(0, 2, '*');
    b.Set(1, 0, '*'); b.Set(1, 1, ' '); b.Set(1, 2, '*');
    b.Set(2, 0, '*'); b.Set(2, 1, 's'); b.Set(2, 2, '*');
    assert b.cell[2, 2] != START && b.cell[2, 1] == START;
    b.FindStart();
    var r := b.MakeMove();
    assert r == NoMove;
    assert b.currentRow == 1 && b.currentCol == 1 && b.cell[1, 1] == 0;
  }

  /** Before any start is found the runner is off the grid, and the step reports no move. */
  method UnplacedScenario() {
    var b := new MazeBoard();
    b.ResetBoard(2, 2);
    var r := b.MakeMove();
    assert r == NoMove;
  }
}
