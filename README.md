# MazeRunner board, modelled in Dafny

This project models the maze board of the MazeRunner program (`MazeBoard.java`):
a rectangular grid of integer cell codes, the position of the runner, and the
runner's greedy step that prefers the least-visited neighbouring pathway.

- `cells.dfy` — module `MazeCells`: the cell encoding (`WALL = -1`,
  `START = -2`, `STOP = -3`, a value `>= 0` is a pathway counting how often
  the runner has left it), the `FAR_AWAY = 9999999` mark answer for cells the
  runner cannot enter, the character-to-code table used when a maze is
  loaded, Java's wrapping `int` increment, and the bounds test of `set`.
- `directions.dfy` — module `Directions`: the four moves and the fixed order
  (down, right, up, left) in which the step tries them.
- `board.dfy` — module `Board`: class `MazeBoard` with the grid (`array2<int>`),
  `numRows`, `numCols`, `currentRow`, `currentCol`; the methods `ResetBoard`,
  `Set`, `FindStart` and `MakeMove` change that state in place, and the
  neighbour queries `Contents`, `NotWall` and `Marks` are functions reading it.
  The decision of the step is the function `Chosen`, the Java `if` ladder of
  `makeMove`, and `MakeMove` calls it.
- `scenarios.dfy` — module `BoardScenarios`: client code on concrete 3 by 3
  mazes (a tie between right and up that right wins, a runner walled in, a
  step before the runner is placed), proved from the contracts and the query
  functions.
- `wrappers.dfy` — module `Wrappers`: an `Option` type.

`MakeMove` reports one of three outcomes: `Moved` (Java returns `true`),
`NoMove` (Java returns `false`: the goal is next door or no neighbour
qualifies) and `IndexFault` (a move was chosen while the runner is off the
grid, so the Java write `cell[currentRow][currentCol]++` throws an
`ArrayIndexOutOfBoundsException` before changing anything). The runner is off
the grid before `findStart` has found a start, after `findStart` placed it above
a start door in row 0, and after `resetBoard` shrank the maze; the code checks
none of this, so the model reports the fault instead of forbidding the call.
From the unplaced position (-1, -1) every neighbour is off the grid, so that
step is `NoMove`, as in the code.

The class invariant `Valid()` says that the recorded dimensions are those of
the array, that every cell holds a Java `int`, and that the position is at
least -1 and below `2^31 - 1`, so that the Java position arithmetic never
overflows. The increment of the vacated cell is Java's `++` on `int`: one
more, except that `2^31 - 1` wraps to `-2^31`.

The model follows the code: the door letters are `S`/`s` and `G`/`g` (the
method comment of `set`, MazeBoard.java:85-88, says `B`/`E`); `findStart`
leaves the position as it was when there is no START; and the step answers
`false` both next to the goal and when stuck.

## Model

| member | source | states |
|---|---|---|
| `MazeCells.CellCode` | MazeBoard.java:96-121 | Loading a character gives a code in {-1, -2, -3} or 0..9; the code is a pathway exactly for a blank or a digit, and then equals the digit (0 for a blank); START exactly for `S`/`s`, STOP exactly for `G`/`g`, WALL for `*` and every other character |
| `MazeCells.Symbol` | MazeBoard.java:96-121 | Every code the loader can produce is produced by some character (the table inverted) |
| `MazeCells.CellCodeSynonyms` | MazeBoard.java:101-110 | Door letters are case-insensitive; a blank and `0` both load an unvisited pathway |
| `MazeCells.Inc32` | MazeBoard.java:314 | Java `++` on a cell: stays an `int`, is one more below `2^31 - 1`, and wraps to `-2^31` at `2^31 - 1` |
| `MazeCells.SetGuardAsWritten` | MazeBoard.java:95 | The bounds test of `set` as written: every cell of the grid passes it, and whatever passes has a row in range and a column from 0 to `numCols` inclusive |
| `MazeCells.SetGuardOffByOne` | MazeBoard.java:95 | The bounds test of `set` as written admits exactly the cells of the grid plus column `numCols` of each row |
| `MazeCells.SetGuardAdmitsColumnPastEnd` | MazeBoard.java:95 | On a 1 by 3 maze the test as written admits (0, 3), which is not a cell |
| `Directions.Dir.Rank` | MazeBoard.java:312-342 | Each direction's position in the try order down, right, up, left |
| `Directions.UnitSteps` | MazeBoard.java:315-339 | Each move changes exactly one coordinate by one, and different directions have different offsets |
| `Directions.OrderIsPermutation` | MazeBoard.java:312-342 | The try order lists every direction exactly once |
| `Board.MazeBoard.constructor` | MazeBoard.java:31-37 | A new board has no maze (0 by 0) and the runner at (-1, -1) |
| `Board.MazeBoard.ResetBoard` | MazeBoard.java:69-73 | Records the dimensions and allocates a fresh grid of that size whose cells are all 0; the runner is not moved |
| `Board.MazeBoard.Set` | MazeBoard.java:94-122 | An in-range cell gets the code of the character and no other cell changes; an out-of-range (r, c) leaves the grid as it was |
| `Board.MazeBoard.Contents` | MazeBoard.java:298-302 | The neighbour's code; WALL when the neighbour is off the grid |
| `Board.MazeBoard.NotWall` | MazeBoard.java:268-272 | True exactly when the neighbour's contents are a pathway (>= 0), which implies it is on the grid |
| `Board.MazeBoard.Marks` | MazeBoard.java:283-287 | The neighbour's visit count when the runner may step there, FAR_AWAY otherwise; never negative |
| `Board.MazeBoard.Chosen` | MazeBoard.java:312-342 | A chosen direction is always one the runner may step in |
| `Board.MazeBoard.GoalAdjacentInSomeDirection` | MazeBoard.java:309 | The goal test of the step holds exactly when the neighbour in some direction is the STOP door |
| `Board.MazeBoard.ChosenIsLeastMarked` | MazeBoard.java:312-342 | The chosen direction has no more marks than any of the four neighbours |
| `Board.MazeBoard.ChosenBreaksTiesByOrder` | MazeBoard.java:312-342 | An open direction tried before the chosen one has strictly more marks: ties go to the earlier of down, right, up, left |
| `Board.MazeBoard.ChosenExactlyWhenOpenMinimum` | MazeBoard.java:312-348 | A direction is chosen if and only if some open neighbour has the fewest marks of the four |
| `Board.MazeBoard.ChosenWhenOpenNeighbour` | MazeBoard.java:312-348 | An open neighbour with at most FAR_AWAY marks guarantees a move is chosen |
| `Board.MazeBoard.MakeMove` | MazeBoard.java:307-349 | Goal next door, no qualifying direction, or walled in: no move and no change. Otherwise the runner moves one unit in the chosen direction onto a pathway on the grid, the vacated cell is incremented and no other cell changes; off the grid it faults without change |
| `Board.MazeBoard.LastStartInRow` | MazeBoard.java:249-253 | The last START among the first j cells of a row; none when the row has none there |
| `Board.MazeBoard.LastStartInRows` | MazeBoard.java:248-255 | The last START in row-major order among the first i rows: it is a START cell, no later cell of those rows is one, and none is found only when there is none |
| `Board.MazeBoard.FindStart` | MazeBoard.java:245-258 | Puts the runner one row above the last START in row-major order, or leaves it where it was when there is no START; the grid is not modified |

## Left out

- Drawing (`paint`, `drawMaze`), the `JPanel` inheritance, `repaint`, and the pixel layout (`cellSize`, `MARGIN`, `boardRect`): presentation only.
- Reading maze files and the timer or driver loop that calls `makeMove`: they belong to the `WindowManager` class, which is not part of this model.
- Whether repeated steps terminate or reach the goal: the code promises neither (a maze with cycles can keep the runner walking), so only single steps are specified.
- The unallocated maze (`cell == null` before `resetBoard`) is a 0 by 0 array; with zero rows and columns every operation of the code does nothing, answers `false`, or answers the off-grid value (`WALL`, 9999999), exactly as with `null`.
- Board.MazeBoard.ResetBoard: negative sizes are excluded by its precondition; the code records them and then throws `NegativeArraySizeException`.
- Board.MazeBoard.Set: a column equal to `numCols` passes the code's bounds test and then makes the array write throw; the model treats it as out of range, like the other bounds (see Findings).
- Board.MazeBoard.ChosenWhenOpenNeighbour: is stated only for an open neighbour with at most FAR_AWAY marks, because a pathway counted past 9999999 compares as no better than a wall.
- The position is not checked to be a pathway: `findStart` may put the runner on a wall, and the first move then increments that wall's code to 0. The model keeps this behaviour and states only what the code guarantees.

## Findings

| source | as written | input that shows it | evidently intended | confidence | as-written member | corrected member |
|---|---|---|---|---|---|---|
| MazeBoard.java:95 | the column test is `c > numCols`, so `c == numCols` passes the test, and the write `cell[r][c]` throws | `set(0, 3, '*')` on a 1 by 3 maze: the test passes and the write throws `ArrayIndexOutOfBoundsException` | `c >= numCols`, a silent no-op like every other out-of-range cell | high; not executed | `MazeCells.SetGuardAdmitsColumnPastEnd` | `Board.MazeBoard.Set` |
