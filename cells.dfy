/**
 * How a maze cell is encoded as a Java `int`: negative codes are the wall
 * and the two doors, a value >= 0 is a pathway whose value counts how many
 * times the runner has left it.  Also the Java `int` range, since the visit
 * counter is incremented with Java's wrapping `++`.
 */
module MazeCells {

  const WALL: int := -1
  const START: int := -2
  const STOP: int := -3

  /** What the mark query answers for a cell that is out of range or not a pathway. */
  const FAR_AWAY: int := 9999999

  const INT_MIN: int := -0x8000_0000
  const INT_MAX: int := 0x7fff_ffff

  predicate IsInt32(x: int) {
    INT_MIN <= x <= INT_MAX
  }

  /** Java's `x++` on an `int`: one more, except that the largest value wraps to the smallest. */
  function Inc32(x: int): (y: int)
    requires IsInt32(x)
    ensures IsInt32(y)
    ensures x < INT_MAX ==> y == x + 1 && y > x
    ensures x == INT_MAX ==> y == INT_MIN
  {
    if x == INT_MAX then INT_MIN else x + 1
  }

  predicate IsDigit(v: char) {
    '0' <= v <= '9'
  }

  /**
   * The code that loading the character `v` from a maze description stores
   * in a cell.  The doors are `S`/`s` and `G`/`g`; a blank or a digit is a
   * pathway with that many visits; anything else is a wall.
   */
  function CellCode(v: char): (code: int)
    ensures code in {WALL, START, STOP} || 0 <= code <= 9
    ensures code >= 0 <==> v == ' ' || IsDigit(v)
    ensures IsDigit(v) ==> code == v as int - '0' as int
    ensures v == ' ' ==> code == 0
    ensures code == START <==> v == 'S' || v == 's'
    ensures code == STOP <==> v == 'G' || v == 'g'
    ensures code == WALL <==> !(v == ' ' || IsDigit(v) || v in "SsGg")
  {
    match v
    case '*' => WALL
    case 'S' | 's' => START
    case 'G' | 'g' => STOP
    case ' ' => 0
    case '0' => 0
    case '1' => 1
    case '2' => 2
    case '3' => 3
    case '4' => 4
    case '5' => 5
    case '6' => 6
    case '7' => 7
    case '8' => 8
    case '9' => 9
    case _ => WALL
  }

  /** A character that loads as `code`: every code the loader can produce has one. */
  function Symbol(code: int): (v: char)
    requires code in {WALL, START, STOP} || 0 <= code <= 9
    ensures CellCode(v) == code
  {
    if code == WALL then '*'
    else if code == START then 'S'
    else if code == STOP then 'G'
    else ('0' as int + code) as char
  }

  /** Start and goal letters are case-insensitive; a blank and `0` both load an unvisited pathway. */
  lemma CellCodeSynonyms()
    ensures CellCode('S') == CellCode('s') == START
    ensures CellCode('G') == CellCode('g') == STOP
    ensures CellCode(' ') == CellCode('0') == 0
  {
  }

  /** The cell (r, c) exists in a maze of `rows` by `cols` cells. */
  predicate InBounds(r: int, c: int, rows: int, cols: int) {
    0 <= r < rows && 0 <= c < cols
  }

  /**
   * The bounds test of `set` as the code has it: a write goes ahead unless
   * r < 0, r >= rows, c < 0 or c > cols.
   */
  predicate SetGuardAsWritten(r: int, c: int, rows: int, cols: int)
    ensures InBounds(r, c, rows, cols) ==> SetGuardAsWritten(r, c, rows, cols)
    ensures SetGuardAsWritten(r, c, rows, cols) ==> 0 <= r < rows && 0 <= c <= cols
  {
    !(r < 0 || r >= rows || c < 0 || c > cols)
  }

  /**
   * The test as written lets through exactly one column too many: the
   * column `cols`, which is past the end of every row.
   */
  lemma SetGuardOffByOne(r: int, c: int, rows: int, cols: int)
    requires cols >= 0
    ensures SetGuardAsWritten(r, c, rows, cols) <==> InBounds(r, c, rows, cols) || (0 <= r < rows && c == cols)
  {
  }

  /** Concrete witness: in a 1 by 3 maze the guard admits (0, 3), which is not a cell. */
  lemma SetGuardAdmitsColumnPastEnd()
    ensures SetGuardAsWritten(0, 3, 1, 3) && !InBounds(0, 3, 1, 3)
  {
  }
}
