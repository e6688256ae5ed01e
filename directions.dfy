/**
 * The four moves of the runner and the fixed order in which the step
 * algorithm tries them: down, right, up, left.
 */
module Directions {

  datatype Dir = Down | Right | Up | Left {

    /** Row offset of one step in this direction (rows grow downwards). */
    function DRow(): int {
      match this
      case Down => 1
      case Up => -1
      case _ => 0
    }

    /** Column offset of one step in this direction. */
    function DCol(): int {
      match this
      case Right => 1
      case Left => -1
      case _ => 0
    }

    /** Position of this direction in the try order. */
    function Rank(): (k: nat)
      ensures k < |Order| && Order[k] == this
    {
      match this
      case Down => 0
      case Right => 1
      case Up => 2
      case Left => 3
    }
  }

  /** The order in which the step algorithm considers the neighbours; earlier wins a tie. */
  const Order: seq<Dir> := [Down, Right, Up, Left]

  /** Each direction is a unit step along exactly one axis, and no two directions share an offset. */
  lemma UnitSteps(d: Dir, e: Dir)
    ensures (d.DRow() == 0) != (d.DCol() == 0)
    ensures -1 <= d.DRow() <= 1 && -1 <= d.DCol() <= 1
    ensures d.DRow() == e.DRow() && d.DCol() == e.DCol() ==> d == e
  {
  }

  /** The order lists every direction exactly once. */
  lemma OrderIsPermutation(i: nat, j: nat)
    requires i < |Order| && j < |Order|
    ensures Order[i].Rank() == i
    ensures Order[i] == Order[j] ==> i == j
  {
  }
}
