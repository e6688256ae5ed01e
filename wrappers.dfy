/** The optional value used where the maze code answers "found" or "nothing". */
module Wrappers {
  datatype Option<+T> = None | Some(value: T)
}
