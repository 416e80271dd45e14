/** The optional value used where the game returns "nothing" for an unrecognised input. */
module Wrappers {
  datatype Option<+T> = None | Some(value: T)
}
