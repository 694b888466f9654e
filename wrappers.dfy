/** The optional value used for oracle answers and for the selection result. */
module Wrappers {
  datatype Option<+T> = None | Some(value: T)
}
