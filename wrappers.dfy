/** Option, for cells that may be missing and searches that may find nothing. */
module Wrappers {
  datatype Option<+T> = None | Some(value: T)
}
