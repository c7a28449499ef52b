/** The optional-value datatype shared by the modules of this project. */
module Wrappers {

  /** A value that may be absent (a missing JSON field, an unset timer). */
  datatype Option<+T> = None | Some(value: T)
}
