/** The optional values that several modules share. */
module Wrappers {

  /** A pointer that may be NULL, or a function that may fail without saying why. */
  datatype Option<+T> = None | Some(value: T)
}
