/** Shared helper datatypes. */
module Wrappers {

  /** A value that may be absent: Python's `None` or an empty result. */
  datatype Option<+T> = None | Some(value: T)
}
