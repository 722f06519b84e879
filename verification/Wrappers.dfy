module Wrappers {

  /** A value, or the error return of the program. */
  datatype Option<+T> = None | Some(value: T)
}
