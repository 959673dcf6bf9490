module Wrappers {
  /** A result that may be absent: the null pointers of the C program. */
  datatype Option<+T> = None | Some(value: T)
}
