module Wrappers {
  /** A value that may be missing: a null pointer, an unowned mutex, a table not yet assigned. */
  datatype Option<+T> = None | Some(value: T)
}
