/** A value that may be missing: a NULL column, an absent key, a refused call. */
module Wrappers {
  datatype Option<+T> = None | Some(value: T)
}
