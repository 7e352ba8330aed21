/** Optional values, used for Python indexing that may raise IndexError. */
module Wrappers {
  datatype Option<+T> = None | Some(value: T)
}
