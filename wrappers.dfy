/** Optional results, for the C functions that return NULL. */
module Wrappers {
  datatype Option<T> = None | Some(value: T)
}
