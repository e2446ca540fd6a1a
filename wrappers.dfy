/** Optional values: a document field that is absent (or null) reads as None. */
module Wrappers {
  datatype Option<+T> = None | Some(value: T)
}
