/** Optional values, for the operations that can come back empty-handed. */
module Wrappers {
  datatype Option<T> = None | Some(value: T)
}
