/** Optional values, for the source's nullable fields and missing keys. */
module Wrappers {
  datatype Option<+T> = None | Some(value: T)
}
