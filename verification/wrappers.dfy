/** Optional values: a storage slot that may be empty, a parse that may fail. */
module Wrappers {

  datatype Option<+T> = None | Some(value: T)
}
