/** Optional values: the outcome of a parse that may fail. */
module Wrappers {

  datatype Option<+T> = None | Some(value: T)
}
