/** Optional values, shared by the store models. */
module Wrappers {

  datatype Option<+T> = None | Some(value: T)
}
