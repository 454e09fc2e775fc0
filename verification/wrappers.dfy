/** Optional values, shared by the modules that model operations which can
    fail or produce nothing. */
module Wrappers {

  datatype Option<T> = None | Some(value: T)
}
