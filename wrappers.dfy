/** Optional values, used for absent request fields and absent timestamps. */
module Wrappers {
  datatype Option<+T> = None | Some(value: T)
}
