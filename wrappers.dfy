/** Optional values, used where the scripts return `None` or raise. */
module Wrappers {

  datatype Option<+T> = None | Some(value: T)
}
