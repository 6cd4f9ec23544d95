/** Optional values: the source's `None` results and `float('inf')` sentinels. */
module Wrappers {

  datatype Option<+T> = None | Some(value: T)
}
