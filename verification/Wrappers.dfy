/** Optional values, for map lookups and nullable interfaces. */
module Wrappers {

  datatype Option<+T> = None | Some(value: T)
}
