/** Optional values, for lookups that may find nothing (Array.prototype.find). */
module Wrappers {

  datatype Option<+T> = None | Some(value: T)
}
