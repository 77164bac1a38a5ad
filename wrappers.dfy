/** Optional values, for lookups that may find nothing (`findOne`, `Map.get`). */
module Wrappers {
  datatype Option<+T> = None | Some(value: T)
}
