/** Optional values, used for lookups that may find nothing and for state
    the source leaves unset. */
module Wrappers {

  datatype Option<+T> = None | Some(value: T)
}
