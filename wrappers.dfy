/** Optional values, used where the source returns "nothing" or a sentinel. */
module Wrappers {
  datatype Option<+T> = None | Some(value: T)
}
