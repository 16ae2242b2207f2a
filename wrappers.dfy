/** Optional values, used where the firmware returns "nothing" (a failed parse, a missing key). */
module Wrappers {
  datatype Option<T> = None | Some(value: T)
}
