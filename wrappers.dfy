/** Small option type used for values that may be absent (a missing directory, a missing key). */
module Wrappers {
  datatype Option<+T> = None | Some(value: T)
}
