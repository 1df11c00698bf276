/** A value that may be missing: NULL, a missing key, a failed call. */
module Wrappers {
  datatype Option<+T> = None | Some(value: T)
}
