// Optional values, for the results and pointers that may be missing.
module Wrappers {
  datatype Option<T> = None | Some(value: T)
}
