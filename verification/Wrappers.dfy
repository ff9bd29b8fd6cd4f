/** The one result type the whole model shares: C's "pointer or NULL". */
module Wrappers {
  datatype Option<+T> = None | Some(value: T)
}
