/** The optional value used by both modelled components. */
module Wrappers {
  datatype Option<T> = None | Some(value: T)
}
