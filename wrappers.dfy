/** An optional value: a missing selection, an absent field. */
module Wrappers {
  datatype Option<T> = None | Some(value: T)
}
