/** A value that may be absent; null pointers are modelled with it. */
module Wrappers {
  datatype Option<+T> = None | Some(value: T)
}
