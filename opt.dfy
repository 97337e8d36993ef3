/** A value that may be absent. */
module Opt {
  datatype Option<T> = None | Some(value: T)
}
