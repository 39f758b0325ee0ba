/** An optional value, for results that JavaScript reports as `null` or `undefined`. */
module Wrappers {
  datatype Option<T> = None | Some(value: T)
}
