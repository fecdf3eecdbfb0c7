/** The optional value used for JavaScript's `null`-able state and for NaN. */
module Wrappers {
  datatype Option<+T> = None | Some(value: T)
}
