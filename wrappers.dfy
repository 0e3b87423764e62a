/** The optional value returned by the validators (JavaScript's `undefined` is `None`). */
module Wrappers {

  datatype Option<+T> = None | Some(value: T)
}
