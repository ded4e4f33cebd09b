/** The optional value used throughout the model, in place of Swift's `T?`. */
module Wrappers {

  datatype Option<+T> = None | Some(value: T)
}
