/** The optional-value datatype used across the model (JavaScript's null and undefined). */
module Wrappers {

  datatype Option<+T> = None | Some(value: T)
}
