/** The optional-value datatype used throughout the model (a null pointer or a present one). */
module Wrappers {

  datatype Option<+T> = None | Some(value: T)
}
