/** The optional-value datatype the model uses in place of `null` and `undefined`. */
module Wrappers {

  datatype Option<+T> = None | Some(value: T)
}
