/** The optional value used for partial operations throughout the model. */
module Wrappers {

  datatype Option<+T> = None | Some(value: T)
}
