/** The optional value used where the model has to report "no value". */
module Wrappers {

  datatype Option<+T> = None | Some(value: T)
}
