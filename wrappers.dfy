/** The optional-value type shared by the parsing functions of the model. */
module Wrappers {

  datatype Option<+T> = None | Some(value: T)
}
