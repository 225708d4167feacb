/** The optional value used wherever the Python code returns or stores `None`. */
module Wrappers {

  datatype Option<+T> = None | Some(value: T)
}
