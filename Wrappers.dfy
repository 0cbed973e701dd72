/** The optional value the model uses for Python's `None`, a failed parse and a missing key. */
module Wrappers {

  datatype Option<+T> = None | Some(value: T)
}
