/** The optional value used throughout the model for Python's `None`-or-value returns. */
module Wrappers {
  datatype Option<+T> = None | Some(value: T)
}
