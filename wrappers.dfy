/** The Option datatype the model uses for "a value or Python's `None`". */
module Wrappers {

  datatype Option<+T> = None | Some(value: T)
}
