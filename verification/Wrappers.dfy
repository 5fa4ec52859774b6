/** A value that may be missing, wherever the program raises, returns nothing or fails an assertion. */
module Wrappers {

  datatype Option<T> = None | Some(value: T)
}
