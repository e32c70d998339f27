/** Option type for the result of a pop. */
module Wrappers {

  datatype Option<+T> = None | Some(value: T)
}
