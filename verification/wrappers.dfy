/** The Some/None datatype used wherever a foreign call can return a null pointer. */
module Wrappers {

  datatype Option<+T> = None | Some(value: T)
}
