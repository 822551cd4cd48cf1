/** The Some/None datatype used for the program's failure paths. */
module Wrappers {

  datatype Option<+T> = None | Some(value: T)
}
