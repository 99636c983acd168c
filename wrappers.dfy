/** An optional value: a row that may be missing, a file that may not exist. */
module Wrappers {

  datatype Option<+T> = None | Some(value: T)
}
