/** Java's nullable values, written as an explicit option. */
module Wrappers {

  datatype Option<+T> = None | Some(value: T)
}
