/** What every part of the model uses. */
module Basics {
  type Byte = bv8

  datatype Option<+T> = None | Some(value: T)
}
