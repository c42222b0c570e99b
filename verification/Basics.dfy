/** Types the other modules share. */
module Basics {
  datatype Option<+T> = None | Some(value: T)

  type Bytes = seq<bv8>
}
