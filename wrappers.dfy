/** Option, used for pointers that may be NULL and for partial runs. */
module Wrappers {

  datatype Option<+T> = None | Some(value: T)
}
