/** The conventional optional value, used for the source's nil-able fields and lookups. */
module Wrappers {
  datatype Option<+T> = None | Some(value: T)
}
