/** The optional value used across the model (a missing form field, a pending timer, no matching section). */
module Wrappers {

  datatype Option<+T> = None | Some(value: T)

}
