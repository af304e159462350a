/** An optional value: a missing header, or a missing or non-string body field. */
module Wrappers {

  datatype Option<+T> = None | Some(value: T)
}
