/** An optional value: a Go `error` that is either nil or carries its message. */
module Wrappers {
  datatype Option<+T> = None | Some(value: T)
}
