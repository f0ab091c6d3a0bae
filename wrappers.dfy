/** The optional value used for Go's nil-able results: a nil error, a failed unquote. */
module Wrappers {

  datatype Option<+T> = None | Some(value: T)
}
