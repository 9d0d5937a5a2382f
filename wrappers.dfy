/** The usual optional value: `None` is Go's "not found" / nil result. */
module Wrappers {

  datatype Option<+T> = None | Some(value: T)
}
