/** Small failure-carrying datatypes shared by the server and the client models. */
module Wrappers {

  /** Python's `None` or a value. */
  datatype Option<+T> = None | Some(value: T)

  /** The result of a Python call that either returns a value or raises. */
  datatype Outcome<+T> = Returned(value: T) | Raised
}
