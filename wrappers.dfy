/** Small wrappers shared by the other modules. */
module Wrappers {

  /** A value that may be absent: Python's `None` or a real value. */
  datatype Option<+T> = None | Some(value: T)

  /** A byte of a response body. */
  newtype byte = b: int | 0 <= b < 256
}
