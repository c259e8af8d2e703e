/** Small result wrappers shared by every module of the model. */
module Wrappers {

  /** Python's "value or None". */
  datatype Option<+T> = None | Some(value: T)

  /** A call that either returns a value or lets an exception escape to its caller. */
  datatype Completion<+T> = Returned(value: T) | Raised
}
