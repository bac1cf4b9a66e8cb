/** Failure-carrying datatypes shared by the rest of the model. */
module Wrappers {

  /** An optional value; `None` stands for an absent or unparsable input. */
  datatype Option<+T> = None | Some(value: T)

  /** Either a value or the error that prevented producing one. */
  datatype Result<+R, +E> = Success(value: R) | Failure(error: E)
}
