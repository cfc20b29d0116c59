/** Failure-carrying datatypes shared by the rest of the model.
    `None` stands for Python's `None` wherever the source may produce it, and
    `Failure` stands for a raised exception. */
module Wrappers {

  /** A value that may be absent (Python `None`). */
  datatype Option<+T> = None | Some(value: T)

  /** The outcome of an operation that either returns a value or raises. */
  datatype Result<+R, +E> = Success(value: R) | Failure(error: E)
}
