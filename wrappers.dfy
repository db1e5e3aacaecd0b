/** Option and Result, used for Java's null and for the exceptions the core can raise. */
module Wrappers {

  /** `None` stands for Java's `null`. */
  datatype Option<+T> = None | Some(value: T)

  /** `Failure` stands for an exception thrown by the modelled code. */
  datatype Result<+R, +E> = Success(value: R) | Failure(error: E)
}
