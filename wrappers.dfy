/** Option and Result, used for Java's nullable references and thrown exceptions. */
module Wrappers {

  /** A value or nothing: Java's `null` where a reference may be absent. */
  datatype Option<+T> = None | Some(value: T)

  /** A value or the error the source would throw instead of returning. */
  datatype Result<+R, +E> = Success(value: R) | Failure(error: E)
}
