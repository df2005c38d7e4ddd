/** Option and Result values that stand for Java's null returns and thrown exceptions. */
module Wrappers {

  /** `None` stands for Java's `null` or for a lookup that threw. */
  datatype Option<+T> = None | Some(value: T)

  /** `Failure` carries what a Java method would have thrown. */
  datatype Result<+T, +E> = Success(value: T) | Failure(error: E)
}
