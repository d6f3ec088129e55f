/** Option, Result and Outcome: the shapes used for Java's nullable returns and exceptions. */
module Wrappers {

  /** A value that may be absent (a Java `null` or an empty `Optional`). */
  datatype Option<+T> = None | Some(value: T)

  /** The value of an operation that either returns normally or throws. */
  datatype Result<+R, +E> = Success(value: R) | Failure(error: E)

  /** The outcome of a `void` operation that either returns normally or throws. */
  datatype Outcome<+E> = Pass | Fail(error: E)

  function Min(a: int, b: int): (m: int)
    ensures m <= a && m <= b
    ensures m == a || m == b
  {
    if a <= b then a else b
  }
}
