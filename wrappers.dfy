/** Option, Result and Outcome: the cache's null references and its
    `Preconditions` failures become values instead of exceptions. */
module Wrappers {

  /** `None` stands for a Java `null`. */
  datatype Option<+T> = None | Some(value: T)

  /** The result of a read: a value, or the check that rejected the call. */
  datatype Result<+R, +E> = Success(value: R) | Failure(error: E)

  /** The result of a `void` operation that may be rejected up front. */
  datatype Outcome<+E> = Pass | Fail(error: E)
}
