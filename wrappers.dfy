/** Plain wrappers for Java's partial results: a `null` return becomes an
    `Option`, a thrown exception a `Result` or an `Outcome`. */
module Wrappers {

  /** `None` stands for a `null` return. */
  datatype Option<+T> = None | Some(value: T)

  /** Either the value computed or the exception raised instead. */
  datatype Result<+T, +E> = Success(value: T) | Failure(error: E)

  /** Completion of a `void` Java method: it returned normally or threw `error`. */
  datatype Outcome<+E> = Pass | Fail(error: E)
}
