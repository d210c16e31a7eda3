/** Failure-carrying values shared by every module of the code model.

    The Java code reports failures by throwing; here every failing operation
    returns a `Result` whose `Failure` carries the exception it would throw.
 */
module Wrappers {

  /** A reference that may be `null` in the Java code. */
  datatype Option<+T> = None | Some(value: T)

  /** The three exception classes the core throws, with their messages.
      - `ModelError`: `CodeModelException`, a structural rule was violated;
      - `Unsupported`: `UnsupportedOperationException`, a kind mismatch or a
        member the snapshot leaves unimplemented;
      - `IllegalState`: `IllegalStateException`, a builder used out of order. */
  datatype Error =
    | ModelError(message: string)
    | Unsupported(message: string)
    | IllegalState(message: string)

  /** Either the value a Java call returns or the exception it throws. */
  datatype Result<+T> = Success(value: T) | Failure(error: Error)
  {
    predicate IsFailure() {
      Failure?
    }

    function PropagateFailure<U>(): Result<U>
      requires Failure?
    {
      Failure(error)
    }

    function Extract(): T
      requires Success?
    {
      value
    }
  }
}
