/** Option and Result, the failure-carrying values used for the source's
    nullable references and thrown exceptions. */
module Wrappers {

  datatype Option<+T> = None | Some(value: T)

  /** The .NET exception types the modelled code can throw. */
  datatype Exception =
    | ArgumentException
    | ArgumentNullException
    | InvalidOperationException
    | FormatException
    | IndexOutOfRangeException
    | NotSupportedException
    | ArgumentOutOfRangeException

  datatype Result<+T> = Success(value: T) | Failure(error: Exception) {
    predicate IsFailure() {
      Failure?
    }

    function PropagateFailure<U>(): Result<U>
      requires Failure?
    {
      Failure(error)
    }

    function Extract(): T
      requires Success?
    {
      value
    }
  }
}
