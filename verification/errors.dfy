/** The exceptions the C++ code raises, and the failure-compatible wrappers
    that carry them through the model in place of `throw`. */
module Errors {

  /** The three ways a computation of the source ends without a value. */
  datatype Exception =
    | InvalidArgument(message: string)  // std::invalid_argument
    | RuntimeError(message: string)     // std::runtime_error
    | NoTermination                     // a loop of the source that never exits

  /** The value of a function that may throw. */
  datatype Result<+T> = Ok(value: T) | Err(error: Exception) {
    predicate IsFailure() { Err? }

    function PropagateFailure<U>(): Result<U>
      requires Err?
    {
      Err(error)
    }

    function Extract(): T
      requires Ok?
    {
      value
    }
  }

  /** The outcome of a `void` function that may throw. */
  datatype Outcome = Pass | Fail(error: Exception)
}
