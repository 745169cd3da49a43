// Values shared by every part of the model: PHP's null, the "false or a value"
// returns, and the two exception classes the framework throws.
module Php {

  /** A PHP value that may be null. */
  datatype Nullable<+T> = Null | Val(v: T)

  /** A model-level optional result (for PHP functions that return false on a miss). */
  datatype Option<+T> = None | Some(value: T)

  /** The outcome of an operation that may throw. */
  datatype Result<+T, +E> = Success(value: T) | Failure(error: E)

  /** The exceptions raised by the framework, with the message each carries. */
  datatype Exception =
    | RuntimeException(message: string)
    | InvalidArgumentException(message: string)
}
