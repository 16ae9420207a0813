/** Failure-carrying results shared by every module of the model.
    The C++ code reports failures by throwing `std::invalid_argument` or
    `std::out_of_range`; the model returns them as values instead. */
module Wrappers {

  datatype Option<+T> = None | Some(value: T)

  /** The two exception classes the core throws. */
  datatype Error = InvalidArgument | OutOfRange

  datatype Result<+T> = Success(value: T) | Failure(error: Error)

  /** The result of an operation that returns nothing on success. */
  datatype Outcome = Pass | Fail(error: Error)
}
