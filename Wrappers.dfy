/** Option and Result values for the operations that either produce nothing or fail. */
module Wrappers {

  datatype Option<+T> = None | Some(value: T)

  /** A success value or an error message (the source throws `std::runtime_error`). */
  datatype Result<+T> = Success(value: T) | Failure(error: string)
}
