/** The success-or-error value that stands for the `Error` thrown by `aggregateReservations` and caught by `handler`. */
module Wrappers {

  /** Either a computed value or the message of the error that aborted the computation. */
  datatype Result<+T, +E> = Success(value: T) | Failure(error: E)
}
