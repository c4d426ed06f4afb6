/** Failure-carrying wrappers used by the model: an optional value and a
    success-or-error result. */
module Wrappers {

  /** A value that may be absent (a missing iCalendar property or JSON field). */
  datatype Option<+T> = None | Some(value: T) {

    /** The carried value, or `default` when there is none. */
    function GetOr(default: T): T {
      match this
      case Some(v) => v
      case None => default
    }
  }

  /** Either a computed value or the error the computation raised. */
  datatype Result<+T, +E> = Success(value: T) | Failure(error: E)
}
