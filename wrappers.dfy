/** Failure-carrying return types used in place of the source's nulls and exceptions. */
module Wrappers {

  /** A value that may be absent (a Java `Optional`, or a nullable return). */
  datatype Option<+T> = None | Some(value: T)

  /** A value or the failure that prevented it (a Java method that may throw). */
  datatype Result<+T, +E> = Success(value: T) | Failure(error: E)

  /** The outcome of an operation that returns nothing but may throw. */
  datatype Outcome<+E> = Pass | Fail(error: E)
}

/** The failures the modelled code reports, one per exception the source throws. */
module Errors {

  datatype Error =
    | InvalidInterval         // IllegalArgumentException: an appointment that starts after it ends
    | OverlappingAppointment  // IllegalArgumentException: an appointment that overlaps one already scheduled
    | InvalidArgument         // IllegalArgumentException: a repeat count below 1
    | IndexOutOfRange         // IndexOutOfBoundsException / ArrayIndexOutOfBoundsException
    | MalformedRecord         // ParseException, or a serialized record that lacks a field
    | NullReference           // NullPointerException: a missing map entry or unset field is dereferenced
}
