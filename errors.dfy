/** The three failures the subway-line domain raises, and the wrappers that carry them. */
module Errors {

  /** Why an `addLineSection` call is refused (each has its own message in the source). */
  datatype UpdateFailure =
    | DistanceNotShorter   // the new leg is not strictly shorter than the leg it splits
    | BothRegistered       // both stations are already on the line
    | NeitherRegistered    // neither station is on the line

  /** Why a `removeLineSection` call is refused. */
  datatype DeleteFailure =
    | OnlyOneSection       // the line has a single section left
    | StationNotOnLine     // the station is not on the line

  /** The exception classes of the source, as tags. */
  datatype Error =
    | InvalidArgument                            // a distance would not be greater than 0
    | CannotUpdateSection(updateFailure: UpdateFailure)
    | CannotDelete(deleteFailure: DeleteFailure)

  /** A value, or the error the source would have thrown instead. */
  datatype Result<+T> = Ok(value: T) | Err(error: Error)

  /** The outcome of an operation that returns nothing but may throw. */
  datatype Outcome = Pass | Fail(error: Error)
}
