/** Failure values shared by every component: the Python exceptions and C++ no-ops of the
    original system become explicit results. */
module Errors {

  datatype Option<+T> = None | Some(value: T)

  /** The exception classes the modelled code raises. */
  datatype Error =
    | ValueError(msg: string)
    | KeyError
    | TypeError
    | AssertionError
    | RuntimeError(msg: string)
    | ZeroDivisionError
    | AttributeError

  /** A computation that either yields a value or raises. */
  datatype Result<+T> = Ok(value: T) | Err(error: Error)

  /** A statement that either completes or raises. */
  datatype Outcome = Pass | Fail(error: Error)

  /** The message of an insert-time conflict on a WRITE bucket. */
  const InterferingMsg: string := "Interfering requirements found"

  /** The message of a conflict found while coalescing. The source appends the offending set of
      descriptors after the colon; that rendering is not modelled. */
  const InterferingSetMsg: string := "Interfering requirements found: "
}
