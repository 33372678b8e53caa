/** The two ways the implementations report a rejected bound: the Go functions
    return an error value beside a nil slice, the TypeScript functions return
    `undefined`. */
module Outcomes {

  /** The one failure: the bound is not a natural number. */
  datatype Error = NotNaturalNumber

  /** Go's `([]uint, error)` pair: exactly one side is meaningful. */
  datatype Result<T> = Success(value: T) | Failure(error: Error)

  /** TypeScript's `T | undefined`. */
  datatype Option<T> = None | Some(value: T)
}
