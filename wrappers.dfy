/** Option and Result types shared by every operator, and the errors the library throws. */
module Wrappers {

  /** A value or JavaScript's `undefined`. */
  datatype Option<+T> = None | Some(value: T)

  /** The `Error` messages thrown by the library, one constructor per message. */
  datatype Error =
    | SequenceIsEmpty          // "sequence is empty" (headTail)
    | NoElements               // "sequence contains no elements"
    | MoreThanOneElement       // "sequence contains more than one element"
    | DuplicateKey             // "duplicate key"
    | StartNotIntegral         // "start must be an integral value"
    | RangeNotIntegral         // "range must be an integral value"
    | RangeNegative            // "range must be >= 0"
    | NotAFunction             // the TypeError raised by calling `undefined`

  /** The outcome of an operation that either returns a value or throws. */
  datatype Result<+T> = Success(value: T) | Failure(error: Error)
}
