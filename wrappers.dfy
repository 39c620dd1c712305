/** Option and Result wrappers, used where the source returns "nothing set"
    or throws. */
module Wrappers {

  datatype Option<+T> = None | Some(value: T)

  /** The exceptions the modelled code can raise, named after the .NET
      exception types. */
  datatype Error =
    | IndexOutOfRange      // `IndexOutOfRangeException`: an array index past either end
    | Overflow             // `OverflowException`: `new T[n]` with n < 0
    | NullReference        // `NullReferenceException`: a serialized-array element past the end reads as null

  datatype Result<+T> = Success(value: T) | Failure(error: Error)

  /** How a `void` method ended: normally, or by throwing. */
  datatype Outcome = Done | Thrown(error: Error)
}
