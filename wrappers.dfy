/** Result types for the operations whose Java counterparts throw. */
module Wrappers {

  datatype Option<+T> = None | Some(value: T)

  /** The two exceptions the emitted code and the processor raise. */
  datatype JavaException =
    | NullPointer(message: string)
    | IllegalArgument(message: string)

  datatype Result<+T> = Success(value: T) | Failure(error: JavaException)

  /** Result of a builder mutator: it returns `this` or throws. */
  datatype Outcome = Pass | Fail(error: JavaException)
}
