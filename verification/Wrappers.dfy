/** Result and option types shared by every component of the model. */
module Wrappers {

  datatype Option<+T> = None | Some(value: T)

  datatype Result<+T, +E> = Success(value: T) | Failure(error: E)

  /** The outcome of an operation that yields no value: Go's `error` result. */
  datatype Status<+E> = Done | Failed(error: E)
}
