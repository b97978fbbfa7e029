/** Success/failure wrappers shared by the modules of the model. */
module Wrappers {

  /** An optional value: JavaScript's `undefined`/`null` versus a present value. */
  datatype Option<+T> = None | Some(value: T) {
    function GetOr(default: T): T {
      match this
      case Some(v) => v
      case None => default
    }
  }

  /** A value or a thrown error. */
  datatype Result<+T, +E> = Success(value: T) | Failure(error: E)

  /** What a `catch` clause receives: an `Error` carrying its message, or any other value. */
  datatype Thrown = ErrorValue(message: string) | OtherValue
}
