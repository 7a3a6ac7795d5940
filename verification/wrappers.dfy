/** Option and Result types shared by the modules of the model.

    `Option` stands for a JavaScript value that may be `undefined` or `null`
    (and, for numbers, `NaN`); `Result` stands for a call that either returns
    a value or throws an error.
 */
module Wrappers {

  datatype Option<+T> = None | Some(value: T) {

    /** The encapsulated value, or `default` when there is none (JavaScript `x ?? default`). */
    function GetOr(default: T): T {
      match this
      case Some(v) => v
      case None => default
    }
  }

  datatype Result<+R, +E> = Success(value: R) | Failure(error: E)
}
