/** Failure-carrying values shared by the model: an optional value (a JavaScript
    argument that may be `null`/`undefined`) and a success-or-error result (a
    function that may throw). */
module Wrappers {

  datatype Option<+T> = None | Some(value: T)

  datatype Result<+R, +E> = Success(value: R) | Failure(error: E)
}
