/** Option, Result and the error values thrown by jspm. */
module Wrappers {

  datatype Option<T> = None | Some(value: T)
  {
    function UnwrapOr(default: T): T
    {
      match this
      case None => default
      case Some(v) => v
    }
  }

  /**
   * The exceptions the modelled code throws. `JspmError` carries the
   * optional error code of src/common/err.ts ("" when absent);
   * `InternalError` is `throwInternalError`; `PlainError` is any other
   * `Error` (a failed `new URL`, a `TypeError`, an unexpected fetch status
   * surfaced as a plain error). `Exhausted` has no counterpart in the
   * source: it is what a model loop or recursion reports when the bound it
   * was given (its fuel) runs out before the source's loop would end.
   */
  datatype Error =
    | JspmError(message: string, code: string)
    | InternalError
    | PlainError(message: string)
    | Exhausted

  datatype Result<T> = Ok(value: T) | Err(error: Error)
  {
    predicate IsFailure() { Err? }

    function PropagateFailure<U>(): Result<U>
      requires Err?
    {
      Err(error)
    }

    function Extract(): T
      requires Ok?
    {
      value
    }
  }
}
