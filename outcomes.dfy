/** Success and failure values shared by every module.  A PHP `throw` becomes the
    `Err` side of a `Result`; a check that returns nothing on success is a `Status`. */
module Outcomes {

  datatype Option<+T> = None | Some(value: T)

  /** What a thrown PHP error carries: an `Exception` raised by the library itself, or
      the `TypeError` that PHP 8 raises when a built-in function is handed an array
      where it needs a string, or a scalar where it needs an array. */
  datatype Error = Exception(message: string) | TypeError(message: string)

  datatype Result<+T> = Ok(value: T) | Err(error: Error) {
    predicate IsFailure() { Err? }

    function PropagateFailure<U>(): Result<U>
      requires Err?
    {
      Err(error)
    }

    function Extract(): T
      requires Ok?
    {
      value
    }
  }

  datatype Status = Pass | Fail(error: Error) {
    predicate IsFailure() { Fail? }

    function PropagateFailure<U>(): Result<U>
      requires Fail?
    {
      Err(error)
    }
  }
}
