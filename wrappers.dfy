/** Option and Result, and the kinds of Python exception the modelled code raises. */
module Wrappers {

  datatype Option<+T> = None | Some(value: T)

  /** An exception that aborts the operation that raised it; `message` is the exception text. */
  datatype Raised =
    | ValueError(message: string)
    | AttributeError(message: string)
    | KeyError(message: string)
    | Exception(message: string)

  /** Either a value or the exception raised on the way to it; usable with `:-`. */
  datatype Result<+T> = Ok(value: T) | Err(error: Raised) {

    predicate IsFailure() {
      Err?
    }

    function PropagateFailure<U>(): Result<U>
      requires Err?
    {
      Err(error)
    }

    function Extract(): T
      requires Ok?
    {
      value
    }
  }
}
