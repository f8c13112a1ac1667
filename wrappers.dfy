/** Failure-carrying values shared by every module of the model.
    A Python exception raised by an operation becomes an `Err` carrying the
    exception class; a value that Python leaves unset becomes `None`. */
module Wrappers {

  datatype Option<+T> = None | Some(value: T) {
    function GetOr(default: T): T {
      match this
      case Some(v) => v
      case None => default
    }
  }

  /** The Python exception classes the modelled code can raise. */
  datatype Exception =
    | ValueError
    | TypeError
    | KeyError
    | IndexError
    | AttributeError
    | OverflowError
    | ZeroDivisionError
    | NotImplementedError

  datatype Result<+T> = Ok(value: T) | Err(error: Exception) {
    predicate IsFailure() {
      Err?
    }

    function PropagateFailure<U>(): Result<U>
      requires Err?
    {
      Err(error)
    }

    function Extract(): T
      requires Ok?
    {
      value
    }
  }
}
