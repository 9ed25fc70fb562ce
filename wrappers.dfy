/** The failure-carrying result types shared by every module of the model.
    A Python function that raises is modelled as one that returns `Err(e)`,
    where `e` names the exception class it raises. */
module Wrappers {

  datatype Option<+T> = None | Some(value: T) {
    function GetOr(default: T): T {
      match this
      case Some(v) => v
      case None => default
    }
  }

  /** The Python exception classes the modelled code can raise. */
  datatype Exception =
    | ValueError
    | IndexError
    | StructError
    | ZeroDivisionError
    | UnicodeDecodeError
    | UnicodeEncodeError
    | TypeError
    | AttributeError

  datatype Result<+T> = Ok(value: T) | Err(error: Exception) {
    predicate IsFailure() {
      Err?
    }

    function PropagateFailure<U>(): Result<U>
      requires Err?
    {
      Err(error)
    }

    function Extract(): T
      requires Ok?
    {
      value
    }
  }
}
