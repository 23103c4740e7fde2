/** Failure-carrying datatypes shared by the whole model. */
module Wrappers {

  datatype Option<+T> = None | Some(value: T)

  /** A computation that either produced a value or raised. */
  datatype Result<+T, +E> = Ok(value: T) | Err(error: E) {
    predicate IsFailure() {
      Err?
    }

    function PropagateFailure<U>(): Result<U, E>
      requires Err?
    {
      Err(error)
    }

    function Extract(): T
      requires Ok?
    {
      value
    }
  }

  /** The Python exceptions the daemon's code raises, catches or lets through.
      `ConnectionError` stands for `SmaxConnectionError` (and its subclasses);
      `Raised` is any other exception thrown by code outside the model. */
  datatype Fault =
    | AttributeError(name: string)
    | TypeError(detail: string)
    | KeyError(key: string)
    | ValueError(detail: string)
    | ConnectionError(detail: string)
    | Raised(detail: string)
}
