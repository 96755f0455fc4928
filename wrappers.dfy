/** Option and Result, the explicit stand-ins for Python's None and raised exceptions. */
module Wrappers {

  datatype Option<+T> = None | Some(value: T)

  /** `Err` carries the exception the Python code would raise. */
  datatype Result<+T, +E> = Ok(value: T) | Err(error: E) {

    predicate IsFailure() {
      Err?
    }

    function PropagateFailure<U>(): Result<U, E>
      requires Err?
    {
      Err(error)
    }

    function Extract(): T
      requires Ok?
    {
      value
    }
  }
}
