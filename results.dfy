/** Outcomes of codec operations: a value, or the Python exception the
    source raises at that point. */
module Results {

  /** The exception classes the codec raises. `ArgumentError` is ctypes'
      refusal of a foreign-function argument of the wrong type. */
  datatype Error =
    | ValueError
    | AssertionError
    | TypeError
    | AttributeError
    | IndexError
    | KeyError
    | ArgumentError

  datatype Result<+T> = Ok(value: T) | Err(error: Error) {

    predicate IsFailure() {
      Err?
    }

    function PropagateFailure<U>(): Result<U>
      requires Err?
    {
      Err(error)
    }

    function Extract(): T
      requires Ok?
    {
      value
    }
  }
}
