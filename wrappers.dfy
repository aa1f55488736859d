/** Optional values and results with an error, standing in for Python's
    `None` and for the exceptions the modelled code raises. */
module Wrappers {

  datatype Option<+T> = None | Some(value: T)

  /** The Python exceptions that the modelled code lets escape. */
  datatype Error =
    | ZeroDivisionError   // a float division by zero
    | ValueError          // an unpacking of the wrong arity, an `int()` of a non-number, `max` of an empty list
    | TypeError           // an ordering comparison with None
    | IndexError          // a list index out of range
    | OSError             // a file that cannot be opened

  datatype Result<+T> = Success(value: T) | Failure(error: Error)
}
