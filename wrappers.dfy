/** Option and Result, the failure-carrying values the rest of the model returns
    where the Python code returns None or raises an exception. */
module Wrappers {

  datatype Option<+T> = None | Some(value: T)

  datatype Result<+T, +E> = Success(value: T) | Failure(error: E)

  /** The Python exceptions the modelled code can raise on bad input. */
  datatype PyError =
    | KeyError(key: string)       // a dictionary lookup of a missing key
    | IndexError                  // a list index past the end
    | ValueError(reason: string)  // an unpacking of the wrong length, a malformed date
    | TypeError(reason: string)   // a value of the wrong JSON type
    | OverflowError(reason: string) // a date moved past 31-12-9999
}
