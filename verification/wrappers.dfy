/** Option and Result types shared by the card and ledger modules. */
module Wrappers {

  /** A value that may be absent; stands for Python's `None` return. */
  datatype Option<+T> = None | Some(value: T)

  /** Either a value or the error the Python code would have raised. */
  datatype Result<+T, +E> = Success(value: T) | Failure(error: E)
}
