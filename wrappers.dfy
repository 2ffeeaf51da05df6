/** Optional values and results that may carry a Python-level exception. */
module Wrappers {

  /** A value that may be absent: `None` stands for Python's `None` and, in a
      numeric column, for pandas' NaN. */
  datatype Option<+T> = None | Some(value: T)

  /** The outcome of an operation that the source lets raise an exception. */
  datatype Result<+T, +E> = Success(value: T) | Failure(error: E)
}

/** The exceptions the modelled Python code can raise on its inputs. */
module Exceptions {

  /** The key a KeyError reports: a dictionary key, or an integer label
      of a Series. */
  datatype Key = Name(name: string) | Label(index: int)

  datatype PyError =
    | KeyError(key: Key)             // a dictionary key or a Series label is missing
    | ZeroDivisionError              // a Python (not NumPy) division by zero
    | ValueError(message: string)    // raised explicitly by the source
}
