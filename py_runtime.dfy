/** The part of Python's runtime behaviour the plotter scripts depend on: an
    operation either produces a value or raises an exception, and a raised
    exception abandons the rest of the call. */
module PyRuntime {

  datatype PyError = ZeroDivisionError | IndexError | KeyError

  datatype PyResult<T> = Ok(value: T) | Raised(error: PyError)
}
