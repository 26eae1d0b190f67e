/** Failure-carrying value types used across the model: Python's `None`,
    a step that either passes or raises, and a value-or-exception result. */
module Outcomes {

  /** A value that may be absent (Python's `None`). */
  datatype Option<T> = None | Some(value: T)

  /** A step with no interesting value that either passes or raises an
      exception, identified by the exception's type name. */
  datatype Outcome<E> = Pass | Fail(error: E)

  /** A step that yields a value or raises an exception. */
  datatype Result<T, E> = Ok(value: T) | Err(error: E)
}
