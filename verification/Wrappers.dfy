/** Result types shared by the models of the Python and JavaScript components. */
module Wrappers {

  /** A value that may be absent: `None` in Python, `null` or `undefined` in JavaScript. */
  datatype Option<+T> = None | Some(value: T)

  /** A normal return, or the exception that was raised instead. */
  datatype Result<+T, +E> = Ok(value: T) | Err(error: E)
}
