/** Null-able values and error returns of the modelled Java and JavaScript code. */
module Wrappers {

  /** `None` stands for Java's `null` and for JavaScript's `null`/`undefined`. */
  datatype Option<+T> = None | Some(value: T)

  /** A value or the exception the source throws instead. */
  datatype Result<+R, +E> = Ok(value: R) | Err(error: E)
}
