/** Failure outcomes of the Python layer: an `assert` that does not hold
    raises AssertionError, a shift by a negative count raises ValueError.
    `Option` stands for an optional argument that may be `None`. */
module Errors {

  datatype Error = AssertionError | ValueError

  datatype Result<+T> = Ok(value: T) | Err(error: Error)

  datatype Option<+T> = None | Some(value: T)
}
