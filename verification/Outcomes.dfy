/** The result types the modelled code returns everywhere, and the error arithmetic shares. */
module Outcomes {
  datatype Option<+T> = None | Some(value: T)

  datatype Result<+T, +E> = Ok(value: T) | Err(error: E)

  datatype ArithmeticError = Overflow
}
