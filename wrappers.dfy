// Option and Result: the model's stand-ins for .NET nullable values and for
// the exceptions that the library raises (an Err carries the exception).
module Wrappers {
  datatype Option<+T> = None | Some(value: T)

  datatype Result<+T, +E> = Ok(value: T) | Err(error: E)
  {
    predicate IsFailure() { Err? }
  }
}
