/** Option and Result values: JavaScript's `undefined`/`null` answers and thrown errors,
    written as values so that every error path of the service is part of its contract. */
module Outcomes {

  datatype Option<+T> = None | Some(value: T)

  datatype Result<+T, +E> = Ok(value: T) | Err(error: E)
}
