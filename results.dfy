/** Failure-carrying return values: the model's stand-in for Ruby's `raise`. */
module Results {
  datatype Option<T> = None | Some(value: T)

  datatype Result<T, E> = Ok(value: T) | Err(error: E)
}
