/** Failure-carrying values used by the model: a JavaScript value that may be
    absent (`undefined`, a throw caught by a handler) becomes an `Option` or a
    `Result` here. */
module Results {

  datatype Option<+T> = None | Some(value: T)

  datatype Result<+T, +E> = Ok(value: T) | Err(error: E)

}
