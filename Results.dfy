/** The absent-value and error-or-value shapes the Python code expresses with
    `None` returns and raised exceptions. */
module Results {

  datatype Option<T> = None | Some(value: T)

  datatype Result<T, E> = Ok(value: T) | Err(error: E)
}
