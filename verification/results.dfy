/** A failure-compatible result type: the model's stand-in for Rust's `Result<T, syn::Error>`,
    so that `:-` plays the part of Rust's `?`. */
module Results {

  /** A value or an error. */
  datatype Result<+T, +E> = Ok(value: T) | Err(error: E) {

    predicate IsFailure() {
      Err?
    }

    function PropagateFailure<U>(): Result<U, E>
      requires Err?
    {
      Err(error)
    }

    function Extract(): T
      requires Ok?
    {
      value
    }
  }
}
