/** Optional values and fallible results, as the Rust sources use `Option` and `Result`.
  * `Result` supports Dafny's `:-` so that Rust's `?` reads the same way. */
module Wrappers {
  datatype Option<T> = None | Some(value: T)

  /** `Err` carries what the Rust code returns as its error value. */
  datatype Result<T, E> = Ok(value: T) | Err(error: E)
  {
    predicate IsFailure() { Err? }

    function PropagateFailure<U>(): Result<U, E>
      requires Err?
    {
      Err(error)
    }

    function Extract(): T
      requires Ok?
    {
      value
    }
  }
}
