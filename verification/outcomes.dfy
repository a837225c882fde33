/** Failure-compatible result types used across the model.

    `Result` stands for Rust's `Result<T, ()>`: every failure carries the same
    unit error, so a caller learns only that something failed, never what.
    `Option` stands for Rust's `Option<T>`. */
module Outcomes {

  datatype Result<+T> = Ok(value: T) | Err {

    predicate IsFailure() {
      Err?
    }

    function PropagateFailure<U>(): Result<U>
      requires Err?
    {
      Err
    }

    function Extract(): T
      requires Ok?
    {
      value
    }
  }

  datatype Option<+T> = None | Some(value: T)
}
