/** Failure-carrying return types used in place of null references and exceptions. */
module Wrappers {

  /** A value that may be absent; stands for a nullable reference or a failed lookup. */
  datatype Option<+T> = None | Some(value: T)

  /** The outcome of an operation that throws on failure in the C# code. */
  datatype Result<+T, +E> = Ok(value: T) | Err(error: E) {

    predicate IsFailure() {
      Err?
    }

    function PropagateFailure<U>(): Result<U, E>
      requires Err?
    {
      Err(error)
    }

    function Extract(): T
      requires Ok?
    {
      value
    }
  }
}
