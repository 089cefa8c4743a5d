/** Option and Result values standing in for Java's null and thrown exceptions. */
module Wrappers {

  datatype Option<+T> = None | Some(value: T)

  /** `Err` plays the part of an exception that unwinds the Java call. */
  datatype Result<+T, +E> = Ok(value: T) | Err(error: E) {
    predicate IsFailure() { Err? }

    function PropagateFailure<U>(): Result<U, E>
      requires Err?
    {
      Err(error)
    }

    function Extract(): T
      requires Ok?
    {
      value
    }
  }
}
