/** Option and Result, the failure-carrying wrappers used throughout the model.
    `None` stands for Java's `null` / an empty `Optional`. */
module Wrappers {

  datatype Option<+T> = None | Some(value: T) {

    /** `Optional.map(f)`: applies `f` to a present value, keeps absence. */
    function Map<U>(f: T -> U): (r: Option<U>)
      ensures r.None? <==> None?
      ensures Some? ==> r == Some(f(value))
    {
      match this
      case None => None
      case Some(v) => Some(f(v))
    }
  }

  datatype Result<+T, +E> = Ok(value: T) | Err(error: E) {
    predicate IsFailure() { Err? }

    function PropagateFailure<U>(): Result<U, E>
      requires Err?
    {
      Err(error)
    }

    function Extract(): T
      requires Ok?
    {
      value
    }
  }
}
