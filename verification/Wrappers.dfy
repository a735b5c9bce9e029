/** Failure-compatible result types shared by every module. */
module Wrappers {

  datatype Option<+T> = None | Some(value: T) {

    predicate IsFailure() {
      None?
    }

    function PropagateFailure<U>(): Option<U>
      requires None?
    {
      None
    }

    function Extract(): T
      requires Some?
    {
      value
    }

    function GetOr(default: T): T {
      match this
      case None => default
      case Some(v) => v
    }
  }

  /** A value that is nil when `empty`. */
  function NilIf<T>(empty: bool, v: T): Option<T> {
    if empty then None else Some(v)
  }

  datatype Result<+T, +E> = Ok(value: T) | Err(error: E)
}
