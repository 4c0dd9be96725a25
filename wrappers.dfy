/** Failure-compatible wrappers used to model Python's "value or nothing" and
    "value or exception" outcomes. */
module Wrappers {

  /** `None` stands for a Python `None` result or for a step that raised and was swallowed. */
  datatype Option<+T> = None | Some(value: T) {
    predicate IsFailure() { None? }

    function PropagateFailure<U>(): Option<U>
      requires None?
    {
      None
    }

    function Extract(): T
      requires Some?
    {
      value
    }

    function GetOr(default: T): T {
      match this
      case Some(v) => v
      case None => default
    }
  }

  /** A value, or the exception that ended the computation. */
  datatype Result<+T, +E> = Success(value: T) | Failure(error: E) {
    predicate IsFailure() { Failure? }

    function PropagateFailure<U>(): Result<U, E>
      requires Failure?
    {
      Failure(error)
    }

    function Extract(): T
      requires Success?
    {
      value
    }
  }

  /** The smaller of two integers: `min(a, b)`, used for slice lengths and the
      pairing of two lists. */
  function Min(a: int, b: int): int {
    if a <= b then a else b
  }
}
