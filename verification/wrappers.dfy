/** Two small sum types shared by the other modules. `Option` stands for a
    Python value that may be `None`; `Result` is what a call produced, or
    the exception it raised, and supports `:-` so that a raise propagates
    the way it does through the Python call stack. */
module Wrappers {

  datatype Option<+T> = None | Some(value: T) {

    /** The value when present, else the fallback the caller names. */
    function GetOr(default: T): T {
      if Some? then value else default
    }
  }

  datatype Result<+T, +E> = Success(value: T) | Failure(error: E) {

    predicate IsFailure() {
      Failure?
    }

    function PropagateFailure<U>(): Result<U, E>
      requires Failure?
    {
      Failure(error)
    }

    function Extract(): T
      requires Success?
    {
      value
    }
  }
}
