/** Optional values (SQL NULL, Rust `Option`) and results of operations that may fail. */
module Wrappers {

  datatype Option<+T> = None | Some(value: T) {
    /** SQL `COALESCE(this, other)`. */
    function Or(other: Option<T>): Option<T> {
      if Some? then this else other
    }
  }

  /** The error value says which family of failure stopped the operation. */
  datatype Error = InconsistentBeaconData | BeaconDataUnavailable | NotFound | UniqueViolation | Other

  datatype Result<+T> = Ok(value: T) | Err(error: Error) {
    predicate IsFailure() { Err? }

    function PropagateFailure<U>(): Result<U>
      requires Err?
    {
      Err(error)
    }

    function Extract(): T
      requires Ok?
    {
      value
    }
  }
}
