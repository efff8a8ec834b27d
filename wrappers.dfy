/** Option and Result values standing for Rust's `Option<T>` and `Result<T, E>`. */
module Wrappers {

  datatype Option<+T> = None | Some(value: T) {
    /** `unwrap_or` / `unwrap_or_default` with an explicit default */
    function GetOr(default: T): T {
      match this
      case Some(v) => v
      case None => default
    }
  }

  /** `Result<T, E>`; the constructors are named Success/Failure so that they do not clash
      with the protocol's own `Ok` and `Error` variants. */
  datatype Result<+T, +E> = Success(value: T) | Failure(error: E) {
    /** `map_err` */
    function MapFailure<F>(f: E -> F): Result<T, F> {
      match this
      case Success(v) => Success(v)
      case Failure(e) => Failure(f(e))
    }
  }
}
