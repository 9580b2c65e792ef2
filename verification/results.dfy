/** Option and Result values used by every module of the model. A Rust
    `Option<T>` becomes `Option<T>`, and a Rust `Result<T, E>` becomes
    `Result<T, E>`. */
module Results {

  datatype Option<+T> = None | Some(value: T) {

    /** The wrapped value, or `default` when there is none (Rust `unwrap_or`). */
    function GetOr(default: T): T {
      match this
      case Some(v) => v
      case None => default
    }
  }

  datatype Result<+T, +E> = Success(value: T) | Failure(error: E)
}
