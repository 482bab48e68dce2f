/** Small vocabulary shared by the storage shim and the cell: Rust's `Option`,
    `Result` and `Ordering`, and how a host callback ends. */
module Common {

  /** Rust's `Option<T>`. */
  datatype Option<T> = None | Some(value: T)

  /** Rust's `Result<T, E>`. */
  datatype Result<T, E> = Ok(value: T) | Err(error: E)

  /** Rust's `core::cmp::Ordering`. */
  datatype Ordering = Less | Equal | Greater

  /** How a callback that was handed `&mut T` ended: it returned `result`, or it
      panicked. Either way `arg` is the value it left behind in its argument,
      which is what a scope-guarded write-back stores. */
  datatype Exit<T, R> = Return(arg: T, result: R) | Panic(arg: T)

  /** What the caller of an operation that runs a callback observes: the
      operation completed with a value, or the callback's panic unwound
      through it. */
  datatype Outcome<R> = Completed(value: R) | Unwound
}
