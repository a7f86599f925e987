/** Failure-carrying values shared by the modules of this project: Go's
    "value or nil" and "(value, error)" return conventions. */
module Wrappers {

  /** A value that may be absent; `None` stands for Go's `nil`. */
  datatype Option<T> = None | Some(value: T)

  /** Either a result or the error that replaced it; never both. */
  datatype Result<R, E> = Success(value: R) | Failure(error: E)
}
