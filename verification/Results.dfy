/** Failure-carrying wrappers used for the Python exceptions the model keeps. */
module Results {

  /** A value that may be missing; `None` stands for a lookup that raised. */
  datatype Option<+T> = None | Some(value: T)

  /** A value or the error that stopped the computation. */
  datatype Result<+T, +E> = Success(value: T) | Failure(error: E)
}
