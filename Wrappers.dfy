/** Option and Result, the two failure-carrying shapes the engine returns. */
module Wrappers {

  /** `None` stands for Python's `None` return from a search that found nothing. */
  datatype Option<+T> = None | Some(value: T)

  /** A successful value, or the reason evaluation stopped. */
  datatype Result<+T, +E> = Success(value: T) | Failure(error: E)
}
