/** Failure-carrying values shared by the normalizer and the approver. */
module Wrappers {

  /** An optional value: the result of a parser that may reject its input. */
  datatype Option<+T> = None | Some(value: T)

  /** Either a value or the error that prevented computing it. */
  datatype Result<+T, +E> = Success(value: T) | Failure(error: E)
}
