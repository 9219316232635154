/** Option and Result, used for the source's null returns and thrown errors. */
module Wrappers {

  /** A possibly absent value; `None` stands for Java's or JavaScript's null. */
  datatype Option<+T> = None | Some(value: T)

  /** The outcome of an operation that either yields a value or raises an error. */
  datatype Result<+T, +E> = Success(value: T) | Failure(error: E)
}
