/** Option and Result, standing for C#'s nullable references and thrown exceptions. */
module Wrappers {

  /** `None` models a C# `null` string reference. */
  datatype Option<+T> = None | Some(value: T)

  /** `Failure` models an exception thrown instead of a value being returned. */
  datatype Result<+R, +E> = Success(value: R) | Failure(error: E)
}
