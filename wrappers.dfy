/** Option and Result types standing for C#'s null references and thrown exceptions. */
module Wrappers {

  /** A value that may be missing: `None` models a C# null (or an empty `Nullable<T>`). */
  datatype Option<+T> = None | Some(value: T)

  /** The exception classes the modelled code throws or catches. */
  datatype Exception =
    | SqlException            // a storage-side failure (System.Data.SqlClient.SqlException)
    | ArgumentException       // an unknown repository or multimedia owner type
    | ArgumentNullException   // a missing server/login/catalog triple
    | OtherException(code: int)

  /** The outcome of a call that may throw: `Err` carries the exception that escapes. */
  datatype Result<+T> = Ok(value: T) | Err(error: Exception)
}
