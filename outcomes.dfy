/** Success and failure values shared by the server and client modules. */
module Outcomes {

  /** A value that may be absent (a request field left undefined, a missing lookup). */
  datatype Option<+T> = None | Some(value: T)

  /** A handler's answer: a value, or the error that decides the HTTP status. */
  datatype Result<+T, +E> = Ok(value: T) | Err(error: E)

  /** A handler's answer that carries no value on success. */
  datatype Outcome<+E> = Pass | Fail(error: E)
}
