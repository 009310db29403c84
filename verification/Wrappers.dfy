// Failure-carrying values shared by the other modules.
module Wrappers {

  datatype Option<+T> = None | Some(value: T)

  /** What a JavaScript function that may throw gives back. */
  datatype Result<+T> = Ok(value: T) | Threw(error: string)
}
