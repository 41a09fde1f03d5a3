/** Option and Result values used for the collaborators' outcomes. */
module Wrappers {

  datatype Option<+T> = None | Some(value: T)

  /** The outcome of a call that may raise: a value, or the text of the exception. */
  datatype Result<+T> = Ok(value: T) | Raised(message: string)
}
