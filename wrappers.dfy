/** Option and Result, the two ways the source reports absence and failure. */
module Wrappers {

  datatype Option<+T> = None | Some(value: T)

  /** An `anyhow::Result`: a value, or an error carrying its message. */
  datatype Result<+T> = Ok(value: T) | Err(message: string)
}
