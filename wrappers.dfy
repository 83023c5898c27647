/** Failure-carrying values shared by the pipeline's stages. */
module Wrappers {

  /** A value that may be absent: a JSON null, a lookup that found nothing. */
  datatype Option<+T> = None | Some(value: T)

  /** The outcome of a step that either produces a value or stops with an error. */
  datatype Result<+T, +E> = Ok(value: T) | Err(error: E)
}
