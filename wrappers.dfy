/** Failure-carrying values shared by every module of the model. */
module Wrappers {

  datatype Option<T> = None | Some(value: T)

  /** A computation that either yields a value or stops with a diagnostic
      (an `error` return, `log.Fatalf` or `os.Exit` in the program). */
  datatype Result<T> = Ok(value: T) | Err(error: string)
}
