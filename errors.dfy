/** Error, outcome and option types shared by the generator copies. */
module Errors {

  /** The library's error kinds (src/error.rs); payloads that carry
      operating-system values are dropped. */
  datatype CuidError =
    | CounterError
    | FingerprintError(reason: string)
    | IOError
    | TextError(reason: string)
    | TimestampError

  /** The result of an operation: a value, a returned error, or a panic
      (an `expect`, an out-of-range slice, a poisoned lazy value). */
  datatype Outcome<T> = Ok(value: T) | Err(error: CuidError) | Panic(message: string)

  /** Rust's `Option`. */
  datatype Option<T> = None | Some(value: T)
}
