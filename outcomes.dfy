/** Python's exceptions and optional returns, as values.
    Every operation of the engine that can raise returns a `Result`. */
module Outcomes {

  /** The exception classes the engine can raise.  `Unsupported` marks the inputs whose
      behaviour in the engine is not part of this model (see README, "Left out"). */
  datatype PyError =
    | ValueError
    | IndexError
    | TypeError
    | ZeroDivisionError
    | AttributeError
    | Unsupported

  datatype Option<+T> = None | Some(value: T)

  datatype Result<+T> = Ok(value: T) | Err(error: PyError)
}
