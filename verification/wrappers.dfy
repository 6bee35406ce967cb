/** Failure-carrying wrappers used across the model: `Option` stands for a
    JavaScript value that may be `undefined`, `Result` for an operation that
    may throw. */
module Wrappers {

  datatype Option<+T> = None | Some(value: T)

  /** The exceptions the modelled code can raise. */
  datatype Error =
    | RangeError        // `Array(len)` with a fractional or negative length
    | TypeError         // assignment to a `const` binding, or calling
                        // `this._encode[undefined]`, which is not a function
    | SerializationError // `JSON.stringify` refused the value

  datatype Result<+T> = Success(value: T) | Failure(error: Error)
}
