/** Option and Result, the failure-compatible types every decoder returns, and the
    octet type of the input buffer. */
module Wrappers {

  /** One octet of the DER input. */
  type byte = b: int | 0 <= b < 256

  datatype Option<+T> = None | Some(value: T)

  /** `Ok` carries a decoded value, `Err` the reason decoding stopped. */
  datatype Result<+T, +E> = Ok(value: T) | Err(error: E) {
    predicate IsFailure() {
      Err?
    }

    function PropagateFailure<U>(): Result<U, E>
      requires Err?
    {
      Err(error)
    }

    function Extract(): T
      requires Ok?
    {
      value
    }
  }
}
