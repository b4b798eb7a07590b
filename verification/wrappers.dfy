/** Options, and results that carry the error codes of the program. */
module Wrappers {
  datatype Option<+T> = None | Some(value: T)

  /** The `RemotishError` codes that decide a branch somewhere in the modelled code. */
  datatype Code = NotFound | InvalidRequest | Unsupported | Offline | RateLimited | Cancelled

  datatype Result<+T> = Ok(value: T) | Err(code: Code) {
    predicate IsFailure() {
      Err?
    }

    function PropagateFailure<U>(): Result<U>
      requires Err?
    {
      Err(code)
    }

    function Extract(): T
      requires Ok?
    {
      value
    }
  }
}
