/** Optional values and the outcome of an awaited external call. */
module Wrappers {

  /** A JavaScript value that may be `undefined`. */
  datatype Option<+T> = None | Some(value: T)

  /** The settled state of a promise: fulfilled with a value, or rejected.
      `detail` stands for the text `e?.message ?? e` that the hook prints. */
  datatype Outcome<+T> = Ok(value: T) | Err(detail: string)
}
