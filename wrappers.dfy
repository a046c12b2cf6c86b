/** Optional values and results that carry the source's raised exceptions as values. */
module Wrappers {

  datatype Option<+T> = None | Some(value: T)

  datatype Result<+T, +E> = Ok(value: T) | Err(error: E)

  /** A byte as Python's `bytes` holds it. */
  type byte = x: int | 0 <= x < 0x100

  /** An opaque Python callable registered by a client; only its identity matters here. */
  datatype Callback = Callback(id: nat)
}
