/** Optional values, results with an error and raw bytes, shared by both components. */
module Wrappers {

  /** A value that may be absent: a Java `null` or a Python `None`. */
  datatype Option<+T> = None | Some(value: T)

  /** The outcome of a call that either returns a value or raises an error. */
  datatype Result<+T, +E> = Success(value: T) | Failure(error: E)

  /** A binary payload: a Java `SdkBytes` or a Python `bytes`. */
  type Bytes = seq<bv8>
}
