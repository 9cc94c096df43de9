/** Small result types shared by the model. */
module Wrappers {

  /** A value that may be absent; also used for an IEEE NaN where one can arise. */
  datatype Option<+T> = None | Some(value: T)

  /** The outcome of an operation that may panic (Rust `panic!`, a failed slice bound). */
  datatype Fallible<+T> = Returns(value: T) | Panics
}
