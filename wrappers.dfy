/** Small failure-carrying datatypes shared by the other modules. */
module Wrappers {

  /** A value that may be absent: JavaScript's `null`/`undefined`. */
  datatype Option<T> = None | Some(value: T)

  /** The outcome of a call that may throw (`JSON.parse` throws a SyntaxError). */
  datatype Parsed<T> = Value(value: T) | SyntaxError
}
