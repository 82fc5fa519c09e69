/** Option and Result wrappers, and the column projection, shared by every module of the model. */
module Wrappers {
  /** A value that may be absent (PHP `null` / `false`). */
  datatype Option<T> = None | Some(value: T)

  /** The outcome of an operation that the source ends by throwing an exception. */
  datatype Result<T> = Ok(value: T) | Err(error: string)

  /** `array_column` and its loop-built equivalents: field `f` of every row, in order. */
  function Column<T, U>(rows: seq<T>, f: T -> U): (r: seq<U>)
    ensures |r| == |rows| && forall k :: 0 <= k < |rows| ==> r[k] == f(rows[k])
  {
    seq(|rows|, k requires 0 <= k < |rows| => f(rows[k]))
  }
}
