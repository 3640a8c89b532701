/** Failure-carrying wrappers shared by the modules of this model. */
module Common {

  /** A value that may be absent; stands for Python's `Optional[...]` and `None`. */
  datatype Option<+T> = None | Some(value: T)

  /** The outcome of an operation that raises on failure in the modelled program. */
  datatype Result<+T, +E> = Ok(value: T) | Err(error: E)

  /** Python's `int(x)` on a float: truncation toward zero. */
  function Trunc(x: real): (r: int)
    ensures x >= 0.0 ==> r as real <= x < r as real + 1.0
    ensures x < 0.0 ==> r as real - 1.0 < x <= r as real
  {
    if x >= 0.0 then x.Floor else -((-x).Floor)
  }
}
