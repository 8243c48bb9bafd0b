/** Small value types shared by the whole model. */
module Common {

  /** A value that may be missing (Python's `None`). */
  datatype Option<T> = None | Some(value: T)

  /** The outcome of a check that either passes with a value or fails with a reason. */
  datatype Result<T, E> = Ok(value: T) | Err(error: E)

  function Min(a: int, b: int): (m: int)
    ensures m <= a && m <= b && (m == a || m == b)
  {
    if a <= b then a else b
  }

  function Max(a: int, b: int): (m: int)
    ensures m >= a && m >= b && (m == a || m == b)
  {
    if a >= b then a else b
  }
}
