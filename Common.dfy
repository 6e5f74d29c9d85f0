/** Small value types shared by the pipeline's modules. */
module Common {

  /** A value that may be absent: stands for Python's None and for values
      pandas would leave undefined (NaN, a division by zero). */
  datatype Option<+T> = None | Some(value: T)

  /** Python's max(x, y) on two reals. */
  function Max(x: real, y: real): (m: real)
    ensures m >= x && m >= y
    ensures m == x || m == y
  {
    if x >= y then x else y
  }
}
