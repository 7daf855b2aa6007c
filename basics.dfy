/** Small value types shared by the payout engine model. */
module Basics {

  /** A value that may be absent: a missing key, a `None`, or a pandas NaN in the source. */
  datatype Option<T> = None | Some(value: T)

  /** The outcome of an operation that may raise an exception in the source. */
  datatype Result<T, E> = Success(value: T) | Failure(error: E)

  /** Python's `max(a, b)` on integers. */
  function Max(a: int, b: int): int
  {
    if b > a then b else a
  }

  /** Python's `min(a, b)` on reals. */
  function MinReal(a: real, b: real): real
  {
    if b < a then b else a
  }

  /** Python's `max(a, b)` on reals. */
  function MaxReal(a: real, b: real): real
  {
    if b > a then b else a
  }

  /** `x` lies on the closed interval between `a` and `b`, whichever is smaller. */
  predicate Between(x: real, a: real, b: real)
  {
    (a <= x <= b) || (b <= x <= a)
  }
}
