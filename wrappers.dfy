/** Small value wrappers shared by every module of the model. */
module Wrappers {

  /** An optional value: the source's `None` or a present value. */
  datatype Option<+T> = None | Some(value: T)

  /** The outcome of an operation that the source may abort by raising an exception. */
  datatype Result<+T, +E> = Ok(value: T) | Err(error: E)

  function Abs(n: int): nat
  {
    if n < 0 then -n else n
  }

  function Min(a: int, b: int): int
  {
    if a <= b then a else b
  }
}
