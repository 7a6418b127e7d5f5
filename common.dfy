/** Optional values and results with an error, shared by every module. */
module Common {

  datatype Option<+T> = None | Some(value: T)

  datatype Result<+T, +E> = Success(value: T) | Failure(error: E)

  /** JavaScript's `x || 0` on an optional count: an absent value reads as 0. */
  function OrZero(x: Option<nat>): nat
  {
    match x
    case None => 0
    case Some(n) => n
  }
}
