/** Outcomes of operations that may raise. */
module Results {
  datatype Option<+T> = None | Some(value: T)

  datatype Result<+T, +E> = Success(value: T) | Failure(error: E)

  /** One more on an error count when a check failed. */
  function Count(failed: bool): nat {
    if failed then 1 else 0
  }
}
