/** Optional values and results shared by the peak finders and the smoother. */
module Types {

  /** A value that may be missing; `None` stands for the NaN "missing peak" marker. */
  datatype Option<T> = None | Some(value: T)

  /** A computation that either yields a value or fails the way the numeric runtime raises. */
  datatype Result<T, E> = Success(value: T) | Failure(error: E)
}
