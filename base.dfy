/** Option and Result, the shapes used for Python's `None` and for exceptions that end a run. */
module Base {

  datatype Option<T> = None | Some(value: T)

  datatype Result<T, E> = Success(value: T) | Failure(error: E)

  /** `Flow.features`, the feature record of one flow: feature name to value. */
  type Features = map<string, int>
}
