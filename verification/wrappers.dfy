/** Option and Result values shared by the modules of the model. */
module Wrappers {

  /** `None` stands for JavaScript's `undefined` (or `null`) where the source
      uses one of them for "no value". */
  datatype Option<+T> = None | Some(value: T)

  /** A computation that either yields a value or throws `error`. */
  datatype Result<+T, +E> = Success(value: T) | Failure(error: E)
}
