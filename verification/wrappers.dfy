/** Optional values and results with an error, used at every boundary where
    the panel signals "nothing found" or a failure. */
module Wrappers {

  /** `None` stands for the empty string the panel uses for "no image". */
  datatype Option<+T> = None | Some(value: T)

  /** The outcome of an operation that raises in the panel on some inputs. */
  datatype Result<+R, +E> = Success(value: R) | Failure(error: E)
}
