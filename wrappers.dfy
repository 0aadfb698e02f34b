/** Optional values and results with an error, as the detector and the ratio arithmetic produce them. */
module Wrappers {

  datatype Option<+T> = None | Some(value: T)

  datatype Result<+R, +E> = Success(value: R) | Failure(error: E)
}
