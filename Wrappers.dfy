/** Optional values and results with a failure value, used for dictionary
    lookups and for exceptions that the scraper does not catch. */
module Wrappers {

  datatype Option<+T> = None | Some(value: T)

  datatype Result<+R, +E> = Success(value: R) | Failure(error: E)
}
