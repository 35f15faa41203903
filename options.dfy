/** Optional values and results with an error, used for the fields of an
 *  update message that may be absent and for requests that can be rejected. */
module Options {

  datatype Option<+T> = None | Some(value: T)

  datatype Result<+R, +E> = Success(value: R) | Failure(error: E)
}
