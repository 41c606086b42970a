/** Optional values and results with an error, used for the source's null
    object reference and its thrown exception. */
module Options {

  datatype Option<T> = None | Some(value: T)

  datatype Result<T, E> = Success(value: T) | Failure(error: E)
}
