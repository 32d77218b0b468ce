/** Optional values and success-or-failure results, used where the source
    either returns nothing (Python's None) or raises. */
module Results {

  datatype Option<+T> = None | Some(value: T)

  datatype Result<+T, +E> = Success(value: T) | Failure(error: E)
}
