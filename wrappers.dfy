/** Optional values and results with an error, used wherever the source returns
    None or raises. */
module Wrappers {

  datatype Option<+T> = None | Some(value: T)

  datatype Result<+T, +E> = Success(value: T) | Failure(error: E)
}

/** The HTTP error statuses the routers raise. */
module Http {

  datatype HttpError =
    | NotFound      // 404
    | NotActive     // 400
    | ServerError   // 500
}
