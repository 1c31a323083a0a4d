/** Error kinds and the result wrapper used by the shortener's operations. */
module Results {

  /** The failures the handlers of fast/main.go report to their callers. */
  datatype Error =
    | UnreadableRequest  // the shorten request body is not a JSON request
    | InvalidURL     // the submitted URL is not a request URI
    | ReservedWord   // the requested code is one of the reserved route names
    | NotFound       // no row holds the requested code

  datatype Result<T> = Ok(value: T) | Err(error: Error)

  datatype Option<T> = None | Some(value: T)
}
