/** The values the dispatcher moves between the request, the handler and the
    response. The Go program carries them as `reflect.Value`s; here they are
    plain data, and the dispatcher never looks inside a `Value`. */
module Protocol {

  datatype Option<+T> = None | Some(value: T)

  datatype Result<+T, +E> = Ok(value: T) | Fail(error: E)

  /** HTTP status codes the dispatcher writes on its own account. */
  const StatusBadRequest: int := 400
  const StatusInternalServerError: int := 500

  /** Any Go value passed along unexamined: a decoded body, a populated
      parameter, a handler result. */
  type Value = string

  /** A non-nil Go `error`. One that also implements `HTTPError` carries its
      own `ResponseCode()`; any other error is plain. Both have an `Error()`
      text, reachable as `text`. */
  datatype Error = StatusError(code: int, text: string) | PlainError(text: string)

  /** What the handler receives for one parameter: the populated value
      itself, or a pointer to a freshly allocated value holding it. */
  datatype Arg = Val(v: Value) | Ptr(target: Value)

  /** One result of the handler call: an `error` (nil or not), or any other
      value. */
  datatype Output = NilError | ErrorOut(err: Error) | Data(v: Value)
}
