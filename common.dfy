/** Types shared by the server-side and client-side parts of the LocalAid model. */
module Common {

  /** A MongoDB ObjectId. The store hands out fresh ones; the client receives them as
      strings in canonical lower-case hex, and for such strings === is the same relation as
      `==` here. Other spellings of the same id are not modelled. */
  type ObjectId = nat

  /** Milliseconds since the epoch, as JavaScript's Date keeps them. */
  type Timestamp = int

  datatype Option<+T> = None | Some(value: T)

  datatype Result<+T, +E> = Ok(value: T) | Err(error: E)

  /** JavaScript truthiness of an optional string: present and not "". */
  predicate Truthy(s: Option<string>)
  {
    s.Some? && s.value != ""
  }

  /** What JavaScript's Number(...) yields for a request field: a finite number or NaN
      (a missing field gives NaN). */
  datatype JsNumber = Num(value: real) | NaN

  /** An HTTP status code as the handlers send it. */
  type Status = int

  const Ok200: Status := 200
  const Created201: Status := 201
  const BadRequest400: Status := 400
  const Unauthorized401: Status := 401
  const NotFound404: Status := 404
  const ServerError500: Status := 500
}
