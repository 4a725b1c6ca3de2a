/** Shared vocabulary of the TripBoard model: optional values, the HTTP
    failure kinds the route handlers answer with, and the shape of a
    request field that carries a date. */
module Common {

  datatype Option<+T> = None | Some(value: T)

  /** Document identifiers (Mongo ObjectIds compared as strings). */
  type TripId = string
  type UserId = string
  type PinId = string

  /** The error statuses the handlers send. `ServerError` stands for every
      exception caught by a handler's `catch` block (cast and validation
      errors of the store, failed calls to foreign services). */
  datatype Failure = BadRequest | Forbidden | NotFound | ServerError

  function Code(f: Failure): (code: int)
    ensures 400 <= code < 600
    ensures code == 500 <==> f.ServerError?
  {
    match f
    case BadRequest => 400
    case Forbidden => 403
    case NotFound => 404
    case ServerError => 500
  }

  datatype Outcome<+T> = Ok(value: T) | Fail(failure: Failure)

  /** A handler's answer together with the state of the store afterwards. */
  datatype Step<+S, +T> = Step(result: Outcome<T>, state: S)

  /** A string request field as JavaScript sees it: `None` is `undefined`
      or `null`. */
  predicate Truthy(s: Option<string>) {
    s.Some? && s.value != ""
  }

  /** A date request field: absent (`undefined`), present but falsy (`null`
      or `""`), present but not a date (`new Date(x)` is Invalid Date), or a
      valid instant in milliseconds since the epoch. */
  datatype DateArg = Omitted | Blank | Unparseable | At(t: int)

  /** JavaScript truthiness of a date field: an unparseable string is
      still a non-empty string. */
  predicate DateGiven(d: DateArg) {
    d.Unparseable? || d.At?
  }
}
