/** Values shared by every module: optional values, results, and the JSON values
    that arrive in request bodies and leave in responses. */
module Values {

  datatype Option<+T> = None | Some(value: T)

  datatype Result<+T, +E> = Success(value: T) | Failure(error: E)

  /** A JSON value as Python sees it after decoding a request body.
      Floats, arrays and objects never reach a branch of their own in the
      service; only their truthiness matters, so they are kept as `JOther`.
      `JTime` is a `datetime`, which only `User.serialize` produces. */
  datatype Json =
    | JNull
    | JBool(b: bool)
    | JInt(i: int)
    | JStr(s: string)
    | JTime(seconds: int)
    | JOther(truthy: bool)

  /** Python truthiness (`if value:`). */
  predicate Truthy(j: Json) {
    match j
    case JNull => false
    case JBool(b) => b
    case JInt(i) => i != 0
    case JStr(s) => s != ""
    case JTime(_) => true
    case JOther(t) => t
  }

  /** `isinstance(value, str)`. */
  predicate IsPyStr(j: Json) {
    j.JStr?
  }

  /** `isinstance(value, int)`: `bool` is a subclass of `int` in Python. */
  predicate IsPyInt(j: Json) {
    j.JInt? || j.JBool?
  }

  /** `dict.get(key)`: a missing key reads as `None`. */
  function Get(body: map<string, Json>, key: string): Json {
    if key in body then body[key] else JNull
  }

  /** A query-string argument counts as given when it is present and not empty
      (Python truthiness of a `str`). */
  predicate Given(arg: Option<string>) {
    arg.Some? && arg.value != ""
  }
}
