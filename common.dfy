/** Values shared by every part of the model: optional values, HTTP-style
    results, and the scalar values that JSON bodies and patches carry. */
module Common {

  datatype Option<+T> = None | Some(value: T)

  /** An `HTTPException(status_code, detail)` raised by a handler or a dependency. */
  datatype HttpError = HttpError(status: int, detail: string)

  /** A handler either returns a value or raises an `HttpError`. */
  datatype Result<+T> = Ok(value: T) | Err(error: HttpError)

  const BadRequest := 400
  const Unauthorized := 401
  const Forbidden := 403
  const NotFound := 404

  /** What an unhandled exception in a handler (a missing key, a failed commit) becomes. */
  const InternalError := 500

  /** FastAPI's answer to an exception the handler does not catch. */
  const UnhandledError := HttpError(InternalError, "Internal Server Error")

  /** The 500 a failed `db.commit()` gives: a NOT NULL, primary-key or unique
      constraint rejected the row. */
  const CommitError := UnhandledError

  /** A scalar JSON value as it appears in a request body, a patch or a cache entry. */
  datatype Value = Null | Flag(b: bool) | Num(n: int) | Text(s: string)

  /** Python truthiness of a scalar value. */
  predicate Truthy(v: Value)
  {
    match v
    case Null => false
    case Flag(b) => b
    case Num(n) => n != 0
    case Text(s) => s != ""
  }

  /** `d.get(key)`: the value stored under `key`, or `None` (JSON null) when absent. */
  function Lookup(d: map<string, Value>, key: string): (v: Value)
    ensures key !in d ==> v == Null
    ensures key in d ==> v == d[key]
  {
    if key in d then d[key] else Null
  }

  /** An optional string as the JSON value that stores it. */
  function OptText(o: Option<string>): (v: Value)
    ensures v.Null? <==> o.None?
  {
    match o
    case None => Null
    case Some(s) => Text(s)
  }

  /** The value the last item of a patch gives `key`, or `None` when the
      patch does not name it: what `for k, v in data.items(): setattr(row, k, v)`
      leaves in that attribute. */
  function FinalValue(data: seq<(string, Value)>, key: string): (r: Option<Value>)
    ensures r.Some? ==> (key, r.value) in data
    ensures r.None? <==> forall i :: 0 <= i < |data| ==> data[i].0 != key
  {
    if data == [] then None
    else if data[|data| - 1].0 == key then Some(data[|data| - 1].1)
    else FinalValue(data[..|data| - 1], key)
  }

  /** Some item of the patch names one of `keys`. */
  predicate NamesAny(data: seq<(string, Value)>, keys: set<string>)
  {
    exists i :: 0 <= i < |data| && data[i].0 in keys
  }

  /** The patch leaves NULL in one of the given NOT NULL columns. */
  predicate WritesNull(data: seq<(string, Value)>, notNull: set<string>)
  {
    exists k :: k in notNull && FinalValue(data, k) == Some(Null)
  }
}
