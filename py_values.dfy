/** The Python values and exceptions that flow through the QR client:
    dictionary values, their truthiness, their `str()`, and the `in` test. */
module PyValues {
  import opened PyStrings

  datatype Option<+T> = None | Some(value: T)

  /** A Python call either returns a value or raises one of the exceptions below. */
  datatype Result<+T> = Ok(value: T) | Err(error: Error)

  /** The values the client stores in its parameter and settings dictionaries. */
  datatype Value =
    | PyNone
    | PyBool(b: bool)
    | PyInt(i: int)
    | PyStr(s: string)
    | PyList(items: seq<Value>)

  /** Every exception the client raises, by its Python name. The five custom
      ones are the classes of qr_code_generator/errors.py. */
  datatype Error =
    | KeyError
    | ValueError(message: string)
    | TypeError
    | AttributeError
    | IndexError
    | FileNotFoundError
    | FileExistsError
    | MissingRequiredParameterError(parameter: string)
    | InvalidCredentialsError
    | UnprocessableRequestError(message: string)
    | MonthlyRequestLimitExceededError
    | UnknownApiError(message: string)

  /** Python truthiness (`if value:`). */
  predicate Truthy(v: Value) {
    match v
    case PyNone => false
    case PyBool(b) => b
    case PyInt(i) => i != 0
    case PyStr(s) => s != ""
    case PyList(items) => items != []
  }

  /** `repr(v)`; quotes inside strings are not escaped. */
  function Repr(v: Value): string
    decreases v
  {
    match v
    case PyNone => "None"
    case PyBool(b) => if b then "True" else "False"
    case PyInt(i) => IntToDecimal(i)
    case PyStr(s) => "'" + s + "'"
    case PyList(items) => "[" + Join(", ", seq(|items|, k requires 0 <= k < |items| => Repr(items[k]))) + "]"
  }

  /** `str(v)`: a string is itself, everything else is its repr. */
  function ToStr(v: Value): string {
    match v
    case PyStr(s) => s
    case _ => Repr(v)
  }

  /** Python's `key in container` for a string key: membership in a list,
      substring in a string, TypeError for anything that is not iterable. */
  function Contains(container: Value, key: string): Result<bool> {
    match container
    case PyList(items) => Ok(PyStr(key) in items)
    case PyStr(s) => Ok(IsSubstring(key, s))
    case _ => Err(TypeError)
  }
}
