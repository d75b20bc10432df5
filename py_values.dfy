/** The Python values the migration script passes around, and their truthiness. */
module PyValues {
  import opened Wrappers

  /**
   * A Python value as `json.loads` builds it (None, bool, int, float, str,
   * list, dict), plus `bytes` for a binary secret payload.
   */
  datatype PyValue =
    | PyNone
    | PyBool(b: bool)
    | PyInt(i: int)
    | PyFloat(f: real)
    | PyStr(s: string)
    | PyBytes(bytes: Bytes)
    | PyList(items: seq<PyValue>)
    | PyDict(entries: map<string, PyValue>)

  /** Python's `bool(v)`: false for None, False, zero, and empty strings, bytes and containers. */
  predicate Truthy(v: PyValue)
  {
    match v
    case PyNone => false
    case PyBool(b) => b
    case PyInt(i) => i != 0
    case PyFloat(f) => f != 0.0
    case PyStr(s) => s != ""
    case PyBytes(bytes) => bytes != []
    case PyList(items) => items != []
    case PyDict(entries) => entries != map[]
  }
}
