/** The Python values the cleaners and the risk flagger receive from parsed
    JSON, with the truthiness and hashability rules they rely on. */
module Python {
  /** A value as parsed from JSON. Dictionaries are keyed by strings; their
      key order is not represented. Numbers are idealised as integers and
      reals. */
  datatype PyValue =
    | PyNone
    | PyBool(b: bool)
    | PyInt(i: int)
    | PyFloat(x: real)
    | PyStr(s: string)
    | PyList(items: seq<PyValue>)
    | PyDict(entries: map<string, PyValue>)

  /** The exceptions the modelled code can raise. */
  datatype PyError = TypeError | AttributeError

  /** Python's truth test: `None`, `False`, zero and empty containers are
      false, everything else is true. */
  predicate Truthy(v: PyValue)
  {
    match v
    case PyNone => false
    case PyBool(b) => b
    case PyInt(i) => i != 0
    case PyFloat(x) => x != 0.0
    case PyStr(s) => |s| > 0
    case PyList(items) => |items| > 0
    case PyDict(entries) => |entries| > 0
  }

  /** Lists and dictionaries cannot be put in a set or looked up in one. */
  predicate Hashable(v: PyValue)
  {
    !v.PyList? && !v.PyDict?
  }

  /** `d.get(key)`: the value, or `None` when the key is absent. */
  function Get(d: map<string, PyValue>, key: string): (v: PyValue)
    ensures key !in d ==> v == PyNone
  {
    if key in d then d[key] else PyNone
  }
}
