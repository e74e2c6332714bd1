/** A decoded JSON object as the services see it after json.loads: a map from
    key to value. Text, escaping and nesting are not modelled. */
module Json {
  import opened Wrappers

  datatype Value = JNull | JBool(b: bool) | JInt(i: int) | JStr(s: string)

  type Dict = map<string, Value>

  /** data[key]: the value, or the KeyError Python raises. */
  function Lookup(d: Dict, key: string): (r: Result<Value, PyError>)
    ensures r.Success? <==> key in d
    ensures r.Success? ==> r.value == d[key]
    ensures r.Failure? ==> r.error == KeyError(key)
  {
    if key in d then Success(d[key]) else Failure(KeyError(key))
  }

  /** A string value, or a TypeError for any other kind of value. */
  function AsString(v: Value, key: string): (r: Result<string, PyError>)
    ensures r.Success? <==> v.JStr?
    ensures r.Success? ==> r.value == v.s
  {
    if v.JStr? then Success(v.s) else Failure(TypeError(key))
  }

  /** An optional string: null stands for None. */
  function AsOptionalString(v: Value, key: string): (r: Result<Option<string>, PyError>)
    ensures r.Success? <==> (v.JStr? || v.JNull?)
    ensures r.Success? ==> r.value == (if v.JNull? then None else Some(v.s))
  {
    match v
    case JNull => Success(None)
    case JStr(s) => Success(Some(s))
    case _ => Failure(TypeError(key))
  }

  /** How None and a string are written. */
  function OptionalString(o: Option<string>): (v: Value)
    ensures AsOptionalString(v, "") == Success(o)
  {
    match o
    case None => JNull
    case Some(s) => JStr(s)
  }
}
