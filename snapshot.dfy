/** The dictionaries that `to_dict` produces and `from_dict` consumes: string
    keys mapped to the Python values a task field can hold. */
module Snapshot {
  import opened Wrappers
  import opened Errors

  datatype Value = IntV(i: int) | StrV(s: string) | BoolV(b: bool) | NoneV

  type Dict = map<string, Value>

  /** `data[key]`, raising KeyError for a missing key. */
  function Get(data: Dict, key: string): (r: Result<Value, Error>)
    ensures r.Success? <==> key in data
    ensures r.Success? ==> r.value == data[key]
    ensures r.Failure? ==> r.error == MissingKey(key)
  {
    if key in data then Success(data[key]) else Failure(MissingKey(key))
  }

  /** `data.get(key, default)`, which never raises. */
  function GetOr(data: Dict, key: string, default: Value): (r: Value)
    ensures key in data ==> r == data[key]
    ensures key !in data ==> r == default
  {
    if key in data then data[key] else default
  }

  function AsInt(key: string, v: Value): (r: Result<int, Error>)
    ensures r.Success? <==> v.IntV?
    ensures r.Success? ==> v == IntV(r.value)
  {
    if v.IntV? then Success(v.i) else Failure(WrongType(key))
  }

  function AsStr(key: string, v: Value): (r: Result<string, Error>)
    ensures r.Success? <==> v.StrV?
    ensures r.Success? ==> v == StrV(r.value)
  {
    if v.StrV? then Success(v.s) else Failure(WrongType(key))
  }

  function AsBool(key: string, v: Value): (r: Result<bool, Error>)
    ensures r.Success? <==> v.BoolV?
    ensures r.Success? ==> v == BoolV(r.value)
  {
    if v.BoolV? then Success(v.b) else Failure(WrongType(key))
  }

  /** An `Optional[str]` field: None or a string. */
  function AsOptStr(key: string, v: Value): (r: Result<Option<string>, Error>)
    ensures r.Success? <==> v.NoneV? || v.StrV?
    ensures r == Success(None) <==> v.NoneV?
    ensures forall s :: r == Success(Some(s)) <==> v == StrV(s)
  {
    match v
    case NoneV => Success(None)
    case StrV(s) => Success(Some(s))
    case _ => Failure(WrongType(key))
  }

  /** The snapshot of an `Optional[str]` field. */
  function OptStr(o: Option<string>): (r: Value)
    ensures AsOptStr("", r) == Success(o)
  {
    match o
    case None => NoneV
    case Some(s) => StrV(s)
  }
}
