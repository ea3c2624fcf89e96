/** Order intents as the backtest daemon receives them: whatever `json.loads` produced. */
module OrderMessage {
  import opened Wrappers

  /** A value `json.loads` can return. */
  datatype Json =
    | JNull
    | JBool(b: bool)
    | JNum(n: real)
    | JStr(s: string)
    | JArray(items: seq<Json>)
    | JObject(fields: map<string, Json>)

  /** A Python dictionary key up to Python equality: None, a number or a string. */
  datatype Key = KNull | KNum(n: real) | KStr(s: string)

  /** The key under which a value is stored in a dict; `True` and `False` are the numbers 1 and
      0 there. None when the value is a list or a dict, which Python refuses as keys. */
  function HashKey(v: Json): (k: Option<Key>)
    ensures k.None? <==> v.JArray? || v.JObject?
  {
    match v
    case JNull => Some(KNull)
    case JBool(b) => Some(KNum(if b then 1.0 else 0.0))
    case JNum(n) => Some(KNum(n))
    case JStr(s) => Some(KStr(s))
    case _ => None
  }

  /** The value as an arithmetic operand: a number, or a bool as 0 or 1. None where Python's
      `/` raises TypeError. */
  function AsNumber(v: Json): (r: Option<real>)
    ensures r.Some? <==> v.JNum? || v.JBool?
  {
    match v
    case JNum(n) => Some(n)
    case JBool(b) => Some(if b then 1.0 else 0.0)
    case _ => None
  }
}
