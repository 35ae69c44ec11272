/**
 * Decoded JSON values, and the few Python operations the pipeline applies
 * to them: truthiness, `len()`, `dict.get` with a default, `int()`,
 * and iterating a value whose elements are then used as dicts.
 */
module Json {
  import opened Wrappers
  import opened PyStr

  /** A value produced by `json.loads` (floating-point numbers are not modelled). */
  datatype Json =
    | JNull
    | JBool(b: bool)
    | JNumber(n: int)
    | JString(s: string)
    | JArray(items: seq<Json>)
    | JObject(fields: map<string, Json>)

  /** The exceptions the pipeline can let escape. */
  datatype PyError = JSONDecodeError | AttributeError | TypeError | ValueError

  /** Python truthiness: None, False, 0 and empty containers are false. */
  predicate Truthy(v: Json)
    ensures !Truthy(v) <==> v in {JNull, JBool(false), JNumber(0), JString(""), JArray([]), JObject(map[])}
  {
    match v
    case JNull => false
    case JBool(b) => b
    case JNumber(n) => n != 0
    case JString(s) => |s| > 0
    case JArray(items) => |items| > 0
    case JObject(fields) => |fields| > 0
  }

  /** `len(v)` is defined (strings, lists and dicts). */
  predicate HasLen(v: Json)
    ensures HasLen(v) <==> !(v.JNull? || v.JBool? || v.JNumber?)
    ensures HasLen(v) ==> (Truthy(v) <==> v !in {JString(""), JArray([]), JObject(map[])})
  {
    v.JString? || v.JArray? || v.JObject?
  }

  /** `d.get(key, default)`. */
  function Get(d: map<string, Json>, key: string, default: Json): (r: Json)
    ensures key in d ==> r == d[key]
    ensures key !in d ==> r == default
  {
    if key in d then d[key] else default
  }

  /** `int(v)` succeeds: an integer literal string, an int, or a bool. */
  predicate IntConvertible(v: Json)
  {
    (v.JString? && StrToInt(v.s).Some?) || v.JNumber? || v.JBool?
  }

  /** `int(v)`; `int(True) == 1` and `int(False) == 0`. */
  function IntOf(v: Json): (n: int)
    requires IntConvertible(v)
    ensures v.JString? ==> StrToInt(v.s) == Some(n)
    ensures v.JString? && |v.s| > 0 && IsDigitString(v.s) ==> n == DigitsValue(v.s)
    ensures v.JBool? ==> n == (if v.b then 1 else 0)
  {
    match v
    case JString(s) => StrToInt(s).value
    case JNumber(n) => n
    case JBool(b) => if b then 1 else 0
  }

  /** `v == n` in Python for an int literal n (True == 1, False == 0, "1" != 1). */
  predicate EqualsInt(v: Json, n: int)
    ensures EqualsInt(v, n) ==> IntConvertible(v) && !v.JString? && IntOf(v) == n
    ensures v.JNumber? || v.JBool? ==> (EqualsInt(v, n) <==> IntOf(v) == n)
  {
    match v
    case JNumber(m) => m == n
    case JBool(b) => (if b then 1 else 0) == n
    case _ => false
  }

  /** The dicts of a list, or None at the first element that is not a dict. */
  function ObjectsOf(items: seq<Json>): (r: Option<seq<map<string, Json>>>)
    ensures r.Some? <==> forall i :: 0 <= i < |items| ==> items[i].JObject?
    ensures r.Some? ==> |r.value| == |items| && forall i :: 0 <= i < |items| ==> r.value[i] == items[i].fields
  {
    if items == [] then Some([])
    else if !items[0].JObject? then None
    else match ObjectsOf(items[1..])
      case None => None
      case Some(rest) => Some([items[0].fields] + rest)
  }

  /**
   * `for x in v: x.get(...)`: the elements of v when every one is a dict.
   * Iterating a non-empty string yields strings and a non-empty dict yields
   * its keys, neither of which has `.get`; null, numbers and bools are not
   * iterable at all.
   */
  function DictElements(v: Json): (r: Result<seq<map<string, Json>>, PyError>)
    ensures r.Ok? <==> (v.JArray? && forall i :: 0 <= i < |v.items| ==> v.items[i].JObject?) || v == JString([]) || v == JObject(map[])
    ensures r.Err? ==> (r.error == TypeError <==> !HasLen(v))
    ensures r.Ok? && v.JArray? ==> |r.value| == |v.items| && forall i :: 0 <= i < |v.items| ==> r.value[i] == v.items[i].fields
    ensures r.Ok? && !v.JArray? ==> r.value == []
  {
    match v
    case JArray(items) => (match ObjectsOf(items) case Some(ds) => Ok(ds) case None => Err(AttributeError))
    case JString(s) => if s == [] then Ok([]) else Err(AttributeError)
    case JObject(fields) => if |fields| == 0 then Ok([]) else Err(AttributeError)
    case _ => Err(TypeError)
  }
}
