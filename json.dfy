/** JSON values as the request handlers see them once the HTTP layer has parsed a body. */
module Json {

  datatype Option<+T> = None | Some(value: T)

  /** A JSON value. Numbers with a fraction or exponent are kept as an exact decimal
      mantissa * 10^exponent; no arithmetic is done on them. Nested objects are not modelled. */
  datatype Value =
    | Null
    | Bool(b: bool)
    | Int(i: int)
    | Real(mantissa: int, exponent: int)
    | Str(s: string)
    | Arr(items: seq<Value>)

  /** A JSON object: field name to value. */
  type Attrs = map<string, Value>

  /** `d.get(key, None)` */
  function Field(d: Attrs, key: string): (v: Value)
    ensures key !in d ==> v == Null
    ensures key in d ==> v == d[key]
  {
    if key in d then d[key] else Null
  }

  /** Python truthiness of a parsed JSON value. */
  predicate Truthy(v: Value) {
    match v
    case Null => false
    case Bool(b) => b
    case Int(i) => i != 0
    case Real(m, _) => m != 0
    case Str(s) => s != ""
    case Arr(xs) => xs != []
  }

  /** What `for x in v` yields: the items of a list, the one-character strings of a
      string; None where Python raises TypeError (null, booleans, numbers). */
  function Elements(v: Value): (r: Option<seq<Value>>)
    ensures r.Some? <==> v.Arr? || v.Str?
    ensures v.Arr? ==> r == Some(v.items)
    ensures v.Str? ==> r.Some? && |r.value| == |v.s|
    ensures v.Str? ==> forall i :: 0 <= i < |v.s| ==> r.value[i] == Str([v.s[i]])
  {
    match v
    case Arr(xs) => Some(xs)
    case Str(s) => Some(seq(|s|, i requires 0 <= i < |s| => Str([s[i]])))
    case _ => None
  }

  /** The body of a request after `request.get_json(force=True, silent=True)`:
      None when it did not parse. */
  type Body = Option<Attrs>

  /** `not data_body`: no JSON at all, or the empty object. */
  predicate NotJson(body: Body) {
    body.None? || body.value == map[]
  }

  /** The fields of `body` that are named in `allowed`. */
  function Permitted(body: Attrs, allowed: set<string>): (r: Attrs)
    ensures forall k :: k in r <==> k in body && k in allowed
    ensures forall k :: k in r ==> r[k] == body[k]
  {
    map k | k in body && k in allowed :: body[k]
  }
}
