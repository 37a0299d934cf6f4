/** Values produced by `JSON.parse`, and the JavaScript property reads the
    dashboard performs on them. A JSON number is modelled as a finite `real`;
    the `Infinity` that `JSON.parse` gives for an out-of-range literal such as
    `1e400` is not represented. */
module JsonValue {
  import opened Wrappers

  datatype Json =
    | JNull
    | JBool(b: bool)
    | JNum(n: real)
    | JStr(s: string)
    | JArr(elems: seq<Json>)
    | JObj(fields: map<string, Json>)

  /** A fetched HTTP response: its `ok` flag and what `res.json()` yields,
      `None` when the body is not JSON and `res.json()` rejects. */
  datatype HttpResponse = HttpResponse(ok: bool, body: Option<Json>)

  /** `v.key` on a value that is not null; `None` is `undefined`. The keys read
      in this model are never `length` or an index, so only objects have them. */
  function Get(v: Json, key: string): (r: Option<Json>)
    ensures r.Some? ==> v.JObj? && key in v.fields && r.value == v.fields[key]
  {
    match v
    case JObj(fields) => if key in fields then Some(fields[key]) else None
    case _ => None
  }

  /** Optional chaining `v?.key`: `undefined` or `null` short-circuits to `undefined`. */
  function OptGet(v: Option<Json>, key: string): Option<Json> {
    if v.None? || v.value.JNull? then None else Get(v.value, key)
  }

  /** Optional chaining `v?.[0]`: an array's first element, an object's `"0"`
      property, or a string's first character. */
  function OptFirst(v: Option<Json>): (r: Option<Json>)
    ensures r.Some? && r.value.JNum? ==> v.Some? && (v.value.JArr? || v.value.JObj?)
  {
    if v.None? then None
    else match v.value
      case JArr(elems) => if elems != [] then Some(elems[0]) else None
      case JObj(fields) => if "0" in fields then Some(fields["0"]) else None
      case JStr(s) => if s != [] then Some(JStr([s[0]])) else None
      case _ => None
  }

  /** JavaScript truthiness of a value that may be `undefined`. */
  predicate Truthy(v: Option<Json>) {
    v.Some? &&
    match v.value
    case JNull => false
    case JBool(b) => b
    case JNum(n) => n != 0.0
    case JStr(s) => s != []
    case _ => true
  }

  /** The number under `v`, when `typeof v === 'number'`. */
  function AsNumber(v: Option<Json>): (r: Option<real>)
    ensures r.Some? <==> v.Some? && v.value.JNum?
  {
    if v.Some? && v.value.JNum? then Some(v.value.n) else None
  }

  /** The string under `v`, when `typeof v === 'string'`. */
  function AsString(v: Option<Json>): (r: Option<string>)
    ensures r.Some? <==> v.Some? && v.value.JStr?
  {
    if v.Some? && v.value.JStr? then Some(v.value.s) else None
  }
}
