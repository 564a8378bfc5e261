/** JSON values as the server and the details page receive them from the OSDR API, with the
    JavaScript semantics the source applies to them: truthiness and `||`, property access
    (which throws on `null` and `undefined`), optional chaining, `typeof` and
    `Object.entries`. `undefined` is the absent case of `Option<Json>`. */
module JsonValues {
  import opened Wrappers
  import opened JsStrings

  /** A parsed JSON value. Numbers are integers; an object keeps its entries in key order. */
  datatype Json =
    | Null
    | Bool(b: bool)
    | Num(n: int)
    | Str(s: string)
    | Arr(items: seq<Json>)
    | Obj(entries: seq<(string, Json)>)

  /** An exception the modelled code can throw. */
  datatype JsError =
    | ReadOfNullish(key: string, onNull: bool)   // TypeError: reading `key` of null / undefined
    | InvalidTimeValue                            // RangeError from Date.prototype.toISOString
    | Thrown(message: string)                     // an Error the code throws itself

  /** The `message` of the error, as the V8 engine words it. */
  function Message(e: JsError): string {
    match e
    case ReadOfNullish(key, onNull) =>
      "Cannot read properties of " + (if onNull then "null" else "undefined") + " (reading '" + key + "')"
    case InvalidTimeValue => "Invalid time value"
    case Thrown(m) => m
  }

  /** JavaScript truthiness of a defined value. */
  predicate Truthy(v: Json) {
    match v
    case Null => false
    case Bool(b) => b
    case Num(n) => n != 0
    case Str(s) => s != ""
    case Arr(_) => true
    case Obj(_) => true
  }

  /** Truthiness of a possibly undefined value. */
  predicate Present(v: Option<Json>) {
    v.Some? && Truthy(v.value)
  }

  /** `a || b`: `a` when it is truthy, otherwise `b`. */
  function Or(a: Option<Json>, b: Option<Json>): (r: Option<Json>)
    ensures Present(r) <==> Present(a) || Present(b)
    ensures Present(a) ==> r == a
  {
    if Present(a) then a else b
  }

  /** `typeof v === "object"`, which holds for null, arrays and objects. */
  predicate IsObjectType(v: Json) {
    v.Null? || v.Arr? || v.Obj?
  }

  /** `Object.entries(v)`: an object's entries, an array's or a string's elements keyed by
      their index, and nothing for numbers and booleans. */
  function Entries(v: Json): (r: seq<(string, Json)>)
    ensures v.Obj? ==> r == v.entries
    ensures v.Arr? ==> |r| == |v.items|
    ensures v.Str? ==> |r| == |v.s|
    ensures v.Null? || v.Bool? || v.Num? ==> r == []
  {
    match v
    case Obj(es) => es
    case Arr(items) => seq(|items|, i requires 0 <= i < |items| => (NatToString(i), items[i]))
    case Str(s) => seq(|s|, i requires 0 <= i < |s| => (NatToString(i), Str([s[i]])))
    case _ => []
  }

  /** The value stored under `key` among `entries`; the first entry wins. */
  function Lookup(entries: seq<(string, Json)>, key: string): (r: Option<Json>)
    ensures r.Some? <==> exists k :: 0 <= k < |entries| && entries[k].0 == key
    ensures r.Some? ==> exists k :: 0 <= k < |entries| && entries[k] == (key, r.value)
    decreases |entries|
  {
    if |entries| == 0 then None
    else if entries[0].0 == key then Some(entries[0].1)
    else
      var r := Lookup(entries[1..], key);
      assert forall k :: 1 <= k < |entries| ==> entries[k] == entries[1..][k - 1];
      r
  }

  /** `v[key]` on a defined value: a TypeError on null, undefined (`None`) when the key is absent. */
  function Get(v: Json, key: string): (r: Result<Option<Json>, JsError>)
    ensures r.Failure? <==> v.Null?
  {
    if v.Null? then Failure(ReadOfNullish(key, true)) else Success(Lookup(Entries(v), key))
  }

  /** `v[key]` on a possibly undefined value. */
  function Read(v: Option<Json>, key: string): (r: Result<Option<Json>, JsError>)
    ensures r.Failure? <==> v.None? || v == Some(Null)
  {
    match v
    case None => Failure(ReadOfNullish(key, false))
    case Some(x) => Get(x, key)
  }

  /** `v?.[key]`: undefined instead of a TypeError when `v` is null or undefined. */
  function ReadOptional(v: Option<Json>, key: string): (r: Option<Json>)
    ensures Read(v, key).Success? ==> r == Read(v, key).value
    ensures Read(v, key).Failure? ==> r.None?
  {
    match Read(v, key)
    case Success(x) => x
    case Failure(_) => None
  }
}
