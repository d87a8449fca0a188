/** Decoded JSON values (RFC 8259) and the JavaScript operations the client
    applies to them: truthiness, property reads and `.length`. */
module Json {

  import opened Wrappers
  import opened Text

  datatype JsonValue =
    | JNull
    | JBool(b: bool)
    | JNumber(n: real)
    | JString(s: string)
    | JArray(items: seq<JsonValue>)
    | JObject(fields: map<string, JsonValue>)

  /** JavaScript truthiness of a value JSON.parse can produce. JSON has no
      NaN, and the real zero stands for both 0 and -0, which are both falsy. */
  predicate Truthy(v: JsonValue)
    ensures Truthy(v) <==> !(v == JNull || v == JBool(false) || v == JNumber(0.0) || v == JString(""))
  {
    match v
    case JNull => false
    case JBool(b) => b
    case JNumber(n) => n != 0.0
    case JString(s) => s != ""
    case JArray(_) => true
    case JObject(_) => true
  }

  /** `v[key]`: a property read, `None` standing for `undefined`. Only objects
      carry the keys the client reads. */
  function Prop(v: JsonValue, key: string): (r: Option<JsonValue>)
    ensures r.Some? <==> v.JObject? && key in v.fields
    ensures r.Some? ==> r.value == v.fields[key]
  {
    if v.JObject? && key in v.fields then Some(v.fields[key]) else None
  }

  /** `v.length > 0`. A string's length counts UTF-16 code units and an
      array's its elements. A parsed object has a `length` only as a key of
      its own, whose value `>` compares with 0. Numbers, booleans and `null`
      have no length, and `undefined > 0` is false. */
  predicate LengthPositive(v: JsonValue)
    ensures v.JString? ==> (LengthPositive(v) <==> Utf16Length(v.s) > 0)
    ensures v.JArray? ==> (LengthPositive(v) <==> v.items != [])
    ensures v.JObject? ==> (LengthPositive(v) <==> Prop(v, "length").Some? && AboveZero(Prop(v, "length").value))
    ensures LengthPositive(v) ==> Truthy(v)
  {
    match v
    case JString(s) => s != []
    case JArray(xs) => |xs| > 0
    case JObject(fields) => "length" in fields && AboveZero(fields["length"])
    case _ => false
  }

  /** `x > 0` for the value of an object's `length` key, with the value
      converted to a number as `>` converts it: a number is itself, `true` is
      1, and `false` and `null` are 0. A string, array or object value is
      taken as not positive. */
  predicate AboveZero(x: JsonValue) {
    match x
    case JNumber(n) => n > 0.0
    case JBool(b) => b
    case _ => false
  }

  /** `x && x.length > 0` on a property that may be undefined. */
  predicate NonEmpty(x: Option<JsonValue>) {
    x.Some? && Truthy(x.value) && LengthPositive(x.value)
  }

  /** The `||` operator: the left operand when it is truthy, else the right. */
  function Or(x: Option<JsonValue>, y: JsonValue): (r: JsonValue)
    ensures x.Some? && Truthy(x.value) ==> r == x.value
    ensures !(x.Some? && Truthy(x.value)) ==> r == y
  {
    if x.Some? && Truthy(x.value) then x.value else y
  }
}
