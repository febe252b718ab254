/** The JSON values that Foundation's `JSONSerialization` hands back, as an abstract
    tree, and the optional casts (`as? Int`, `as? String`, `as? [String: Any]`,
    `as? [Any]`) that the HTTP layer applies to them. Parsing itself is not part of
    this module: callers receive it as a given function from bytes to values. */
module Json {
  import opened Wrappers

  /** A JSON number without a fraction or exponent is `JInt`; any other number is
      `JFloat`, kept as an exact real. `JNull` is Foundation's `NSNull`. */
  datatype Json =
    | JNull
    | JBool(b: bool)
    | JInt(i: int)
    | JFloat(r: real)
    | JString(s: string)
    | JArray(items: seq<Json>)
    | JObject(fields: map<string, Json>)

  /** The range of Swift's 64-bit `Int`. */
  const IntMin: int := -0x8000_0000_0000_0000
  const IntMax: int := 0x7FFF_FFFF_FFFF_FFFF

  /** `dictionary[key]`: the value stored under a key, if any. */
  function Get(fields: map<string, Json>, key: string): (r: Option<Json>)
    ensures r.Some? <==> key in fields
    ensures r.Some? ==> r.value == fields[key]
  {
    if key in fields then Some(fields[key]) else None
  }

  /** `value as? Int`: an integer that fits Swift's `Int`. */
  function AsInt(v: Json): (r: Option<int>)
    ensures r.Some? ==> v == JInt(r.value) && IntMin <= r.value <= IntMax
    ensures v.JInt? && IntMin <= v.i <= IntMax ==> r == Some(v.i)
  {
    match v
    case JInt(i) => if IntMin <= i <= IntMax then Some(i) else None
    case _ => None
  }

  /** `value as? String`. */
  function AsString(v: Json): (r: Option<string>)
    ensures r.Some? <==> v.JString?
    ensures r.Some? ==> v == JString(r.value)
  {
    match v
    case JString(s) => Some(s)
    case _ => None
  }

  /** `value as? [String: Any]`. */
  function AsObject(v: Json): (r: Option<map<string, Json>>)
    ensures r.Some? <==> v.JObject?
    ensures r.Some? ==> v == JObject(r.value)
  {
    match v
    case JObject(fields) => Some(fields)
    case _ => None
  }

  /** `value as? [Any]`. */
  function AsArray(v: Json): (r: Option<seq<Json>>)
    ensures r.Some? <==> v.JArray?
    ensures r.Some? ==> v == JArray(r.value)
  {
    match v
    case JArray(items) => Some(items)
    case _ => None
  }

  /** A string-valued dictionary seen as a JSON object (`[String: String]` passed where
      `[String: Any]` is expected). */
  function StringObject(m: map<string, string>): (r: map<string, Json>)
    ensures r.Keys == m.Keys
    ensures forall k :: k in r ==> r[k] == JString(m[k])
  {
    map k | k in m :: JString(m[k])
  }

}
