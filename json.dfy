/** An abstract JSON tree: objects with unique keys, arrays, strings, and every other
    scalar (numbers, booleans, null) lumped together. */
module Json {
  import opened Common

  datatype Value = JObject(fields: map<string, Value>) | JArray(items: seq<Value>) | JString(str: string) | JOther

  /** org.json's `getJSONObject(key)`: None where it would throw. */
  function GetObject(obj: map<string, Value>, key: string): (r: Option<map<string, Value>>)
    ensures r.Some? <==> key in obj && obj[key].JObject?
    ensures r.Some? ==> obj[key] == JObject(r.value)
  {
    if key in obj && obj[key].JObject? then Some(obj[key].fields) else None
  }

  /** org.json's `getJSONArray(key)`: None where it would throw. */
  function GetArray(obj: map<string, Value>, key: string): (r: Option<seq<Value>>)
    ensures r.Some? <==> key in obj && obj[key].JArray?
    ensures r.Some? ==> obj[key] == JArray(r.value)
  {
    if key in obj && obj[key].JArray? then Some(obj[key].items) else None
  }

  /** org.json's `getString(key)` on a string value: the string; None for a missing key and,
      unlike org.json, which prints any other present value as text, for a non-string. */
  function GetString(obj: map<string, Value>, key: string): (r: Option<string>)
    ensures r.Some? <==> key in obj && obj[key].JString?
    ensures r.Some? ==> obj[key] == JString(r.value)
  {
    if key in obj && obj[key].JString? then Some(obj[key].str) else None
  }

  /** org.json's `optString(key, default)` for string and missing values. */
  function OptString(obj: map<string, Value>, key: string, default: string): (r: string)
    ensures key in obj && obj[key].JString? ==> r == obj[key].str
    ensures key !in obj ==> r == default
  {
    if key in obj && obj[key].JString? then obj[key].str else default
  }
}
