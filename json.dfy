/** The parsed JSON values a request body can be, with the JavaScript
    truthiness and property reads the handlers apply to them. */
module JsonValues {
  import opened Wrappers

  /** Numbers are reduced to integers: the handlers only ever test a body's
      truthiness, for which 0 is the one falsy number among them. */
  datatype Json =
    | JNull
    | JBool(b: bool)
    | JNumber(n: int)
    | JString(s: string)
    | JArray(items: seq<Json>)
    | JObject(fields: map<string, Json>)

  /** `typeof v === "object" && v !== null`: an object or an array. */
  predicate IsObjectLike(v: Json) {
    v.JObject? || v.JArray?
  }

  /** `!!v` for a value that may be `undefined`: everything but
      `undefined`, `null`, `false`, `0` and `""` is truthy. */
  function Truthy(v: Option<Json>): (b: bool)
    ensures b <==> v.Some? && v.value != JNull && v.value != JBool(false) && v.value != JNumber(0) && v.value != JString([])
  {
    match v
    case None => false
    case Some(JNull) => false
    case Some(JBool(b)) => b
    case Some(JNumber(n)) => n != 0
    case Some(JString(s)) => s != []
    case Some(JArray(_)) => true
    case Some(JObject(_)) => true
  }

  /** `v[key]` for one of the keys the handlers read (`title`, `body`,
      `tags`): the member of an object, `undefined` on anything else. */
  function Field(v: Json, key: string): (r: Option<Json>)
    ensures r.Some? <==> v.JObject? && key in v.fields
    ensures r.Some? ==> r.value == v.fields[key]
  {
    if v.JObject? && key in v.fields then Some(v.fields[key]) else None
  }

  /** `typeof v === "string"` for a value that may be `undefined`. */
  predicate IsString(v: Option<Json>) {
    v.Some? && v.value.JString?
  }

  /** `items.every(t => typeof t === "string")`. */
  predicate AllStrings(items: seq<Json>) {
    forall i :: 0 <= i < |items| ==> items[i].JString?
  }

  /** The strings of an array all of whose elements are strings. */
  function StringsOf(items: seq<Json>): (r: seq<string>)
    requires AllStrings(items)
    ensures |r| == |items| && forall i :: 0 <= i < |items| ==> items[i] == JString(r[i])
  {
    seq(|items|, i requires 0 <= i < |items| => items[i].s)
  }

  /** The JSON array elements of the given strings, in order. */
  function JStrings(strings: seq<string>): (items: seq<Json>)
    ensures |items| == |strings| && AllStrings(items)
    ensures forall i :: 0 <= i < |strings| ==> items[i] == JString(strings[i])
  {
    seq(|strings|, i requires 0 <= i < |strings| => JString(strings[i]))
  }

  /** Reading the strings back out of their JSON array gives them back. */
  lemma StringsOfJStrings(strings: seq<string>)
    ensures StringsOf(JStrings(strings)) == strings
  {
  }
}
