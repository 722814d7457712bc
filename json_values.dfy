/**
 * JsonValues: the Gson trees the mod builds, as values. An object is a map from
 * property name to value (`addProperty` and `add` of an existing name replace it);
 * the order Gson keeps for printing is not part of the value.
 */
module JsonValues {
  import opened Wrappers

  datatype Json =
    | JString(str: string)
    | JNumber(num: int)
    | JArray(items: seq<Json>)
    | JObject(fields: map<string, Json>)

  /** `{"item": item}`, the object every recipe uses to name an item. */
  function ItemObject(item: string): (j: Json)
    ensures StringProperty(j, "item") == Some(item)
  {
    JObject(map["item" := JString(item)])
  }

  /** `obj.get(name)` of an object, null when absent or when `j` is not an object. */
  function Property(j: Json, name: string): (r: Option<Json>)
    ensures r.Some? <==> j.JObject? && name in j.fields
  {
    if j.JObject? && name in j.fields then Some(j.fields[name]) else None
  }

  /** `obj.get(name).getAsString()` when that property holds a string. */
  function StringProperty(j: Json, name: string): (r: Option<string>)
    ensures r.Some? ==> Property(j, name) == Some(JString(r.value))
  {
    match Property(j, name)
    case Some(JString(s)) => Some(s)
    case _ => None
  }

  /** An array of JSON strings. */
  function Strings(items: seq<string>): (r: seq<Json>)
    ensures |r| == |items| && forall i :: 0 <= i < |items| ==> r[i] == JString(items[i])
  {
    seq(|items|, i requires 0 <= i < |items| => JString(items[i]))
  }
}
