/** Parsed JSON values, numbers with and without a fraction apart. */
module JsonValues {
  datatype Json =
    | JNull
    | JBool(b: bool)
    | JInteger(i: int)
    | JFloat(text: string)
    | JString(s: string)
    | JArray(items: seq<Json>)
    | JObject(fields: map<string, Json>)
}
