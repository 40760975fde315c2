/** Decoded JSON values. A number is held by its text; what the text denotes is left to those who
    need it. */
module JsonValues {

  /** What a reference to a component of an OpenAPI document starts with. */
  const REF_PREFIX := "#/components/schemas/"

  datatype Json =
    | JNull
    | JBool(b: bool)
    | JNumber(literal: string)
    | JString(text: string)
    | JArray(items: seq<Json>)
    | JObject(fields: map<string, Json>)
}
