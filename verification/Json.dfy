/** JSON values. Numbers are their real values; an object is a map, so a repeated key keeps its last value. */
module Json {
  datatype Json =
    | Null
    | Bool(b: bool)
    | Number(n: real)
    | String(s: string)
    | Array(elements: seq<Json>)
    | Object(fields: map<string, Json>)
}
