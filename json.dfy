/** The JSON values a state file holds, Python's truth test on them, and the encoder/decoder pair
    (`json.dump` with indent=2 and ensure_ascii=False, `json.load`) as an opaque codec. */
module Json {
  import opened Wrappers

  /** A decoded JSON document. Numbers are integers. */
  datatype Json =
    | Null
    | Bool(b: bool)
    | Number(n: int)
    | Str(s: string)
    | Array(items: seq<Json>)
    | Object(fields: map<string, Json>)

  /** `bool(v)` for the Python value `json.load` produces. */
  predicate Truthy(j: Json) {
    match j
    case Null => false
    case Bool(b) => b
    case Number(n) => n != 0
    case Str(s) => s != ""
    case Array(items) => items != []
    case Object(fields) => fields != map[]
  }

  /** The text a value is written as, and the value read back from a text (`None` for text that
      is not JSON, where `json.load` raises JSONDecodeError). */
  datatype Codec = Codec(encode: Json -> string, decode: string -> Option<Json>)

  /** Reading back what was written gives the value that was written. */
  ghost predicate RoundTrips(c: Codec) {
    forall j :: c.decode(c.encode(j)) == Some(j)
  }
}
