/** The JSON values the quote store reads and writes, and the two library calls that
    convert between them and text (`JSON.parse`, `JSON.stringify`), which this model
    takes as given functions rather than defining. */
module Json {

  datatype Option<+T> = None | Some(value: T)

  /** A parsed JSON value. Numbers are kept as integers: the store never looks at them. */
  datatype Json =
    | JNull
    | JBool(b: bool)
    | JNumber(n: int)
    | JString(str: string)
    | JArray(items: seq<Json>)
    | JObject(fields: map<string, Json>)

  /** The JSON library the page uses: `parse` is `JSON.parse` (None when it throws),
      `stringify` is `JSON.stringify(v)` and `stringifyIndented` is
      `JSON.stringify(v, null, 2)`. */
  datatype Codec = Codec(
    parse: string -> Option<Json>,
    stringify: Json -> string,
    stringifyIndented: Json -> string)
}
