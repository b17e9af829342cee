/** JSON documents, and what the agent's files can hold. */
module Json {
  import opened Wrappers

  datatype Json =
    | Null
    | Bool(b: bool)
    | Number(n: real)
    | Text(s: string)
    | Array(items: seq<Json>)
    | Object(fields: map<string, Json>)

  /** The bytes of a config: none at all, bytes that are not JSON, or a document. */
  datatype Content = Blank | Broken(raw: string) | Doc(json: Json)

  /** A field of an object, as a Go map lookup with its presence bit. */
  function Field(fields: map<string, Json>, key: string): Option<Json> {
    if key in fields then Some(fields[key]) else None
  }
}
