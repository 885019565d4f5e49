/** A decoded JSON document. Parsing and serialisation are not modelled
    here; they are passed to the steps as a `Codec`. */
module Json {
  import opened Optional

  datatype Value =
    | Null
    | Bool(b: bool)
    | Num(n: int)
    | Str(s: string)
    | Arr(items: seq<Value>)
    | Obj(fields: map<string, Value>)

  /** `json.load` on a file's text (None when the text is malformed) and
      `json.dump` of a document into a file's text. */
  datatype Codec = Codec(decode: string -> Option<Value>, encode: Value -> string)

  /** The codec reads back what it wrote. */
  predicate RoundTrips(codec: Codec, v: Value) {
    codec.decode(codec.encode(v)) == Some(v)
  }
}
