/**
 * The collaborators the router calls but does not implement: the Go
 * standard library's HMAC-SHA256 (RFC 2104 over SHA-256), url.ParseQuery,
 * and the text that fmt, strconv, encoding/hex and time produce for their
 * values. They are carried as function-valued fields of a `Library`
 * value, so the model states everything relative to an arbitrary
 * implementation of them.
 */
module Library {
  import opened Wrappers

  newtype byte = x: int | 0 <= x < 256

  /** url.Values and http.Header: a key maps to the list of its values. */
  type Values = map<string, seq<string>>

  /** A JSON document, as json.Marshal would render it. */
  datatype Json =
    | JNull
    | JBool(b: bool)
    | JNumber(literal: string)
    | JString(s: string)
    | JArray(items: seq<Json>)
    | JObject(members: map<string, Json>)

  /** Library values whose rendered text the router embeds in its messages. */
  datatype Rendered =
    | NumError(input: string)      // the *strconv.NumError of ParseInt(input, 10, 64)
    | HexError(input: string)      // the error of hex.DecodeString(input)
    | DurationText(nanos: int)     // time.Duration.String()

  datatype Library = Library(
    hmacSha256: (string, string) -> seq<byte>,   // key, message -> 32-byte MAC
    parseQuery: string -> Result<Values, string>, // body -> values, or the error text
    render: Rendered -> string)
}
