/** The errors the router reports, with the text Go's `%v` gives each. */
module Errors {
  import opened Library

  datatype Error =
    | InvalidTimestamp(header: string)       // strconv.ParseInt rejected the header
    | TimestampOutOfRange(difference: int)   // getTimeDifference said no
    | MissingVersion                         // no "v0=" prefix
    | InvalidSignature(encoded: string)      // hex.DecodeString rejected the digits
    | SignatureMismatch                      // the MAC differs
    | InvalidBody(cause: string)             // url.ParseQuery failed
    | MethodNotAllowed(verb: string)       // not a POST
    | ReadFailed(cause: string)              // reading the body failed
    | EncodingFailed(cause: string)          // json.Marshal failed
  {
    predicate IsVerification() {
      InvalidTimestamp? || TimestampOutOfRange? || MissingVersion? || InvalidSignature? || SignatureMismatch?
    }
  }

  /** The error's text: every verification failure names the timestamp or the signature. */
  function Message(lib: Library, e: Error): (m: string)
    ensures e.InvalidTimestamp? || e.TimestampOutOfRange? ==> "invalid request timestamp" <= m
    ensures e.MissingVersion? || e.InvalidSignature? || e.SignatureMismatch? ==> "invalid request signature" <= m
  {
    match e
    case InvalidTimestamp(header) => "invalid request timestamp: " + lib.render(NumError(header))
    case TimestampOutOfRange(d) =>
      "invalid request timestamp: difference of " + lib.render(DurationText(d)) + " too big"
    case MissingVersion => "invalid request signature: does not contain version"
    case InvalidSignature(encoded) => "invalid request signature: " + lib.render(HexError(encoded))
    case SignatureMismatch => "invalid request signature"
    case InvalidBody(cause) => "invalid body: " + cause
    case MethodNotAllowed(verb) => "requires POST, not " + verb
    case ReadFailed(cause) => cause
    case EncodingFailed(cause) => cause
  }
}
