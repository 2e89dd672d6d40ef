/**
 * Command handlers (router.go:21-25). A handler receives the parsed
 * request and returns a reply value, Go's interface{}, or panics. Its
 * context argument, which carries only the deadline and the logger, is
 * not modelled.
 */
module Handlers {
  import opened Wrappers
  import opened Library
  import opened Requests

  /** A handler's reply value. */
  datatype Value =
    | Nil                        // no reply: acknowledge silently
    | TextResponse(text: string) // the package's textResponse type
    | Data(doc: Json)            // any other value, given by what json.Marshal makes of it
    | Unencodable(cause: string) // a value json.Marshal rejects, with the error's text

  type Handler = Request -> Outcome<Value>

  type Middleware = Handler -> Handler
}
