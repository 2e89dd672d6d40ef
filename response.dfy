/**
 * response.go: how a reply value becomes an HTTP response. `respond`
 * writes nothing for a nil reply and JSON with status 200 otherwise;
 * `respondWithError` writes "<reason phrase>: <error>" as plain text with
 * the given status. The router's own helpers jsonResponse and
 * errorResponse return those writes as values instead of performing them.
 */
module Responses {
  import opened Wrappers
  import opened Library
  import opened Handlers
  import opened Errors

  datatype Body = NoBody | JsonBody(doc: Json) | TextBody(text: string)

  /** Response headers, as set with Header().Set: one value per name. */
  type Fields = map<string, string>

  /** What a ResponseWriter has received: headers, the status if one was written, the body. */
  datatype Written = Written(header: Fields, status: Option<int>, body: Body)

  /** The (status, header, body, err) results that HandleCommand returns. */
  datatype Response = Response(status: int, header: Fields, body: Body, err: Option<Error>)

  const JsonContentType: string := "application/json"
  const PlainContentType: string := "text/plain"

  /** http.StatusText for the statuses the router produces. */
  function StatusText(code: int): (t: string)
    ensures code in {200, 400, 401, 405, 500} ==> t != ""
  {
    match code
    case 200 => "OK"
    case 400 => "Bad Request"
    case 401 => "Unauthorized"
    case 405 => "Method Not Allowed"
    case 500 => "Internal Server Error"
    case _ => ""
  }

  /** textResponse.MarshalJSON: an ephemeral message carrying the text. */
  function MarshalJSON(text: string): (j: Json)
    ensures j.JObject? && j.members.Keys == {"response_type", "text"}
    ensures j.members["response_type"] == JString("ephemeral")
    ensures j.members["text"] == JString(text)
  {
    JObject(map["response_type" := JString("ephemeral"), "text" := JString(text)])
  }

  /** json.Marshal of a reply value. */
  function Marshal(v: Value): (r: Result<Json, string>)
    ensures r.Err? <==> v.Unencodable?
    ensures v.TextResponse? ==> r == Ok(MarshalJSON(v.text))
  {
    match v
    case Nil => Ok(JNull)
    case TextResponse(text) => Ok(MarshalJSON(text))
    case Data(doc) => Ok(doc)
    case Unencodable(cause) => Err(cause)
  }

  /** respond: the writes it makes on the ResponseWriter and the error it returns. */
  function Respond(msg: Value): (r: (Written, Option<Error>))
    ensures msg == Nil ==> r == (Written(map[], None, NoBody), None)
    ensures msg != Nil ==> r.0.header == map["Content-Type" := JsonContentType] && r.0.status == Some(200)
    ensures r.1.Some? <==> msg.Unencodable?
    ensures r.1.Some? ==> r.0.body == NoBody
    ensures msg != Nil && !msg.Unencodable? ==> r.0.body == JsonBody(Marshal(msg).value)
  {
    if msg == Nil then (Written(map[], None, NoBody), None)
    else
      var header := map["Content-Type" := JsonContentType];
      match Marshal(msg)
      case Err(cause) => (Written(header, Some(200), NoBody), Some(EncodingFailed(cause)))
      case Ok(doc) => (Written(header, Some(200), JsonBody(doc)), None)
  }

  /** respondWithError: plain text "<reason phrase>: <error>" with the given status. */
  function RespondWithError(lib: Library, code: int, err: Error): (w: Written)
    ensures w.header == map["Content-Type" := PlainContentType] && w.status == Some(code)
    ensures w.body.TextBody? && StatusText(code) + ": " <= w.body.text
    ensures w.body.text[|StatusText(code)| + 2..] == Message(lib, err)
  {
    Written(map["Content-Type" := PlainContentType], Some(code),
            TextBody(StatusText(code) + ": " + Message(lib, err)))
  }

  /** The header of plain-text replies. */
  function PlainResponseHeader(): (h: Fields)
    ensures h.Keys == {"Content-Type"} && h["Content-Type"] == PlainContentType
  {
    map["Content-Type" := PlainContentType]
  }

  /**
   * jsonResponse: respond's writes as a value. A writer that receives no
   * status answers 200, so every reply value gives status 200.
   */
  function JsonResponse(msg: Value): (r: Response)
    ensures r.status == 200
    ensures msg == Nil ==> r.header == map[] && r.body == NoBody && r.err == None
    ensures msg != Nil ==> r.header == map["Content-Type" := JsonContentType]
    ensures r.err.Some? <==> msg.Unencodable?
    ensures msg != Nil && !msg.Unencodable? ==> r.body == JsonBody(Marshal(msg).value)
    ensures msg.TextResponse? ==> r.body == JsonBody(MarshalJSON(msg.text))
    ensures msg.Data? ==> r.body == JsonBody(msg.doc)
    ensures msg.Unencodable? ==> r.body == NoBody
  {
    var (w, err) := Respond(msg);
    Response(w.status.GetOr(200), w.header, w.body, err)
  }

  /** errorResponse: respondWithError's writes as a value. */
  function ErrorResponse(lib: Library, code: int, err: Error): (r: Response)
    ensures r.status == code && r.header == PlainResponseHeader() && r.err == None
    ensures r.body == TextBody(StatusText(code) + ": " + Message(lib, err))
  {
    var w := RespondWithError(lib, code, err);
    Response(w.status.GetOr(200), w.header, w.body, None)
  }
}
