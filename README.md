# Slack slash-command router, modelled in Dafny

This project models the core of `htdvisser.dev/slash`, a Go package that
serves Slack slash commands over HTTP. A `Router` checks Slack's request
signature and timestamp, decodes the form body into a `Request`, looks the
command up in its registry and turns the handler's reply into a response.
The model covers:

- the verification chain of `verifyRequest`;
- the status decisions of `HandleCommand` and `ServeHTTP`;
- the containment of a panicking handler;
- the registry and option updates on the `Router` object;
- the clock-skew rule;
- the field accessors of a `Request`;
- the response envelopes of `response.go`.

Layout, one module per file:

| file | module | models |
|---|---|---|
| wrappers.dfy | `Wrappers` | `Option`, `Result`, and `Outcome` (a call returns or panics) |
| library.dfy | `Library` | bytes, JSON documents, and the `Library` record of foreign functions |
| decimal.dfy | `Decimal` | `strconv.ParseInt(s, 10, 64)` and `strconv.FormatInt` |
| hex.dfy | `Hex` | `hex.DecodeString` and `%x` |
| clock.dfy | `Clock` | `getTimeDifference` and `Duration.Round(time.Second)` |
| request.dfy | `Requests` | `Request`, `get` and the 13 accessors |
| handlers.dfy | `Handlers` | `HandlerFunc`, `MiddlewareFunc` and reply values |
| errors.dfy | `Errors` | the errors the router reports and their texts |
| response.dfy | `Responses` | `MarshalJSON`, `respond`, `respondWithError`, `jsonResponse`, `errorResponse` |
| verifier.dfy | `Verifier` | `verifyRequest` and the signing side used by the tests |
| options.dfy | `Options` | loggers, `RouterOption`, the default unknown-command handler |
| router.dfy | `Routing` | the `Router` class, `HandleCommand` and `ServeHTTP` |
| router_properties.dfy | `RoutingProperties` | end-to-end properties and the exchanges of `router_test.go` |

Modelling choices:

- Go strings and byte slices are Dafny `string`s whose characters stand for bytes.
- Foreign library code is not implemented. This covers HMAC-SHA256 (RFC 2104),
  `url.ParseQuery`, and the text that `strconv`, `encoding/hex` and `time` print
  for their errors and durations. All of it is carried as function-valued fields
  of a `Library` value. Every property holds for any implementation of them.
- Hex decoding (Base16, section 8 of RFC 4648) and decimal parsing are
  implemented. The proof that a correctly signed request is accepted needs
  their round trips.
- The clock is a parameter `now`, in nanoseconds since the Unix epoch.
- A handler is a function from `Request` to `Outcome<Value>`. `Panicked` stands
  for a Go panic. `Value` is the handler's `interface{}` reply: `Nil`, a
  `textResponse`, a value with its JSON document, or a value that `json.Marshal`
  rejects.
- `Router` is a class with the Go struct's fields. `NewRouter` is its
  constructor. `RegisterCommand` and option application update the fields in
  place.
- `HandleCommand` and `ServeHTTP` only read the router. They are functions of
  its field values (`Router.State()`).
- `router.go` calls `jsonResponse`, `errorResponse`, `plainResponseHeader`,
  `writeResponse` and `commandFailedHandler`, but none of them is defined in
  router.go, options.go, request.go, response.go or logger.go.
  - `jsonResponse` and `errorResponse` are modelled as the writes of `respond`
    and `respondWithError`, returned as values. A writer that was sent no
    status answers 200.
  - `plainResponseHeader` is the `Content-Type: text/plain` header that
    `respondWithError` sets.
  - `commandFailedHandler` is a parameter of the constructor.
- `router_test.go` calls `Register`, but `router.go` defines `RegisterCommand`.
  The model follows `router.go`.

## Model

| member | source | states |
|---|---|---|
| `Decimal.ParseInt64` | router.go:66 | a text parses exactly when it is an optional sign followed by one or more digits and the number it denotes fits in 64 bits; the result is that signed number, so an out-of-range text is rejected |
| `Decimal.FormatInt` | router_test.go:25 | the text has a '-' exactly for a negative number, never a '+', and its digits denote the magnitude |
| `Decimal.ParseFormatInt` | router_test.go:25 | parsing the text `FormatInt` renders gives the timestamp back |
| `Decimal.NonCanonicalTexts` | router.go:66 | "+N" and "0N" parse to the same number as "N", so the raw header text is not fixed by the timestamp it denotes |
| `Hex.DecodeString` | router.go:77 | decoding succeeds exactly for even-length strings of hex digits of either case, and yields half as many bytes |
| `Hex.EncodeToString` | router_test.go:31 | `%x` writes two characters per byte |
| `Hex.DecodeEncode` | router_test.go:31 | decoding what `%x` wrote gives the MAC bytes back |
| `Clock.RoundToSecond` | options.go:34 | the result is a whole number of seconds within half a second of the input; a tie rounds away from zero; the sign is kept |
| `Clock.TimeDifference` | options.go:33-39 | the difference is the skew between the clock and the timestamp made non-negative and rounded to the nearest second; `ok` holds iff it is strictly below 5 minutes |
| `Clock.SinceSaturated` | options.go:34 | `time.Since(time.Unix(timestamp, 0))` as a 64-bit `Duration`: the exact difference when it fits, otherwise the nearest extreme `Duration` |
| `Clock.RoundDuration` | options.go:34 | `Round(time.Second)` on a 64-bit `Duration`: the nearest whole second when it fits, otherwise the extreme `Duration` of the input's sign |
| `Clock.RoundSymmetric` | options.go:34 | rounding commutes with negation |
| `Clock.SkewSymmetric` | options.go:34-37 | the verdict depends only on the magnitude of the skew, so past and future are treated alike |
| `Clock.WithinTolerance` | options.go:34-38 | a timestamp is accepted iff the true skew is strictly below 4m59.5s, in both directions |
| `Clock.FiveMinutesRejected` | options.go:38 | a skew of exactly 5m00s, past or future, is rejected |
| `Clock.HalfSecondBoundary` | options.go:34-38 | a skew of 4m59.5s rounds up and is rejected; one nanosecond less is accepted |
| `Clock.TimeDifferenceAsWritten` | options.go:33-39 | the rule on Go's 64-bit `Duration`, with `Since` saturating, `Round` overflow fallbacks and the wrapping `*= -1`; `ok` iff the returned value is below 5 minutes |
| `Clock.FarFutureTimestampAccepted` | options.go:34-38 | a timestamp about 30,000 years ahead is accepted by the code as written, and rejected by the rule |
| `Clock.AsWrittenAgreesInRange` | options.go:33-39 | away from the `Duration` limits, the code as written and the rule agree |
| `Requests.Request.Value` | request.go:8 | a field reads "" when its key is absent or has no values, and otherwise reads the first value |
| `Requests.Get` | request.go:8 | `url.Values.Get` (and `http.Header.Get`) on any key: "" for an absent key or no values, otherwise the first value |
| `Requests.Request.Token` | request.go:11 | reads field `token` |
| `Requests.Request.TeamID` | request.go:14 | reads field `team_id` |
| `Requests.Request.TeamDomain` | request.go:17 | reads field `team_domain` |
| `Requests.Request.EnterpriseID` | request.go:20 | reads field `enterprise_id` |
| `Requests.Request.EnterpriseName` | request.go:23 | reads field `enterprise_name` |
| `Requests.Request.ChannelID` | request.go:26 | reads field `channel_id` |
| `Requests.Request.ChannelName` | request.go:29 | reads field `channel_name` |
| `Requests.Request.UserID` | request.go:32 | reads field `user_id` |
| `Requests.Request.UserName` | request.go:35 | reads field `user_name` |
| `Requests.Request.Command` | request.go:38 | reads field `command` |
| `Requests.Request.Text` | request.go:41 | reads field `text` |
| `Requests.Request.ResponseURL` | request.go:44 | reads field `response_url` |
| `Requests.Request.TriggerID` | request.go:47 | reads field `trigger_id` |
| `Requests.KeysDistinct` | request_test.go:12-26 | the 13 fields have 13 distinct keys |
| `Requests.WithChangesOnlyItsField` | request_test.go:27-36 | setting one field's values changes that field's accessor (to the first value, or "") and no other |
| `Requests.FilledRequestReadsOwnKeys` | request_test.go:27-36 | in the test's request, where every key holds "<key> value", each accessor reads its own key's value |
| `Errors.Message` | router.go:67-90 | the texts of the errors; every timestamp failure starts "invalid request timestamp", every signature failure "invalid request signature" |
| `Responses.StatusText` | response.go:40 | each status the router produces has a non-empty reason phrase |
| `Responses.MarshalJSON` | response.go:12-17 | a `textResponse` is an object with exactly `response_type = "ephemeral"` and `text` = the string |
| `Responses.Marshal` | response.go:28 | encoding fails exactly for unencodable values; a `textResponse` encodes through `MarshalJSON` |
| `Responses.Respond` | response.go:19-34 | nil writes nothing and returns no error. Otherwise JSON `Content-Type` and status 200 are written first. An encoding error is returned with no body written. Otherwise the body is the JSON document |
| `Responses.RespondWithError` | response.go:36-42 | `Content-Type: text/plain`, status `code`, body `StatusText(code) + ": " + message` |
| `Responses.JsonResponse` | router.go:109 | every reply answers 200; nil has no header and no body; any other reply has the JSON header and the body its encoding gives (a text reply its `MarshalJSON` document, a data reply its own document); an unencodable reply has no body and an error, and only it has an error |
| `Responses.ErrorResponse` | router.go:100 | status `code`, plain-text header, no error, body "<reason>: <message>" |
| `Responses.PlainResponseHeader` | router.go:97 | the header of plain-text answers holds only `Content-Type: text/plain` |
| `Verifier.VerifyRequest` | router.go:61-92 | An empty secret accepts everything. Otherwise a request is accepted iff its timestamp parses and is within tolerance, its signature header starts "v0=", and the rest hex-decodes to the HMAC of "v0:" + raw timestamp text + ":" + body. Every rejection is a verification error |
| `Verifier.FirstFailureReported` | router.go:65-80 | the reported failure is the first failing check, in the order timestamp syntax, skew, version prefix, hex digits |
| `Verifier.SignedRequestAccepted` | router_test.go:21-31 | a request signed as the tests sign it, with the same secret and within tolerance, is accepted |
| `Verifier.SignedHeader` | router_test.go:21-33 | the signed request's headers: the form content type, the timestamp as `FormatInt` renders it, and a signature "v0=" whose hex decodes back to the MAC of "v0:<timestamp>:<body>" under the signer's key |
| `Verifier.OutOfToleranceRejected` | router.go:70-72 | a correctly signed request out of tolerance is rejected for its timestamp |
| `Verifier.ForgedRequestRejected` | router.go:81-90 | whenever the MAC under the signer's key and body differs from the MAC under the router's secret and the received body, the request is rejected as a mismatch |
| `Verifier.CurrentSecondTolerated` | router_test.go:25 | the current Unix second is always within tolerance of the clock |
| `Options.WithoutLogger` | options.go:24 | the logger option with the no-op logger |
| `Options.CommandUnknownHandler` | options.go:41-44 | never panics; replies with a `textResponse` that starts "Sorry <user_name>, " and ends "`<command>` command." |
| `Routing.Defaults` | router.go:40-47 | a new router has the given secret, no commands, no middleware, the default logger and unknown-command handler, and the given failed-command handler |
| `Routing.Apply` | options.go:27-31 | the logger option overwrites only the logger; the unknown-command option (options.go:47-51) overwrites only that handler |
| `Routing.ApplyAll` | router.go:48-50 | applying the options in order changes nothing but the logger and the unknown-command handler |
| `Routing.LoggerKeptWithoutOption` | router.go:40-50 | without a logger option the default logger stays |
| `Routing.LastLoggerWins` | router.go:48-50 | the last logger option wins |
| `Routing.UnknownHandlerKeptWithoutOption` | router.go:40-50 | without an unknown-command option the default handler stays |
| `Routing.LastUnknownHandlerWins` | router.go:48-50 | the last unknown-command option wins |
| `Routing.Router.constructor` | router.go:39-52 | the new router's fields are the defaults with every option applied in order |
| `Routing.Router.ApplyOption` | options.go:19 | applying an option in place updates the fields as `Apply` says |
| `Routing.Router.RegisterCommand` | router.go:55-57 | afterwards the command maps to the new handler, replacing any earlier one; every other entry and field is unchanged |
| `Routing.Reply` | router.go:109 | a panic stays a panic; a reply becomes its `jsonResponse`, status 200 |
| `Routing.Dispatch` | router.go:106-122 | An unknown command gets the unknown-command handler, with no middleware and no recovery. A registered command runs its (middleware-wrapped) handler. If that panics, the failed-command handler answers. Every answer has status 200 |
| `Routing.Resolve` | router.go:119-121 | a registered handler runs as it is without middleware, and wrapped by the middleware when there is one |
| `Routing.HandleCommand` | router.go:95-123 | Any other Content-Type gets 400 with "requires application/x-www-form-urlencoded, not ...", before verification. A verification failure gets 401. An undecodable body gets 400. Otherwise the answer is the dispatched command's |
| `Routing.ServeHTTP` | router.go:126-150 | A non-POST gets 405. A failed read gets 400. An error from `HandleCommand` gets 500. A panic propagates. Every answer carries no error and one of 200, 400, 401, 405, 500 |
| `RoutingProperties.UnknownCommandIgnoresWrapping` | router.go:107-110 | middleware and the failed-command handler do not affect the answer to an unknown command |
| `RoutingProperties.PanicContained` | router.go:113-118 | a panicking registered handler is answered by the failed-command handler's reply with status 200 |
| `RoutingProperties.UnknownHandlerPanicEscapes` | router.go:108-110 | a panic in the unknown-command handler is not contained |
| `RoutingProperties.RefusedRequestRunsNoHandler` | router.go:96-105 | a request refused for its content type, credentials or body gets the same answer whatever the commands and handlers |
| `RoutingProperties.NonPostIgnoresRequest` | router.go:132-136 | the 405 answer depends on neither the headers nor the body |
| `RoutingProperties.SignedRequestDispatched` | router.go:145-149 | a request signed with the router's secret at the current second is answered with the dispatched response, or 500 when its reply cannot be encoded |
| `RoutingProperties.StaleRequestUnauthorized` | router_test.go:57-75 | a correctly signed request more than five minutes away, either way, is answered 401 |
| `RoutingProperties.ForeignKeyUnauthorized` | router_test.go:77-85 | whenever the two keys' MACs differ, a request signed with another key is answered 401 |
| `RoutingProperties.RegisteredCommandServed` | router.go:106-122 | with no middleware, a signed request for a registered command is answered with its handler's reply. If the handler panics, the failed-command handler's reply answers instead. A panic in both propagates. A reply that cannot be encoded gets 500 |
| `RoutingProperties.ServeRegistered` | router_test.go:111-154 | For a new router with the command registered: a reply is answered with its JSON and status 200. If the handler panics, the failed-command handler's reply answers, status 200. A double panic propagates. An unencodable reply gets 500 |
| `RoutingProperties.ServeUnknown` | router_test.go:99-109 | a new router answers an unregistered command 200 with a JSON `text` starting "Sorry" |

## Findings

| source | as written | input that shows it | evidently intended | confidence | as-written member | corrected member |
|---|---|---|---|---|---|---|
| options.go:34-38 | With a timestamp about 292 or more years ahead of the clock, `time.Since` saturates at the most negative `Duration`. `Round` returns it unchanged. `difference *= -1` wraps back to it. The negative "difference" is below 5 minutes, so `ok` is true. | clock at 1,700,000,000 s, timestamp header `1000000000000` | every timestamp more than 5 minutes away, past or future, is rejected | not executed; high for the arithmetic shown | `Clock.FarFutureTimestampAccepted` | `Clock.WithinTolerance` |

The rest of the model uses the unbounded rule `Clock.TimeDifference`.
`Clock.AsWrittenAgreesInRange` shows that the rule and the 64-bit code agree
on every skew that stays a second away from the `Duration` limits. The
finding lets a far-future timestamp through the replay window. An attacker
still needs a valid MAC for that timestamp text.

## Left out

- HMAC-SHA256, `url.ParseQuery`, `json.Marshal`'s byte output, and the text of library errors and durations are foreign code. They are parameters (the `Library` record). The constant-time property of `hmac.Equal` is not modelled; plain equality stands for it.
- The `Fprint`/`Write` errors into the hash (router.go:82-87) are not modelled. Writes to a hash never fail.
- Reading the body (router.go:138) is a parameter `read`, either the body or the read error. The 1 MiB cap of `io.LimitReader` is not modelled.
- `writeResponse` and the `ResponseWriter` writes are transport I/O. The model returns the status, headers and body they would carry. An error from `w.Write` in `respond` is not modelled.
- The 3-second `context.WithTimeout` (router.go:127) is deadline behaviour. Handlers receive no context.
- Logging is not modelled: `logger.go`, every `Print`/`Printf`, and the stack dump to standard error (router.go:115). A `Logger` is an opaque value stored in the router.
- The `getTimeDifference` field of `Router` is not a field of the model. No option replaces it, and `Clock.TimeDifference` is used directly.
- Middleware is a field, and `Dispatch` honours it. No option in `options.go` sets it, so a new router never has one.
- Wrapping a handler by middleware is a pure function here, so a panic while wrapping is not modelled. In Go it is recovered like a handler panic.
- A panic inside `jsonResponse` (for example in a custom `MarshalJSON`) is not modelled.
- A Go interface holding a typed nil pointer is not `nil`. The model's `Nil` is only the untyped nil.
- `Responses.StatusText`: only the five statuses the router produces are tabulated. Any other code maps to "" here, unlike Go's full table.
- `Clock.TimeDifference`: does not model Go's 64-bit `Duration` saturation and wrap-around. The as-written model `Clock.TimeDifferenceAsWritten` covers them for timestamps whose internal seconds do not overflow (`time.Unix` wraps beyond that).
- The default `commandFailedHandler` and its reply text are not defined in router.go, options.go, request.go, response.go or logger.go. The model takes the handler as a parameter, so no property about its text (such as starting with "Sorry") is stated.
- Header lookups use already-canonical names (`Content-Type`, `X-Slack-Request-Timestamp`, `X-Slack-Signature`). `http.Header.Get`'s canonicalisation of the key is not modelled.
- Accessors never modify the request. That holds because `Request` is an immutable value, so no lemma states it.
