/** What the router promises end to end, stated over its state and its collaborators. */
module RoutingProperties {
  import opened Wrappers
  import opened Library
  import opened Decimal
  import opened Clock
  import opened Requests
  import opened Handlers
  import opened Errors
  import opened Responses
  import opened Verifier
  import opened Options
  import opened Routing

  /** Middleware and the failed-command handler play no part in answering an unknown command. */
  lemma UnknownCommandIgnoresWrapping(st: RouterState, req: Request, middleware: Option<Middleware>, failed: Handler)
    requires req.Command() !in st.commands
    ensures Dispatch(st.(middleware := middleware, commandFailedHandler := failed), req) == Dispatch(st, req)
  {
  }

  /**
   * A registered handler's panic is contained: unless the failed-command
   * handler panics too, the answer is its reply with status 200.
   */
  lemma PanicContained(st: RouterState, req: Request)
    requires req.Command() in st.commands
    requires Resolve(st, st.commands[req.Command()])(req).Panicked?
    requires st.commandFailedHandler(req).Returned?
    ensures Dispatch(st, req) == Returned(JsonResponse(st.commandFailedHandler(req).value))
    ensures Dispatch(st, req).value.status == 200
  {
  }

  /** An unknown-command handler's panic is not contained. */
  lemma UnknownHandlerPanicEscapes(st: RouterState, req: Request)
    requires req.Command() !in st.commands && st.commandUnknownHandler(req).Panicked?
    ensures Dispatch(st, req).Panicked?
  {
  }

  /**
   * No handler runs for a request refused for its content type, its
   * credentials or its body: the answer is the same whatever the commands,
   * handlers and middleware.
   */
  lemma RefusedRequestRunsNoHandler(st: RouterState, st': RouterState, lib: Library, now: int,
                                    header: Values, body: string)
    requires st.signingSecret == st'.signingSecret
    requires || Get(header, "Content-Type") != FormContentType
             || VerifyRequest(st.signingSecret, lib, now, header, body).Rejected?
             || lib.parseQuery(body).Err?
    ensures HandleCommand(st, lib, now, header, body) == HandleCommand(st', lib, now, header, body)
  {
  }

  /** A 405 is answered before the body is read: neither the body nor the headers matter. */
  lemma NonPostIgnoresRequest(st: RouterState, lib: Library, now: int, verb: string,
                              header: Values, read: Result<string, string>,
                              header': Values, read': Result<string, string>)
    requires verb != "POST"
    ensures ServeHTTP(st, lib, now, verb, header, read) == ServeHTTP(st, lib, now, verb, header', read')
  {
  }

  /**
   * A request signed as buildSlashRequest does, with the router's secret
   * and the current second, reaches dispatch; ServeHTTP then answers with
   * the dispatched response, or 500 if its reply could not be encoded.
   */
  lemma {:induction false} SignedRequestDispatched(st: RouterState, lib: Library, now: int,
                                                   body: string, values: Values)
    requires IsInt64(now / Second) && lib.parseQuery(body) == Ok(values)
    ensures var served := ServeHTTP(st, lib, now, "POST", SignedHeader(st.signingSecret, lib, now / Second, body), Ok(body));
            var dispatched := Dispatch(st, Request(values));
            && (dispatched.Panicked? <==> served.Panicked?)
            && (dispatched.Returned? && dispatched.value.err.None? ==> served == dispatched)
            && (dispatched.Returned? && dispatched.value.err.Some? ==>
                  served == Returned(ErrorResponse(lib, 500, dispatched.value.err.value)))
  {
    var header := SignedHeader(st.signingSecret, lib, now / Second, body);
    assert Get(header, "Content-Type") == FormContentType;
    CurrentSecondTolerated(now);
    SignedRequestAccepted(st.signingSecret, lib, now, now / Second, body);
  }

  /**
   * router_test.go's PastRequest and FutureRequest: a correctly signed
   * request more than five minutes away from the clock is answered 401.
   */
  lemma {:induction false} StaleRequestUnauthorized(st: RouterState, lib: Library, now: int,
                                                    offset: int, body: string)
    requires st.signingSecret != "" && IsInt64(now / Second + offset) && Abs(offset) > 300
    ensures var header := SignedHeader(st.signingSecret, lib, now / Second + offset, body);
            var served := ServeHTTP(st, lib, now, "POST", header, Ok(body));
            served.Returned? && served.value.status == 401
  {
    var timestamp := now / Second + offset;
    var header := SignedHeader(st.signingSecret, lib, timestamp, body);
    assert Get(header, "Content-Type") == FormContentType;
    WithinTolerance(now, timestamp);
    OutOfToleranceRejected(st.signingSecret, lib, now, timestamp, body);
  }

  /**
   * router_test.go's KeyMismatch: a request signed with another key is
   * answered 401 whenever the two keys' MACs of the message differ.
   */
  lemma {:induction false} ForeignKeyUnauthorized(st: RouterState, signer: string, lib: Library,
                                                  now: int, body: string)
    requires st.signingSecret != "" && IsInt64(now / Second)
    requires var message := SignedMessage(FormatInt(now / Second), body);
             lib.hmacSha256(signer, message) != lib.hmacSha256(st.signingSecret, message)
    ensures var header := SignedHeader(signer, lib, now / Second, body);
            var served := ServeHTTP(st, lib, now, "POST", header, Ok(body));
            served.Returned? && served.value.status == 401
  {
    var header := SignedHeader(signer, lib, now / Second, body);
    assert Get(header, "Content-Type") == FormContentType;
    CurrentSecondTolerated(now);
    ForgedRequestRejected(st.signingSecret, signer, lib, now, now / Second, body, body);
  }

  /**
   * With no middleware, a signed request for a registered command is
   * answered with its handler's reply, or with the failed-command
   * handler's reply when the handler panics.
   */
  lemma {:induction false} RegisteredCommandServed(st: RouterState, lib: Library, now: int,
                                                   body: string, values: Values)
    requires IsInt64(now / Second) && lib.parseQuery(body) == Ok(values)
    requires st.middleware == None && Request(values).Command() in st.commands
    ensures var req := Request(values);
            var handler, failed := st.commands[req.Command()], st.commandFailedHandler;
            var served := ServeHTTP(st, lib, now, "POST", SignedHeader(st.signingSecret, lib, now / Second, body), Ok(body));
            && (handler(req).Returned? && !handler(req).value.Unencodable? ==>
                  served == Returned(JsonResponse(handler(req).value)))
            && (handler(req).Panicked? && failed(req).Returned? && !failed(req).value.Unencodable? ==>
                  served == Returned(JsonResponse(failed(req).value)))
            && (handler(req).Panicked? && failed(req).Panicked? ==> served.Panicked?)
            && (handler(req).Returned? && handler(req).value.Unencodable? ==>
                  served == Returned(ErrorResponse(lib, 500, EncodingFailed(handler(req).value.cause))))
  {
    var req := Request(values);
    assert Resolve(st, st.commands[req.Command()]) == st.commands[req.Command()];
    SignedRequestDispatched(st, lib, now, body, values);
  }

  /** The signing secret of router_test.go. */
  const TestSecret: string := "00000000000000000000000000000000"

  /**
   * router_test.go's WithResponse, WithoutResponse and WithPanic: a new
   * router with the command registered answers a signed request with the
   * handler's reply, or, when the handler panics, with the failed-command
   * handler's reply, always with status 200 unless a reply cannot be
   * encoded.
   */
  method ServeRegistered(lib: Library, now: int, failed: Handler, opts: seq<RouterOption>,
                         command: string, handler: Handler, body: string, values: Values)
    returns (served: Outcome<Response>)
    requires IsInt64(now / Second)
    requires lib.parseQuery(body) == Ok(values) && Get(values, "command") == command
    ensures var req := Request(values);
            && (handler(req).Returned? && !handler(req).value.Unencodable? ==>
                  served == Returned(JsonResponse(handler(req).value)) && served.value.status == 200)
            && (handler(req).Panicked? && failed(req).Returned? && !failed(req).value.Unencodable? ==>
                  served == Returned(JsonResponse(failed(req).value)) && served.value.status == 200)
            && (handler(req).Panicked? && failed(req).Panicked? ==> served.Panicked?)
            && (handler(req).Returned? && handler(req).value.Unencodable? ==>
                  served == Returned(ErrorResponse(lib, 500, EncodingFailed(handler(req).value.cause))))
  {
    var router := new Router(TestSecret, failed, opts);
    router.RegisterCommand(command, handler);
    var header := SignedHeader(TestSecret, lib, now / Second, body);
    served := ServeHTTP(router.State(), lib, now, "POST", header, Ok(body));
    RegisteredCommandServed(router.State(), lib, now, body, values);
  }

  /**
   * router_test.go's UnknownCommand: a new router without that command
   * answers 200 with the default apology, whose text starts with "Sorry".
   */
  method ServeUnknown(lib: Library, now: int, failed: Handler, body: string, values: Values)
    returns (served: Outcome<Response>)
    requires IsInt64(now / Second) && lib.parseQuery(body) == Ok(values)
    ensures served.Returned? && served.value.status == 200
    ensures served.value.body.JsonBody? && served.value.body.doc.JObject?
    ensures var members := served.value.body.doc.members;
            "text" in members && members["text"].JString? && "Sorry" <= members["text"].s
  {
    var router := new Router(TestSecret, failed, []);
    var header := SignedHeader(TestSecret, lib, now / Second, body);
    served := ServeHTTP(router.State(), lib, now, "POST", header, Ok(body));
    SignedRequestDispatched(router.State(), lib, now, body, values);
    assert ApplyAll(Defaults(TestSecret, failed), []) == Defaults(TestSecret, failed);
    var reply := CommandUnknownHandler(Request(values));
    assert "Sorry" <= reply.value.text;
  }
}
