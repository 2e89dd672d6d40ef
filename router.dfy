/**
 * router.go: the Router verifies a slash-command request, decodes its
 * form body, looks the command up in its registry and turns the
 * handler's reply into a response. A panicking registered handler is
 * contained and answered by the failed-command handler; the
 * unknown-command handler runs outside that containment.
 */
module Routing {
  import opened Wrappers
  import opened Library
  import opened Requests
  import opened Handlers
  import opened Errors
  import opened Responses
  import opened Verifier
  import opened Options

  const FormContentType: string := "application/x-www-form-urlencoded"

  /** The fields of a Router, as one value. */
  datatype RouterState = RouterState(
    logger: Logger,
    signingSecret: string,
    middleware: Option<Middleware>,
    commands: map<string, Handler>,
    commandUnknownHandler: Handler,
    commandFailedHandler: Handler)

  /**
   * NewRouter's fields before any option: the default logger, no
   * middleware, no commands, the default unknown-command handler. The
   * package's default failed-command handler is given as a parameter.
   */
  function Defaults(signingSecret: string, commandFailedHandler: Handler): (st: RouterState)
    ensures st.signingSecret == signingSecret && st.commands == map[] && st.middleware == None
    ensures st.logger == DefaultLogger && st.commandUnknownHandler == CommandUnknownHandler
    ensures st.commandFailedHandler == commandFailedHandler
  {
    RouterState(DefaultLogger, signingSecret, None, map[], CommandUnknownHandler, commandFailedHandler)
  }

  /** routerOption.apply: each option overwrites its one field. */
  function Apply(opt: RouterOption, st: RouterState): (st': RouterState)
    ensures opt.WithLogger? ==> st' == st.(logger := opt.logger)
    ensures opt.WithCommandUnknownHandler? ==> st' == st.(commandUnknownHandler := opt.handler)
  {
    match opt
    case WithLogger(logger) => st.(logger := logger)
    case WithCommandUnknownHandler(handler) => st.(commandUnknownHandler := handler)
  }

  /**
   * The options applied in order. Options change only the logger and the
   * unknown-command handler.
   */
  function ApplyAll(st: RouterState, opts: seq<RouterOption>): (st': RouterState)
    ensures st' == st.(logger := st'.logger, commandUnknownHandler := st'.commandUnknownHandler)
    decreases |opts|
  {
    if opts == [] then st else Apply(opts[|opts| - 1], ApplyAll(st, opts[..|opts| - 1]))
  }

  /** Without a logger option the logger is left as it was. */
  lemma {:induction false} LoggerKeptWithoutOption(st: RouterState, opts: seq<RouterOption>)
    requires forall j :: 0 <= j < |opts| ==> !opts[j].WithLogger?
    ensures ApplyAll(st, opts).logger == st.logger
    decreases |opts|
  {
    if opts != [] {
      LoggerKeptWithoutOption(st, opts[..|opts| - 1]);
    }
  }

  /** The last logger option wins. */
  lemma {:induction false} LastLoggerWins(st: RouterState, opts: seq<RouterOption>, i: nat)
    requires i < |opts| && opts[i].WithLogger?
    requires forall j :: i < j < |opts| ==> !opts[j].WithLogger?
    ensures ApplyAll(st, opts).logger == opts[i].logger
    decreases |opts|
  {
    if i < |opts| - 1 {
      var init := opts[..|opts| - 1];
      assert init[i] == opts[i];
      LastLoggerWins(st, init, i);
    }
  }

  /** Without an unknown-command option the handler is left as it was. */
  lemma {:induction false} UnknownHandlerKeptWithoutOption(st: RouterState, opts: seq<RouterOption>)
    requires forall j :: 0 <= j < |opts| ==> !opts[j].WithCommandUnknownHandler?
    ensures ApplyAll(st, opts).commandUnknownHandler == st.commandUnknownHandler
    decreases |opts|
  {
    if opts != [] {
      UnknownHandlerKeptWithoutOption(st, opts[..|opts| - 1]);
    }
  }

  /** The last unknown-command option wins. */
  lemma {:induction false} LastUnknownHandlerWins(st: RouterState, opts: seq<RouterOption>, i: nat)
    requires i < |opts| && opts[i].WithCommandUnknownHandler?
    requires forall j :: i < j < |opts| ==> !opts[j].WithCommandUnknownHandler?
    ensures ApplyAll(st, opts).commandUnknownHandler == opts[i].handler
    decreases |opts|
  {
    if i < |opts| - 1 {
      var init := opts[..|opts| - 1];
      assert init[i] == opts[i];
      LastUnknownHandlerWins(st, init, i);
    }
  }

  class Router {
    var logger: Logger
    var signingSecret: string
    var middleware: Option<Middleware>
    var commands: map<string, Handler>
    var commandUnknownHandler: Handler
    var commandFailedHandler: Handler

    function State(): RouterState
      reads this
    {
      RouterState(logger, signingSecret, middleware, commands, commandUnknownHandler, commandFailedHandler)
    }

    /** NewRouter: the defaults, then every option in order. */
    constructor (signingSecret: string, commandFailedHandler: Handler, opts: seq<RouterOption>)
      ensures State() == ApplyAll(Defaults(signingSecret, commandFailedHandler), opts)
    {
      this.logger := DefaultLogger;
      this.signingSecret := signingSecret;
      this.middleware := None;
      this.commands := map[];
      this.commandUnknownHandler := CommandUnknownHandler;
      this.commandFailedHandler := commandFailedHandler;
      new;
      for i := 0 to |opts|
        invariant State() == ApplyAll(Defaults(signingSecret, commandFailedHandler), opts[..i])
      {
        ApplyOption(opts[i]);
        assert opts[..i + 1][..i] == opts[..i];
      }
      assert opts[..|opts|] == opts;
    }

    /** opt.apply(r): the option overwrites its one field in place. */
    method ApplyOption(opt: RouterOption)
      modifies this
      ensures State() == Apply(opt, old(State()))
    {
      match opt
      case WithLogger(l) => logger := l;
      case WithCommandUnknownHandler(h) => commandUnknownHandler := h;
    }

    /** RegisterCommand: the command now maps to the handler, replacing any earlier one. */
    method RegisterCommand(command: string, handler: Handler)
      modifies this
      ensures State() == old(State()).(commands := old(commands)[command := handler])
      ensures command in commands && commands[command] == handler
      ensures forall c :: c != command ==> (c in commands <==> c in old(commands))
      ensures forall c :: c != command && c in commands ==> commands[c] == old(commands)[c]
    {
      commands := commands[command := handler];
    }
  }

  /** A handler's outcome as a response: a reply goes through jsonResponse, a panic stays a panic. */
  function Reply(result: Outcome<Value>): (r: Outcome<Response>)
    ensures r.Panicked? <==> result.Panicked?
    ensures r.Returned? ==> r.value == JsonResponse(result.value) && r.value.status == 200
  {
    match result
    case Panicked => Panicked
    case Returned(v) => Returned(JsonResponse(v))
  }

  /** The handler that runs for a registered command: wrapped by the middleware, if any. */
  function Resolve(st: RouterState, handler: Handler): (h: Handler)
    ensures st.middleware == None ==> h == handler
    ensures st.middleware.Some? ==> h == st.middleware.value(handler)
  {
    if st.middleware.Some? then st.middleware.value(handler) else handler
  }

  /**
   * The dispatch half of HandleCommand (router.go:106-122). An unknown
   * command gets the unknown-command handler, unwrapped and unprotected;
   * a registered command's handler runs wrapped, and if it panics the
   * failed-command handler answers instead.
   */
  function Dispatch(st: RouterState, req: Request): (r: Outcome<Response>)
    ensures req.Command() !in st.commands ==> r == Reply(st.commandUnknownHandler(req))
    ensures req.Command() in st.commands ==>
              var result := Resolve(st, st.commands[req.Command()])(req);
              r == if result.Returned? then Reply(result) else Reply(st.commandFailedHandler(req))
    ensures r.Returned? ==> r.value.status == 200
  {
    var command := req.Command();
    if command !in st.commands then Reply(st.commandUnknownHandler(req))
    else
      match Resolve(st, st.commands[command])(req)
      case Returned(v) => Returned(JsonResponse(v))
      case Panicked => Reply(st.commandFailedHandler(req))
  }

  /**
   * HandleCommand: 400 for any Content-Type but the form encoding, before
   * verification; 401 when verification fails; 400 when the body does not
   * decode; otherwise the dispatched command's response.
   */
  function HandleCommand(st: RouterState, lib: Library, now: int, header: Values, body: string): (r: Outcome<Response>)
    ensures var contentType := Get(header, "Content-Type");
            contentType != FormContentType ==>
              r == Returned(Response(400, PlainResponseHeader(),
                                     TextBody("requires " + FormContentType + ", not " + contentType), None))
    ensures Get(header, "Content-Type") == FormContentType ==>
              var verdict := VerifyRequest(st.signingSecret, lib, now, header, body);
              && (verdict.Rejected? ==> r == Returned(ErrorResponse(lib, 401, verdict.reason)))
              && (verdict.Accepted? && lib.parseQuery(body).Err? ==>
                    r == Returned(ErrorResponse(lib, 400, InvalidBody(lib.parseQuery(body).error))))
              && (verdict.Accepted? && lib.parseQuery(body).Ok? ==>
                    r == Dispatch(st, Request(lib.parseQuery(body).value)))
  {
    var contentType := Get(header, "Content-Type");
    if contentType != FormContentType then
      Returned(Response(400, PlainResponseHeader(),
                        TextBody("requires " + FormContentType + ", not " + contentType), None))
    else
      match VerifyRequest(st.signingSecret, lib, now, header, body)
      case Rejected(reason) => Returned(ErrorResponse(lib, 401, reason))
      case Accepted =>
        match lib.parseQuery(body)
        case Err(cause) => Returned(ErrorResponse(lib, 400, InvalidBody(cause)))
        case Ok(values) => Dispatch(st, Request(values))
  }

  /**
   * ServeHTTP: 405 for any method but POST, before the body is read; 400
   * when the body cannot be read; 500 when HandleCommand reports an error;
   * otherwise what HandleCommand answered. `read` is the outcome of reading
   * the body.
   */
  function ServeHTTP(st: RouterState, lib: Library, now: int, verb: string, header: Values,
                     read: Result<string, string>): (r: Outcome<Response>)
    ensures verb != "POST" ==> r == Returned(ErrorResponse(lib, 405, MethodNotAllowed(verb)))
    ensures verb == "POST" && read.Err? ==> r == Returned(ErrorResponse(lib, 400, ReadFailed(read.error)))
    ensures verb == "POST" && read.Ok? ==>
              var handled := HandleCommand(st, lib, now, header, read.value);
              && (handled.Panicked? <==> r.Panicked?)
              && (handled.Returned? && handled.value.err.Some? ==>
                    r == Returned(ErrorResponse(lib, 500, handled.value.err.value)))
              && (handled.Returned? && handled.value.err.None? ==> r == handled)
    ensures r.Returned? ==> r.value.err == None && r.value.status in {200, 400, 401, 405, 500}
  {
    if verb != "POST" then Returned(ErrorResponse(lib, 405, MethodNotAllowed(verb)))
    else
      match read
      case Err(cause) => Returned(ErrorResponse(lib, 400, ReadFailed(cause)))
      case Ok(body) =>
        match HandleCommand(st, lib, now, header, body)
        case Panicked => Panicked
        case Returned(response) =>
          if response.err.Some? then Returned(ErrorResponse(lib, 500, response.err.value))
          else Returned(response)
  }
}
