/**
 * options.go: the router's defaults and the options that override them.
 * The clock-skew rule of the same file is in module Clock.
 */
module Options {
  import opened Wrappers
  import opened Requests
  import opened Handlers

  /** The logger the router hands to each request. */
  datatype Logger =
    | NoopLogger                 // discards everything
    | StandardLogger(prefix: string) // log.New(os.Stderr, prefix, log.LstdFlags)
    | CustomLogger(id: nat)      // a Logger supplied by the integrator

  /** getLogger: a standard-error logger with the prefix "slash: ". */
  const DefaultLogger: Logger := StandardLogger("slash: ")

  /** A RouterOption, named by the function that makes it. */
  datatype RouterOption =
    | WithLogger(logger: Logger)
    | WithCommandUnknownHandler(handler: Handler)

  /** WithoutLogger: the logger option with a logger that discards everything. */
  function WithoutLogger(): (opt: RouterOption)
    ensures opt.WithLogger? && opt.logger.NoopLogger?
  {
    WithLogger(NoopLogger)
  }

  /**
   * commandUnknownHandler: an ephemeral apology that names the user and
   * the command. It never panics.
   */
  function CommandUnknownHandler(req: Request): (r: Outcome<Value>)
    ensures r.Returned? && r.value.TextResponse?
    ensures "Sorry " + req.UserName() + ", " <= r.value.text
    ensures var tail := "`" + req.Command() + "` command.";
            |tail| <= |r.value.text| && r.value.text[|r.value.text| - |tail|..] == tail
  {
    Returned(TextResponse("Sorry " + req.UserName() + ", I don't know how to handle the `"
                          + req.Command() + "` command."))
  }
}
