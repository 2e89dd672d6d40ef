/**
 * request.go: a slash-command request is the decoded form body, a map
 * from field name to its values, read through thirteen field accessors.
 */
module Requests {
  import opened Library

  /**
   * url.Values.Get and http.Header.Get: the first value stored under the
   * key, or "" when the key is absent or has no values.
   */
  function Get(values: Values, key: string): (v: string)
    ensures key !in values || values[key] == [] ==> v == ""
    ensures key in values && values[key] != [] ==> v == values[key][0]
  {
    if key in values && |values[key]| > 0 then values[key][0] else ""
  }

  /** The thirteen fields a slash request carries. */
  datatype Field =
    | Token | TeamId | TeamDomain | EnterpriseId | EnterpriseName
    | ChannelId | ChannelName | UserId | UserName | Command
    | Text | ResponseUrl | TriggerId

  /** The form key of each field. */
  function Key(f: Field): string {
    match f
    case Token => "token"
    case TeamId => "team_id"
    case TeamDomain => "team_domain"
    case EnterpriseId => "enterprise_id"
    case EnterpriseName => "enterprise_name"
    case ChannelId => "channel_id"
    case ChannelName => "channel_name"
    case UserId => "user_id"
    case UserName => "user_name"
    case Command => "command"
    case Text => "text"
    case ResponseUrl => "response_url"
    case TriggerId => "trigger_id"
  }

  datatype Request = Request(values: Values) {

    /** The value of a field: absent reads as "", several values read as the first. */
    function Value(f: Field): (v: string)
      ensures Key(f) !in values || values[Key(f)] == [] ==> v == ""
      ensures Key(f) in values && values[Key(f)] != [] ==> v == values[Key(f)][0]
    {
      Get(values, Key(f))
    }

    function Token(): (v: string) ensures v == Value(Field.Token) { Get(values, "token") }
    function TeamID(): (v: string) ensures v == Value(Field.TeamId) { Get(values, "team_id") }
    function TeamDomain(): (v: string) ensures v == Value(Field.TeamDomain) { Get(values, "team_domain") }
    function EnterpriseID(): (v: string) ensures v == Value(Field.EnterpriseId) { Get(values, "enterprise_id") }
    function EnterpriseName(): (v: string) ensures v == Value(Field.EnterpriseName) { Get(values, "enterprise_name") }
    function ChannelID(): (v: string) ensures v == Value(Field.ChannelId) { Get(values, "channel_id") }
    function ChannelName(): (v: string) ensures v == Value(Field.ChannelName) { Get(values, "channel_name") }
    function UserID(): (v: string) ensures v == Value(Field.UserId) { Get(values, "user_id") }
    function UserName(): (v: string) ensures v == Value(Field.UserName) { Get(values, "user_name") }
    function Command(): (v: string) ensures v == Value(Field.Command) { Get(values, "command") }
    function Text(): (v: string) ensures v == Value(Field.Text) { Get(values, "text") }
    function ResponseURL(): (v: string) ensures v == Value(Field.ResponseUrl) { Get(values, "response_url") }
    function TriggerID(): (v: string) ensures v == Value(Field.TriggerId) { Get(values, "trigger_id") }

    /** The request with a field's values replaced. */
    function With(f: Field, vs: seq<string>): Request {
      Request(values[Key(f) := vs])
    }
  }

  /** No two fields share a key. */
  lemma KeysDistinct(f: Field, g: Field)
    requires f != g
    ensures Key(f) != Key(g)
  {
  }

  /** Setting one field changes that field's accessor and no other. */
  lemma WithChangesOnlyItsField(req: Request, f: Field, vs: seq<string>, g: Field)
    ensures req.With(f, vs).Value(g) == if f != g then req.Value(g) else if vs == [] then "" else vs[0]
  {
    if f != g {
      KeysDistinct(f, g);
    }
  }

  /** The request of request_test.go: every field set to "<key> value". */
  function FilledRequest(): Request {
    Request(map f: Field | true :: Key(f) := [Key(f) + " value"])
  }

  /** In that request each accessor reads its own key's value. */
  lemma FilledRequestReadsOwnKeys(f: Field)
    ensures FilledRequest().Value(f) == Key(f) + " value"
  {
    var m := FilledRequest().values;
    assert Key(f) in m;
    var g :| Key(g) == Key(f) && m[Key(f)] == [Key(g) + " value"];
  }
}
