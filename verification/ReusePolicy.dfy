/**
 The workspace's ticket reuse policy: any JSON value is parsed into a normal form, and the policy of
 a channel kind overlays it field by field.
 */
module ReusePolicy {
  import opened Basics
  import opened Words = Text

  /** JSON values with finite numbers; `Number` is a number with a fraction part. */
  datatype Json =
    | Null
    | Bool(b: bool)
    | Integer(i: int)
    | Number(r: real)
    | Text(s: string)
    | List(items: seq<Json>)
    | Object(members: map<string, Json>)

  const DEFAULT_WINDOW_SECONDS := 7 * 24 * 60 * 60
  const WINDOW_MIN_SECONDS := 60
  const WINDOW_MAX_SECONDS := 365 * 24 * 60 * 60
  const CHANNEL_KINDS: seq<string> := ["messaging", "email", "voice"]
  const KEEP := "keep"
  const QUEUE := "queue"

  type ParseInt = string -> Option<int>

  // ---------------------------------------------------------------- single values

  /** Truncation toward zero, as int() does to a float. */
  function Truncate(r: real): int {
    if r >= 0.0 then r.Floor else -((-r).Floor)
  }

  /** Python's int() on a JSON value; None where it raises TypeError or ValueError. */
  function IntOf(value: Json, parse: ParseInt): Option<int> {
    match value
    case Bool(b) => Some(if b then 1 else 0)
    case Integer(i) => Some(i)
    case Number(r) => Some(Truncate(r))
    case Text(s) => parse(s)
    case _ => None
  }

  function Clamp(seconds: int): int {
    if seconds < WINDOW_MIN_SECONDS then WINDOW_MIN_SECONDS
    else if seconds > WINDOW_MAX_SECONDS then WINDOW_MAX_SECONDS
    else seconds
  }

  function ClampWindow(value: Json, fallback: int, parse: ParseInt): int {
    var seconds := IntOf(value, parse);
    if seconds.None? then fallback else Clamp(seconds.value)
  }

  function AsBool(value: Json, fallback: bool): bool {
    match value
    case Bool(b) => b
    case Integer(i) => if i == 0 || i == 1 then i == 1 else fallback
    case Number(r) => if r == 0.0 || r == 1.0 then r == 1.0 else fallback
    case Text(s) => if s in ["0", "1", "true", "false", "True", "False"] then s in ["1", "true", "True"] else fallback
    case _ => fallback
  }

  /** Only a string can spell one of the queue words. */
  function AssigneeMode(value: Json): string {
    if value.Text? && Lower(Strip(value.s)) in ["queue", "unassign", "unassigned"] then QUEUE else KEEP
  }

  // ---------------------------------------------------------------- what single values mean

  /** A float loses its fraction, whichever its sign. */
  lemma TruncateMeans(r: real)
    ensures r >= 0.0 ==> Truncate(r) as real <= r < Truncate(r) as real + 1.0
    ensures r <= 0.0 ==> Truncate(r) as real - 1.0 < r <= Truncate(r) as real
  {
  }

  /** A window below a minute is a minute, one above a year is a year, and any other stands. */
  lemma ClampMeans(seconds: int)
    ensures seconds <= 60 ==> Clamp(seconds) == 60
    ensures 60 <= seconds <= 31_536_000 ==> Clamp(seconds) == seconds
    ensures seconds >= 31_536_000 ==> Clamp(seconds) == 31_536_000
  {
  }

  /** What is no number and spells none leaves the window at its default; a workspace's is a week. */
  lemma WindowMeans(value: Json, fallback: int, parse: ParseInt)
    ensures var window := ClampWindow(value, fallback, parse);
            && (value.Integer? ==> window == Clamp(value.i))
            && (value.Bool? ==> window == 60)
            && (value.Number? ==> window == Clamp(Truncate(value.r)))
            && (value.Text? && parse(value.s).Some? ==> window == Clamp(parse(value.s).value))
            && (value.Null? || value.List? || value.Object? || (value.Text? && parse(value.s).None?) ==>
                  window == fallback)
    ensures ClampWindow(Null, DEFAULT_WINDOW_SECONDS, parse) == 604_800
  {
  }

  /** True, one and their words are true, false, zero and theirs are false, and nothing else is either. */
  lemma AsBoolMeans(value: Json, fallback: bool)
    ensures var yes := value in {Bool(true), Integer(1), Number(1.0), Text("1"), Text("true"), Text("True")};
            var no := value in {Bool(false), Integer(0), Number(0.0), Text("0"), Text("false"), Text("False")};
            AsBool(value, fallback) == (if yes then true else if no then false else fallback)
  {
  }

  lemma ModeMeans(value: Json)
    ensures AssigneeMode(value) == "queue" || AssigneeMode(value) == "keep"
    ensures AssigneeMode(value) == "queue" <==>
              value.Text? && Lower(Strip(value.s)) in {"queue", "unassign", "unassigned"}
  {
  }

  // ---------------------------------------------------------------- the parsed policy

  /** Only the fields a channel overrides are present. */
  datatype Override = Override(window: Option<int>, reopenResolved: Option<bool>, reopenClosed: Option<bool>)

  datatype Policy = Policy(window: int, reopenResolved: bool, reopenClosed: bool, assignee: string,
                           channels: map<string, Override>)

  const NO_OVERRIDE := Override(None, None, None)

  /** `d.get(key)`: null where the value is no object or lacks the key. */
  function Member(value: Json, key: string): Json {
    if value.Object? && key in value.members then value.members[key] else Null
  }

  function ChannelOverride(raw: Json, parse: ParseInt): Override {
    var window, resolved, closed :=
      Member(raw, "window_seconds"), Member(raw, "reopen_resolved"), Member(raw, "reopen_closed");
    Override(
      if window.Null? then None else Some(ClampWindow(window, DEFAULT_WINDOW_SECONDS, parse)),
      if resolved.Null? then None else Some(AsBool(resolved, true)),
      if closed.Null? then None else Some(AsBool(closed, true)))
  }

  function Channels(raw: Json, parse: ParseInt): map<string, Override> {
    map k | k in CHANNEL_KINDS && ChannelOverride(Member(Member(raw, "channels"), k), parse) != NO_OVERRIDE
      :: ChannelOverride(Member(Member(raw, "channels"), k), parse)
  }

  /** The normal form of any JSON value. */
  function Parse(raw: Json, parse: ParseInt): Policy {
    Policy(
      ClampWindow(Member(raw, "window_seconds"), DEFAULT_WINDOW_SECONDS, parse),
      AsBool(Member(raw, "reopen_resolved"), true),
      AsBool(Member(raw, "reopen_closed"), true),
      AssigneeMode(Member(raw, "on_reopen_assignee")),
      Channels(raw, parse))
  }

  /** `parse_ticket_reuse`. */
  method ParseTicketReuse(raw: Json, parse: ParseInt) returns (p: Policy)
    ensures p == Parse(raw, parse)
  {
    var channels: map<string, Override> := map[];
    var nested := Member(raw, "channels");
    for i := 0 to |CHANNEL_KINDS|
      invariant channels == map k | k in CHANNEL_KINDS[..i] && ChannelOverride(Member(nested, k), parse) != NO_OVERRIDE
                              :: ChannelOverride(Member(nested, k), parse)
    {
      assert CHANNEL_KINDS[..i + 1] == CHANNEL_KINDS[..i] + [CHANNEL_KINDS[i]];
      var override := ChannelOverride(Member(nested, CHANNEL_KINDS[i]), parse);
      if override != NO_OVERRIDE {
        channels := channels[CHANNEL_KINDS[i] := override];
      }
    }
    assert CHANNEL_KINDS[..|CHANNEL_KINDS|] == CHANNEL_KINDS;
    p := Policy(
      ClampWindow(Member(raw, "window_seconds"), DEFAULT_WINDOW_SECONDS, parse),
      AsBool(Member(raw, "reopen_resolved"), true),
      AsBool(Member(raw, "reopen_closed"), true),
      AssigneeMode(Member(raw, "on_reopen_assignee")),
      channels);
  }

  // ---------------------------------------------------------------- the effective policy

  datatype Effective = Effective(window: int, reopenResolved: bool, reopenClosed: bool, assignee: string) {
    /** The statuses a ticket may have to be reused. */
    predicate AllowsStatus(status: string) {
      || IsOpenStatus(status)
      || (reopenResolved && status == "resolved")
      || (reopenClosed && status == "closed")
    }
  }

  predicate IsOpenStatus(status: string) {
    status in ["open", "pending", "waiting"]
  }

  /** A window override of 0 would fall back to the workspace, but a clamped window is never 0. */
  function EffectivePolicy(p: Policy, kind: Option<string>): Effective {
    var o := if kind.Some? && kind.value in CHANNEL_KINDS && kind.value in p.channels
             then p.channels[kind.value] else NO_OVERRIDE;
    Effective(
      if o.window.Some? && o.window.value != 0 then o.window.value else p.window,
      if o.reopenResolved.Some? then o.reopenResolved.value else p.reopenResolved,
      if o.reopenClosed.Some? then o.reopenClosed.value else p.reopenClosed,
      p.assignee)
  }

  /** The statuses a policy lets a ticket be reused in. */
  lemma StatusesMean(p: Effective, status: string)
    ensures IsOpenStatus(status) <==> status == "open" || status == "pending" || status == "waiting"
    ensures p.AllowsStatus(status) <==>
              || status == "open" || status == "pending" || status == "waiting"
              || (status == "resolved" && p.reopenResolved)
              || (status == "closed" && p.reopenClosed)
  {
  }

  /** Only these three kinds of channel have a policy of their own. */
  lemma KindsMean(p: Policy, kind: Option<string>)
    requires kind !in {Some("messaging"), Some("email"), Some("voice")} || kind.value !in p.channels
    ensures EffectivePolicy(p, kind) == Effective(p.window, p.reopenResolved, p.reopenClosed, p.assignee)
  {
  }

  /** Their own values take the place of the workspace's, field by field. */
  lemma OverrideMeans(p: Policy, kind: string)
    requires kind in {"messaging", "email", "voice"} && kind in p.channels
    ensures var o, e := p.channels[kind], EffectivePolicy(p, Some(kind));
            && (o.window in {None, Some(0)} ==> e.window == p.window)
            && (o.window !in {None, Some(0)} ==> o.window == Some(e.window))
            && (o.reopenResolved.None? ==> e.reopenResolved == p.reopenResolved)
            && (o.reopenResolved.Some? ==> o.reopenResolved == Some(e.reopenResolved))
            && (o.reopenClosed.None? ==> e.reopenClosed == p.reopenClosed)
            && (o.reopenClosed.Some? ==> o.reopenClosed == Some(e.reopenClosed))
            && e.assignee == p.assignee
  {
  }

  // ---------------------------------------------------------------- the normal form as JSON

  function OverrideJson(o: Override): Json {
    var m0: map<string, Json> := map[];
    var m1 := if o.window.Some? then m0["window_seconds" := Integer(o.window.value)] else m0;
    var m2 := if o.reopenResolved.Some? then m1["reopen_resolved" := Bool(o.reopenResolved.value)] else m1;
    Object(if o.reopenClosed.Some? then m2["reopen_closed" := Bool(o.reopenClosed.value)] else m2)
  }

  function PolicyJson(p: Policy): Json {
    Object(map[
      "window_seconds" := Integer(p.window),
      "reopen_resolved" := Bool(p.reopenResolved),
      "reopen_closed" := Bool(p.reopenClosed),
      "on_reopen_assignee" := Text(p.assignee),
      "channels" := Object(map k | k in p.channels :: OverrideJson(p.channels[k]))])
  }

  predicate InRange(seconds: int) {
    WINDOW_MIN_SECONDS <= seconds <= WINDOW_MAX_SECONDS
  }

  lemma OverrideIsNormal(raw: Json, parse: ParseInt)
    ensures var o := ChannelOverride(raw, parse);
            && (o.window.Some? ==> InRange(o.window.value))
            && ChannelOverride(OverrideJson(o), parse) == o
  {
  }

  lemma ChannelsAreNormal(raw: Json, parse: ParseInt)
    ensures Channels(PolicyJson(Parse(raw, parse)), parse) == Channels(raw, parse)
  {
    var channels := Channels(raw, parse);
    var nested := Member(PolicyJson(Parse(raw, parse)), "channels");
    forall k | k in CHANNEL_KINDS
      ensures ChannelOverride(Member(nested, k), parse) == if k in channels then channels[k] else NO_OVERRIDE
    {
      OverrideIsNormal(Member(Member(raw, "channels"), k), parse);
    }
  }

  lemma ModeWordsAreFixed()
    ensures Lower(Strip(KEEP)) == KEEP && Lower(Strip(QUEUE)) == QUEUE
  {
    assert Strip(KEEP) == KEEP && Strip(QUEUE) == QUEUE;
  }

  /** Parsing is idempotent: the normal form, written back as JSON, parses to itself. */
  lemma ParseIsIdempotent(raw: Json, parse: ParseInt)
    ensures Parse(PolicyJson(Parse(raw, parse)), parse) == Parse(raw, parse)
  {
    ModeWordsAreFixed();
    ChannelsAreNormal(raw, parse);
  }

  /** The workspace's own value of a field and the channel's, each read from its own place. */
  lemma FieldsOverrideIndependently(raw: Json, kind: Option<string>, parse: ParseInt)
    ensures var e := EffectivePolicy(Parse(raw, parse), kind);
            var own := if kind.Some? && kind.value in CHANNEL_KINDS
                      then Member(Member(raw, "channels"), kind.value) else Null;
            && InRange(e.window)
            && e.window == (if Member(own, "window_seconds").Null?
                            then ClampWindow(Member(raw, "window_seconds"), DEFAULT_WINDOW_SECONDS, parse)
                            else ClampWindow(Member(own, "window_seconds"), DEFAULT_WINDOW_SECONDS, parse))
            && e.reopenResolved == AsBool(if Member(own, "reopen_resolved").Null? then Member(raw, "reopen_resolved")
                                          else Member(own, "reopen_resolved"), true)
            && e.reopenClosed == AsBool(if Member(own, "reopen_closed").Null? then Member(raw, "reopen_closed")
                                        else Member(own, "reopen_closed"), true)
            && e.assignee == AssigneeMode(Member(raw, "on_reopen_assignee"))
  {
    if kind.Some? {
      OverrideIsNormal(Member(Member(raw, "channels"), kind.value), parse);
    }
  }
}
