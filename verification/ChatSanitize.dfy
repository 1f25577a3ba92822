/** What the repository stores of a conversation: `capText`, `sumTurnMetrics` and `sanitizeTurns` of `ai-chat-turns.ts`. */
module ChatSanitize {
  import opened ChatTurns
  import opened Options
  import opened Sequences

  const AI_TOOL_RESULT_MAX_CHARS: nat := 32000
  const CUT_NOTE := "\n…[truncated at 32000 characters]"

  /** A value `JSON.parse` gives; numbers are finite. */
  datatype Json = Null | Bool(b: bool) | Num(n: real) | Str(s: string) | Arr(items: seq<Json>) | Obj(fields: Fields)

  /** The fields of an object this code looks at; one that is missing reads like `null`. */
  datatype Fields = Fields(
    status: Json, ttfbMs: Json, durationMs: Json, usageReported: Json, inputTokens: Json, outputTokens: Json,
    cachedTokens: Json, reasoningTokens: Json, error: Json, name: Json, value: Json, masked: Json, dangerous: Json,
    typ: Json, text: Json, id: Json, serverId: Json, server: Json, tool: Json, argsJson: Json, content: Json,
    callId: Json, isError: Json, truncated: Json, kind: Json, envNames: Json, env: Json, message: Json,
    commandLine: Json, calls: Json, timestamp: Json, role: Json, template: Json, parts: Json, metrics: Json,
    usagePartial: Json, totalTokens: Json)

  const NO_FIELDS := Fields(
    Null, Null, Null, Null, Null, Null, Null, Null, Null, Null, Null, Null, Null, Null, Null, Null, Null, Null, Null,
    Null, Null, Null, Null, Null, Null, Null, Null, Null, Null, Null, Null, Null, Null, Null, Null, Null, Null)

  datatype Call = Call(status: Option<real>, ttfbMs: Option<real>, durationMs: real, usageReported: bool,
                       tokens: Tokens, error: Option<string>)

  datatype Tokens = Tokens(input: Option<real>, output: Option<real>, cached: Option<real>, reasoning: Option<real>)

  datatype TokenField = InputTokens | OutputTokens | CachedTokens | ReasoningTokens

  datatype Metrics = Metrics(calls: seq<Call>, status: Option<real>, ttfbMs: Option<real>, durationMs: real,
                             usageReported: bool, usagePartial: bool, totals: Tokens,
                             totalTokens: Option<real>)

  datatype StoredTurn =
    | User(id: string, content: string, template: Option<string>, timestamp: real)
    | Assistant(id: string, content: string, parts: Option<seq<Part>>, truncated: bool, error: Option<string>,
                metrics: Option<Metrics>, timestamp: real)

  // ---- Text ----

  function Cut(s: string, max: nat): string {
    if |s| <= max then s else s[..max]
  }

  function Capped(text: string): string {
    if |text| <= AI_TOOL_RESULT_MAX_CHARS then text else text[..AI_TOOL_RESULT_MAX_CHARS] + CUT_NOTE
  }

  predicate IsTooLong(text: string) {
    |text| > AI_TOOL_RESULT_MAX_CHARS
  }

  /** Capping a capped text changes nothing, although it is longer than the cap because of its note. */
  lemma {:induction false} CappedTwice(text: string)
    ensures Capped(Capped(text)) == Capped(text)
    ensures IsTooLong(Capped(text)) == IsTooLong(text)
  {
    if IsTooLong(text) {
      var c := Capped(text);
      assert c[..AI_TOOL_RESULT_MAX_CHARS] == text[..AI_TOOL_RESULT_MAX_CHARS];
    }
  }

  // ---- Metrics ----

  function Pick(c: Call, field: TokenField): Option<real> {
    match field
    case InputTokens => c.tokens.input
    case OutputTokens => c.tokens.output
    case CachedTokens => c.tokens.cached
    case ReasoningTokens => c.tokens.reasoning
  }

  /** `sum(pick)`: `None` when no reporting call has the number. */
  function Sum(calls: seq<Call>, field: TokenField): Option<real> {
    if calls == [] then None
    else
      var before := Sum(calls[..|calls| - 1], field);
      var c := calls[|calls| - 1];
      if c.usageReported && Pick(c, field).Some? then Some(ValueOr(before, 0.0) + Pick(c, field).value) else before
  }

  function Duration(calls: seq<Call>): real {
    if calls == [] then 0.0 else Duration(calls[..|calls| - 1]) + calls[|calls| - 1].durationMs
  }

  function Reporting(calls: seq<Call>): nat {
    if calls == [] then 0 else Reporting(calls[..|calls| - 1]) + if calls[|calls| - 1].usageReported then 1 else 0
  }

  function ValueOr(v: Option<real>, d: real): real {
    if v.Some? then v.value else d
  }

  /** The totals are the sums over the calls that reported; partial means some did and some did not. */
  ghost predicate IsTotal(calls: seq<Call>, m: Metrics) {
    && m.calls == calls
    && m.status == (if calls == [] then None else calls[|calls| - 1].status)
    && m.ttfbMs == (if calls == [] then None else calls[0].ttfbMs)
    && m.durationMs == Duration(calls)
    && m.usageReported == (Reporting(calls) > 0)
    && m.usagePartial == (0 < Reporting(calls) < |calls|)
    && m.totals == Tokens(Sum(calls, InputTokens), Sum(calls, OutputTokens), Sum(calls, CachedTokens),
                          Sum(calls, ReasoningTokens))
    && m.totalTokens == (if Sum(calls, InputTokens).None? && Sum(calls, OutputTokens).None? then None
                         else Some(ValueOr(Sum(calls, InputTokens), 0.0) + ValueOr(Sum(calls, OutputTokens), 0.0)))
  }

  function Summed(calls: seq<Call>): (m: Metrics)
    ensures IsTotal(calls, m)
  {
    var input, output := Sum(calls, InputTokens), Sum(calls, OutputTokens);
    Metrics(calls,
            if calls == [] then None else calls[|calls| - 1].status,
            if calls == [] then None else calls[0].ttfbMs,
            Duration(calls), Reporting(calls) > 0, 0 < Reporting(calls) < |calls|,
            Tokens(input, output, Sum(calls, CachedTokens), Sum(calls, ReasoningTokens)),
            if input.None? && output.None? then None else Some(ValueOr(input, 0.0) + ValueOr(output, 0.0)))
  }

  method SumOf(calls: seq<Call>, field: TokenField) returns (r: Option<real>)
    ensures r == Sum(calls, field)
  {
    var any := false;
    var total := 0.0;
    for i := 0 to |calls|
      invariant Sum(calls[..i], field) == if any then Some(total) else None
      invariant !any ==> total == 0.0
    {
      assert calls[..i + 1][..i] == calls[..i];
      if calls[i].usageReported && Pick(calls[i], field).Some? {
        any := true;
        total := total + Pick(calls[i], field).value;
      }
    }
    assert calls[..|calls|] == calls;
    r := if any then Some(total) else None;
  }

  method SumTurnMetrics(calls: seq<Call>) returns (m: Metrics)
    ensures IsTotal(calls, m)
  {
    var reporting := 0;
    var duration := 0.0;
    for i := 0 to |calls|
      invariant reporting == Reporting(calls[..i]) && duration == Duration(calls[..i])
    {
      assert calls[..i + 1][..i] == calls[..i];
      reporting := reporting + if calls[i].usageReported then 1 else 0;
      duration := duration + calls[i].durationMs;
    }
    assert calls[..|calls|] == calls;
    var input := SumOf(calls, InputTokens);
    var output := SumOf(calls, OutputTokens);
    var cached := SumOf(calls, CachedTokens);
    var reasoning := SumOf(calls, ReasoningTokens);
    m := Metrics(calls,
                 if |calls| > 0 then calls[|calls| - 1].status else None,
                 if |calls| > 0 then calls[0].ttfbMs else None,
                 duration, reporting > 0, reporting > 0 && reporting < |calls|,
                 Tokens(input, output, cached, reasoning),
                 if input.Some? || output.Some? then Some(ValueOr(input, 0.0) + ValueOr(output, 0.0)) else None);
  }

  // ---- Reading raw values ----

  function StrOr(v: Json, d: string): string {
    if v.Str? then v.s else d
  }

  function NumOf(v: Json): Option<real> {
    if v.Num? then Some(v.n) else None
  }

  function StrOf(v: Json): Option<string> {
    if v.Str? then Some(v.s) else None
  }

  function CutOf(v: Json, max: nat): Option<string> {
    if v.Str? then Some(Cut(v.s, max)) else None
  }

  function SanitizeCall(raw: Json): Option<Call> {
    if !raw.Obj? then None
    else
      var o := raw.fields;
      Some(Call(NumOf(o.status), NumOf(o.ttfbMs), ValueOr(NumOf(o.durationMs), 0.0),
                o.usageReported == Bool(true),
                Tokens(NumOf(o.inputTokens), NumOf(o.outputTokens), NumOf(o.cachedTokens),
                       NumOf(o.reasoningTokens)),
                CutOf(o.error, 2000)))
  }

  function StatusOf(s: string): ToolStatus {
    if s == "approved" then Approved else if s == "denied" then Denied else if s == "done" then Done else Error
  }

  function KindOf(s: string): Option<NoticeKind> {
    if s == "loop-cap" then Some(LoopCap)
    else if s == "server-error" then Some(ServerError)
    else if s == "stdio-untrusted" then Some(StdioUntrusted)
    else None
  }

  function TrustOf(v: Json): Option<TrustStatus> {
    if v == Str("trusted") then Some(Trusted)
    else if v == Str("pending") || v == Str("skipped") then Some(Skipped)
    else None
  }

  function Strings(items: seq<Json>): seq<string> {
    if items == [] then []
    else if items[0].Str? then [items[0].s] + Strings(items[1..])
    else Strings(items[1..])
  }

  function EnvEntryOf(o: Fields): EnvEntry {
    EnvEntry(Cut(StrOr(o.name, ""), 256), Cut(StrOr(o.value, ""), 16000),
             o.masked == Bool(true), o.dangerous == Bool(true))
  }

  function EnvEntries(items: seq<Json>): seq<EnvEntry> {
    if items == [] then []
    else if items[0].Obj? then [EnvEntryOf(items[0].fields)] + EnvEntries(items[1..])
    else EnvEntries(items[1..])
  }

  function SanitizeNotice(o: Fields): Option<Part> {
    var kind := KindOf(StrOr(o.kind, ""));
    if kind.None? then None
    else
      Some(Notice(StrOr(o.id, ""), kind.value, StrOf(o.serverId), StrOf(o.server),
                  CutOf(o.message, 2000), CutOf(o.commandLine, 4000),
                  if o.envNames.Arr? then Some(Strings(o.envNames.items)) else None,
                  if o.env.Arr? then Some(EnvEntries(o.env.items)) else None,
                  TrustOf(o.status)))
  }

  /** A stored turn has ended: a call or a trust card is waiting no more. */
  function SanitizePart(raw: Json): Option<Part> {
    if !raw.Obj? then None
    else
      var o := raw.fields;
      var kind := o.typ;
      if kind == Str("text") then Some(Text(StrOr(o.text, "")))
      else if kind == Str("tool_call") then
        Some(ToolCall(StrOr(o.id, ""), StrOr(o.serverId, ""), StrOr(o.server, ""),
                      StrOr(o.tool, ""), Capped(StrOr(o.argsJson, "")),
                      StatusOf(StrOr(o.status, ""))))
      else if kind == Str("tool_result") then
        var content := StrOr(o.content, "");
        Some(ToolResult(StrOr(o.callId, ""), Capped(content), o.isError == Bool(true),
                        IsTooLong(content) || o.truncated == Bool(true)))
      else if kind == Str("notice") then SanitizeNotice(o)
      else None
  }

  function SanitizeParts(items: seq<Json>): seq<Part> {
    if items == [] then []
    else
      var p := SanitizePart(items[0]);
      (if p.Some? then [p.value] else []) + SanitizeParts(items[1..])
  }

  function SanitizeCalls(items: seq<Json>): seq<Call> {
    if items == [] then []
    else
      var c := SanitizeCall(items[0]);
      (if c.Some? then [c.value] else []) + SanitizeCalls(items[1..])
  }

  function SanitizeMetrics(v: Json): Option<Metrics> {
    if v.Obj? && v.fields.calls.Arr? then Some(Summed(SanitizeCalls(v.fields.calls.items))) else None
  }

  /** One turn; `now` stamps a turn that has no time of its own. */
  function SanitizeTurn(raw: Json, now: real): Option<StoredTurn> {
    if !raw.Obj? then None
    else
      var o := raw.fields;
      var id := StrOr(o.id, "");
      var timestamp := ValueOr(NumOf(o.timestamp), now);
      var content := StrOr(o.content, "");
      if o.role == Str("user") then
        var template := StrOf(o.template);
        Some(User(id, content, if template == Some(content) then None else template, timestamp))
      else if o.role == Str("assistant") then
        var list := o.parts;
        var parts := if list.Arr? then SanitizeParts(list.items) else [];
        Some(Assistant(id, if TextOfParts(parts) != "" then TextOfParts(parts) else content,
                       if parts == [] then None else Some(parts),
                       o.truncated == Bool(true), CutOf(o.error, 4000),
                       SanitizeMetrics(o.metrics), timestamp))
      else None
  }

  function Sanitized(items: seq<Json>, now: real): seq<StoredTurn> {
    if items == [] then []
    else
      var t := SanitizeTurn(items[0], now);
      (if t.Some? then [t.value] else []) + Sanitized(items[1..], now)
  }

  method SanitizeTurns(raw: Json, now: real) returns (turns: seq<StoredTurn>)
    ensures turns == if raw.Arr? then Sanitized(raw.items, now) else []
  {
    turns := [];
    if !raw.Arr? {
      return;
    }
    var items := raw.items;
    for i := 0 to |items|
      invariant turns + Sanitized(items[i..], now) == Sanitized(items, now)
    {
      assert items[i..][0] == items[i] && items[i..][1..] == items[i + 1..];
      var t := SanitizeTurn(items[i], now);
      if t.Some? {
        Regrouped(turns, [t.value], Sanitized(items[i + 1..], now));
        turns := turns + [t.value];
      } else {
        assert [] + Sanitized(items[i + 1..], now) == Sanitized(items[i + 1..], now);
      }
    }
    assert items[|items|..] == [];
    assert turns + [] == turns;
  }

  // ---- Writing it out ----

  /** A field that is left out when it is `undefined`. */
  function OptStr(v: Option<string>): Json {
    if v.Some? then Str(v.value) else Null
  }

  function OptNum(v: Option<real>): Json {
    if v.Some? then Num(v.value) else Null
  }

  function OptTrue(b: bool): Json {
    if b then Bool(true) else Null
  }

  function EncodeCall(c: Call): Json {
    Obj(NO_FIELDS.(status := OptNum(c.status), ttfbMs := OptNum(c.ttfbMs), durationMs := Num(c.durationMs),
                   usageReported := Bool(c.usageReported), inputTokens := OptNum(c.tokens.input),
                   outputTokens := OptNum(c.tokens.output), cachedTokens := OptNum(c.tokens.cached),
                   reasoningTokens := OptNum(c.tokens.reasoning), error := OptStr(c.error)))
  }

  function StatusText(s: ToolStatus): string {
    match s
    case PendingApproval => "pending-approval"
    case Approved => "approved"
    case Denied => "denied"
    case Running => "running"
    case Done => "done"
    case Error => "error"
  }

  function KindText(k: NoticeKind): string {
    match k
    case LoopCap => "loop-cap"
    case ServerError => "server-error"
    case StdioUntrusted => "stdio-untrusted"
  }

  function TrustText(t: TrustStatus): string {
    match t
    case Pending => "pending"
    case Trusted => "trusted"
    case Skipped => "skipped"
  }

  function EncodeStrings(names: seq<string>): seq<Json> {
    if names == [] then [] else [Str(names[0])] + EncodeStrings(names[1..])
  }

  function EncodeEnv(env: seq<EnvEntry>): seq<Json> {
    if env == [] then [] else [EncodeEntry(env[0])] + EncodeEnv(env[1..])
  }

  function EncodeEntry(e: EnvEntry): Json {
    Obj(NO_FIELDS.(name := Str(e.name), value := Str(e.value), masked := OptTrue(e.masked),
                   dangerous := OptTrue(e.dangerous)))
  }

  function EncodePart(p: Part): Json {
    match p
    case Text(text) => Obj(NO_FIELDS.(typ := Str("text"), text := Str(text)))
    case ToolCall(id, serverId, server, tool, argsJson, status) =>
      Obj(NO_FIELDS.(typ := Str("tool_call"), id := Str(id), serverId := Str(serverId), server := Str(server),
                     tool := Str(tool), argsJson := Str(argsJson), status := Str(StatusText(status))))
    case ToolResult(callId, content, isError, truncated) =>
      Obj(NO_FIELDS.(typ := Str("tool_result"), callId := Str(callId), content := Str(content),
                     isError := Bool(isError), truncated := OptTrue(truncated)))
    case Notice(id, kind, serverId, server, message, commandLine, envNames, env, trust) =>
      Obj(NO_FIELDS.(typ := Str("notice"), id := Str(id), kind := Str(KindText(kind)), serverId := OptStr(serverId),
                     server := OptStr(server), message := OptStr(message), commandLine := OptStr(commandLine),
                     envNames := if envNames.Some? then Arr(EncodeStrings(envNames.value)) else Null,
                     env := if env.Some? then Arr(EncodeEnv(env.value)) else Null,
                     status := if trust.Some? then Str(TrustText(trust.value)) else Null))
  }

  function EncodeParts(parts: seq<Part>): seq<Json> {
    if parts == [] then [] else [EncodePart(parts[0])] + EncodeParts(parts[1..])
  }

  function EncodeCalls(calls: seq<Call>): seq<Json> {
    if calls == [] then [] else [EncodeCall(calls[0])] + EncodeCalls(calls[1..])
  }

  /** The totals are stored beside the calls; reading looks at the calls only. */
  function EncodeMetrics(m: Metrics): Json {
    Obj(NO_FIELDS.(calls := Arr(EncodeCalls(m.calls)), status := OptNum(m.status), ttfbMs := OptNum(m.ttfbMs),
                   durationMs := Num(m.durationMs), usageReported := Bool(m.usageReported),
                   usagePartial := OptTrue(m.usagePartial), inputTokens := OptNum(m.totals.input),
                   outputTokens := OptNum(m.totals.output), cachedTokens := OptNum(m.totals.cached),
                   reasoningTokens := OptNum(m.totals.reasoning), totalTokens := OptNum(m.totalTokens)))
  }

  function EncodeTurn(t: StoredTurn): Json {
    match t
    case User(id, content, template, timestamp) =>
      Obj(NO_FIELDS.(id := Str(id), role := Str("user"), content := Str(content), timestamp := Num(timestamp),
                     template := OptStr(template)))
    case Assistant(id, content, parts, truncated, error, metrics, timestamp) =>
      Obj(NO_FIELDS.(id := Str(id), role := Str("assistant"), content := Str(content), timestamp := Num(timestamp),
                     parts := if parts.Some? then Arr(EncodeParts(parts.value)) else Null,
                     truncated := OptTrue(truncated), error := OptStr(error),
                     metrics := if metrics.Some? then EncodeMetrics(metrics.value) else Null))
  }

  function Encoded(turns: seq<StoredTurn>): seq<Json> {
    if turns == [] then [] else [EncodeTurn(turns[0])] + Encoded(turns[1..])
  }

  // ---- Reading what was stored ----

  /** Nothing a second pass would still change. */
  predicate TidyCall(c: Call) {
    c.error.Some? ==> |c.error.value| <= 2000
  }

  predicate TidyEntry(e: EnvEntry) {
    |e.name| <= 256 && |e.value| <= 16000
  }

  ghost predicate TidyEnv(env: seq<EnvEntry>) {
    env == [] || (TidyEntry(env[0]) && TidyEnv(env[1..]))
  }

  ghost predicate TidyPart(p: Part) {
    match p
    case Text(_) => true
    case ToolCall(_, _, _, _, argsJson, status) => Capped(argsJson) == argsJson && !status.PendingApproval? && !status.Running?
    case ToolResult(_, content, _, truncated) => Capped(content) == content && (IsTooLong(content) ==> truncated)
    case Notice(_, _, _, _, message, commandLine, _, env, trust) =>
      && (message.Some? ==> |message.value| <= 2000)
      && (commandLine.Some? ==> |commandLine.value| <= 4000)
      && (env.Some? ==> TidyEnv(env.value))
      && trust != Some(Pending)
  }

  ghost predicate TidyParts(parts: seq<Part>) {
    parts == [] || (TidyPart(parts[0]) && TidyParts(parts[1..]))
  }

  ghost predicate TidyCalls(calls: seq<Call>) {
    calls == [] || (TidyCall(calls[0]) && TidyCalls(calls[1..]))
  }

  ghost predicate TidyTurn(t: StoredTurn) {
    match t
    case User(_, content, template, _) => template != Some(content)
    case Assistant(_, content, parts, _, error, metrics, _) =>
      && (parts.Some? ==> parts.value != [] && TidyParts(parts.value))
      && (parts.Some? && TextOfParts(parts.value) != "" ==> content == TextOfParts(parts.value))
      && (error.Some? ==> |error.value| <= 4000)
      && (metrics.Some? ==> TidyCalls(metrics.value.calls) && metrics.value == Summed(metrics.value.calls))
  }

  ghost predicate TidyTurns(turns: seq<StoredTurn>) {
    turns == [] || (TidyTurn(turns[0]) && TidyTurns(turns[1..]))
  }

  // What sanitizing gives is tidy.

  lemma {:induction false} EnvIsTidy(items: seq<Json>)
    ensures TidyEnv(EnvEntries(items))
  {
    if items == [] {
    } else {
      EnvIsTidy(items[1..]);
      if items[0].Obj? {
        assert ([EnvEntryOf(items[0].fields)] + EnvEntries(items[1..]))[1..] == EnvEntries(items[1..]);
      }
    }
  }

  lemma {:induction false} PartIsTidy(raw: Json)
    ensures SanitizePart(raw).Some? ==> TidyPart(SanitizePart(raw).value)
  {
    if raw.Obj? {
      var o := raw.fields;
      CappedTwice(StrOr(o.argsJson, ""));
      CappedTwice(StrOr(o.content, ""));
      if o.env.Arr? {
        EnvIsTidy(o.env.items);
      }
    }
  }

  lemma {:induction false} PartsAreTidy(items: seq<Json>)
    ensures TidyParts(SanitizeParts(items))
  {
    if items == [] {
    } else {
      PartsAreTidy(items[1..]);
      PartIsTidy(items[0]);
      var p := SanitizePart(items[0]);
      if p.Some? {
        assert ([p.value] + SanitizeParts(items[1..]))[1..] == SanitizeParts(items[1..]);
      } else {
        assert [] + SanitizeParts(items[1..]) == SanitizeParts(items[1..]);
      }
    }
  }

  lemma {:induction false} CallsAreTidy(items: seq<Json>)
    ensures TidyCalls(SanitizeCalls(items))
  {
    if items == [] {
    } else {
      CallsAreTidy(items[1..]);
      var c := SanitizeCall(items[0]);
      if c.Some? {
        assert ([c.value] + SanitizeCalls(items[1..]))[1..] == SanitizeCalls(items[1..]);
      } else {
        assert [] + SanitizeCalls(items[1..]) == SanitizeCalls(items[1..]);
      }
    }
  }

  lemma {:induction false} TurnIsTidy(raw: Json, now: real)
    ensures SanitizeTurn(raw, now).Some? ==> TidyTurn(SanitizeTurn(raw, now).value)
  {
    if raw.Obj? {
      var o := raw.fields;
      if o.parts.Arr? {
        PartsAreTidy(o.parts.items);
      }
      var m := o.metrics;
      if m.Obj? && m.fields.calls.Arr? {
        CallsAreTidy(m.fields.calls.items);
      }
    }
  }

  lemma {:induction false} TurnsAreTidy(items: seq<Json>, now: real)
    ensures TidyTurns(Sanitized(items, now))
  {
    if items == [] {
    } else {
      TurnsAreTidy(items[1..], now);
      TurnIsTidy(items[0], now);
      var t := SanitizeTurn(items[0], now);
      if t.Some? {
        assert ([t.value] + Sanitized(items[1..], now))[1..] == Sanitized(items[1..], now);
      } else {
        assert [] + Sanitized(items[1..], now) == Sanitized(items[1..], now);
      }
    }
  }

  // What is tidy is read back as it was written.

  lemma {:induction false} StringsReadBack(names: seq<string>)
    ensures Strings(EncodeStrings(names)) == names
  {
    if names == [] {
    } else {
      StringsReadBack(names[1..]);
      assert ([Str(names[0])] + EncodeStrings(names[1..]))[1..] == EncodeStrings(names[1..]);
      assert [names[0]] + names[1..] == names;
    }
  }

  lemma {:induction false} EnvReadsBack(env: seq<EnvEntry>)
    requires TidyEnv(env)
    ensures EnvEntries(EncodeEnv(env)) == env
  {
    if env == [] {
    } else {
      EnvReadsBack(env[1..]);
      assert ([EncodeEntry(env[0])] + EncodeEnv(env[1..]))[1..] == EncodeEnv(env[1..]);
      assert EnvEntryOf(EncodeEntry(env[0]).fields) == env[0];
      assert [env[0]] + env[1..] == env;
    }
  }

  lemma {:induction false} CallReadsBack(c: Call)
    requires TidyCall(c)
    ensures SanitizeCall(EncodeCall(c)) == Some(c)
  {
  }

  lemma {:induction false} KindReadsBack(k: NoticeKind)
    ensures KindOf(KindText(k)) == Some(k)
  {
    assert |"loop-cap"| == 8 && |"server-error"| == 12 && |"stdio-untrusted"| == 15;
  }

  lemma {:induction false} TrustReadsBack(t: Option<TrustStatus>)
    requires t != Some(Pending)
    ensures TrustOf(if t.Some? then Str(TrustText(t.value)) else Null) == t
  {
  }

  lemma {:induction false} ListsReadBack(p: Part)
    requires p.Notice? && TidyPart(p)
    ensures var o := EncodePart(p).fields;
            && p.envNames == (if o.envNames.Arr? then Some(Strings(o.envNames.items)) else None)
            && p.env == (if o.env.Arr? then Some(EnvEntries(o.env.items)) else None)
  {
    if p.envNames.Some? {
      StringsReadBack(p.envNames.value);
    }
    if p.env.Some? {
      EnvReadsBack(p.env.value);
    }
  }

  lemma {:induction false} NoticeReadsBack(p: Part)
    requires p.Notice? && TidyPart(p)
    ensures SanitizeNotice(EncodePart(p).fields) == Some(p)
  {
    KindReadsBack(p.kind);
    TrustReadsBack(p.trust);
    ListsReadBack(p);
  }

  lemma {:induction false} PartReadsBack(p: Part)
    requires TidyPart(p)
    ensures SanitizePart(EncodePart(p)) == Some(p)
  {
    if p.Notice? {
      NoticeReadsBack(p);
    }
  }

  lemma {:induction false} PartsReadBack(parts: seq<Part>)
    requires TidyParts(parts)
    ensures SanitizeParts(EncodeParts(parts)) == parts
  {
    if parts == [] {
    } else {
      PartsReadBack(parts[1..]);
      PartReadsBack(parts[0]);
      assert ([EncodePart(parts[0])] + EncodeParts(parts[1..]))[1..] == EncodeParts(parts[1..]);
      assert [parts[0]] + parts[1..] == parts;
    }
  }

  lemma {:induction false} CallsReadBack(calls: seq<Call>)
    requires TidyCalls(calls)
    ensures SanitizeCalls(EncodeCalls(calls)) == calls
  {
    if calls == [] {
    } else {
      CallsReadBack(calls[1..]);
      CallReadsBack(calls[0]);
      assert ([EncodeCall(calls[0])] + EncodeCalls(calls[1..]))[1..] == EncodeCalls(calls[1..]);
      assert [calls[0]] + calls[1..] == calls;
    }
  }

  lemma {:induction false} MetricsReadBack(m: Metrics)
    requires TidyCalls(m.calls) && m == Summed(m.calls)
    ensures SanitizeMetrics(EncodeMetrics(m)) == Some(m)
  {
    CallsReadBack(m.calls);
  }

  lemma {:induction false} TurnReadsBack(t: StoredTurn, now: real)
    requires TidyTurn(t)
    ensures SanitizeTurn(EncodeTurn(t), now) == Some(t)
  {
    if t.Assistant? {
      if t.parts.Some? {
        PartsReadBack(t.parts.value);
      }
      if t.metrics.Some? {
        MetricsReadBack(t.metrics.value);
      }
    }
  }

  lemma {:induction false} TurnsReadBack(turns: seq<StoredTurn>, now: real)
    requires TidyTurns(turns)
    ensures Sanitized(Encoded(turns), now) == turns
  {
    if turns == [] {
    } else {
      TurnsReadBack(turns[1..], now);
      TurnReadsBack(turns[0], now);
      assert ([EncodeTurn(turns[0])] + Encoded(turns[1..]))[1..] == Encoded(turns[1..]);
      assert [turns[0]] + turns[1..] == turns;
    }
  }

  /** Whatever was handed in, reading what was stored gives what was stored, at any later time. */
  lemma {:induction false} StoredIsReadBack(items: seq<Json>, now: real, later: real)
    ensures Sanitized(Encoded(Sanitized(items, now)), later) == Sanitized(items, now)
  {
    TurnsAreTidy(items, now);
    TurnsReadBack(Sanitized(items, now), later);
  }

  // ---- What is read of a raw part ----

  /** A raw tool call with this status. */
  function RawCall(status: string): Json {
    Obj(NO_FIELDS.(typ := Str("tool_call"), status := Str(status)))
  }

  /** A stored call is waiting no more: pending and running ones have failed, and so has one of unknown status. */
  lemma {:induction false} CallStatus(status: string)
    ensures SanitizePart(RawCall(status)).Some? && SanitizePart(RawCall(status)).value.ToolCall?
    ensures SanitizePart(RawCall("pending-approval")).value.status == SanitizePart(RawCall("running")).value.status == Error
    ensures SanitizePart(RawCall("approved")).value.status == Approved && SanitizePart(RawCall("denied")).value.status == Denied
    ensures SanitizePart(RawCall("done")).value.status == Done && SanitizePart(RawCall("error")).value.status == Error
    ensures status !in ["approved", "denied", "done"] ==> SanitizePart(RawCall(status)).value.status == Error
  {
  }

  /** A raw trust card with this status. */
  function RawCard(kind: string, status: Json): Json {
    Obj(NO_FIELDS.(typ := Str("notice"), kind := Str(kind), status := status))
  }

  /** A pending trust card was skipped; a trusted one stays trusted; any other status is none. */
  lemma {:induction false} CardStatus(status: Json)
    ensures SanitizePart(RawCard("stdio-untrusted", status)).Some? && SanitizePart(RawCard("stdio-untrusted", status)).value.Notice?
    ensures SanitizePart(RawCard("stdio-untrusted", status)).value.trust ==
            if status == Str("trusted") then Some(Trusted)
            else if status == Str("pending") || status == Str("skipped") then Some(Skipped)
            else None
  {
  }

  /** Three kinds of notice are known; one of another kind is dropped. */
  lemma {:induction false} CardKind(kind: string)
    ensures SanitizePart(RawCard("loop-cap", Null)).Some? && SanitizePart(RawCard("loop-cap", Null)).value.kind == LoopCap
    ensures SanitizePart(RawCard("server-error", Null)).Some? && SanitizePart(RawCard("server-error", Null)).value.kind == ServerError
    ensures SanitizePart(RawCard("stdio-untrusted", Null)).Some? &&
            SanitizePart(RawCard("stdio-untrusted", Null)).value.kind == StdioUntrusted
    ensures kind !in ["loop-cap", "server-error", "stdio-untrusted"] ==> SanitizePart(RawCard(kind, Null)) == None
  {
  }

  /** A text is kept up to the cap, and one that passes it ends in the note. */
  lemma {:induction false} CapKeeps(text: string)
    ensures |text| <= 32000 ==> Capped(text) == text && !IsTooLong(text)
    ensures |text| > 32000 ==> Capped(text) == text[..32000] + "\n…[truncated at 32000 characters]" && IsTooLong(text)
  {
  }

  /** A bounded field keeps as much of its text as fits, and is left out when it is none. */
  lemma {:induction false} CutKeeps(v: Json, max: nat)
    ensures v.Str? ==> CutOf(v, max) == Some(if |v.s| <= max then v.s else v.s[..max])
    ensures !v.Str? ==> CutOf(v, max) == None
  {
  }

  /** The totals of one call that reported are its own numbers, each under its own name; of one that did not, none. */
  lemma {:induction false} OneCallIsItsOwnTotal(c: Call)
    ensures Summed([c]).totals == if c.usageReported then c.tokens else Tokens(None, None, None, None)
    ensures Summed([c]).durationMs == c.durationMs && Summed([c]).status == c.status && Summed([c]).ttfbMs == c.ttfbMs
  {
    assert [c][..0] == [] && Duration([]) == 0.0;
    SumOne(c, InputTokens);
    SumOne(c, OutputTokens);
    SumOne(c, CachedTokens);
    SumOne(c, ReasoningTokens);
  }

  lemma {:induction false} SumOne(c: Call, field: TokenField)
    ensures Sum([c], field) == if c.usageReported then Pick(c, field) else None
  {
    assert [c][..0] == [];
  }

  /** What an object without any of the fields is read as. */
  lemma {:induction false} MissingFields(now: real)
    ensures SanitizeCall(Obj(NO_FIELDS)) == Some(Call(None, None, 0.0, false, Tokens(None, None, None, None), None))
    ensures SanitizeTurn(Obj(NO_FIELDS), now) == None
    ensures SanitizeTurn(Obj(NO_FIELDS.(role := Str("user"))), now) == Some(User("", "", None, now))
    ensures SanitizeTurn(Obj(NO_FIELDS.(role := Str("assistant"))), now) == Some(Assistant("", "", None, false, None, None, now))
    ensures SanitizePart(Obj(NO_FIELDS)) == None
    ensures SanitizePart(Obj(NO_FIELDS.(typ := Str("text")))) == Some(Text(""))
    ensures SanitizePart(Obj(NO_FIELDS.(typ := Str("tool_call")))) == Some(ToolCall("", "", "", "", "", Error))
    ensures SanitizePart(Obj(NO_FIELDS.(typ := Str("tool_result")))) == Some(ToolResult("", "", false, false))
    ensures SanitizePart(RawCard("loop-cap", Null)) == Some(Notice("", LoopCap, None, None, None, None, None, None, None))
    ensures EnvEntryOf(NO_FIELDS) == EnvEntry("", "", false, false)
  {
  }

  /** Four types of part are known; one of another type is dropped, whatever else it holds. */
  lemma {:induction false} UnknownTypeIsDropped(o: Fields)
    requires o.typ != Str("text") && o.typ != Str("tool_call") && o.typ != Str("tool_result") && o.typ != Str("notice")
    ensures SanitizePart(Obj(o)) == None
  {
  }

  // ---- Each element of a list is read on its own ----

  lemma {:induction false} PartsFirst(items: seq<Json>)
    requires items != []
    ensures SanitizeParts(items) == (if SanitizePart(items[0]).Some? then [SanitizePart(items[0]).value] else []) + SanitizeParts(items[1..])
  {
  }

  lemma {:induction false} PartsAppend(a: seq<Json>, b: seq<Json>)
    ensures SanitizeParts(a + b) == SanitizeParts(a) + SanitizeParts(b)
  {
    if a == [] {
      assert a + b == b;
    } else {
      AppendSlices(a, b);
      PartsFirst(a);
      PartsFirst(a + b);
      PartsAppend(a[1..], b);
      var first := if SanitizePart(a[0]).Some? then [SanitizePart(a[0]).value] else [];
      Regrouped(first, SanitizeParts(a[1..]), SanitizeParts(b));
    }
  }

  lemma {:induction false} CallsAppend(a: seq<Json>, b: seq<Json>)
    ensures SanitizeCalls(a + b) == SanitizeCalls(a) + SanitizeCalls(b)
  {
    if a == [] {
      assert a + b == b;
    } else {
      assert (a + b)[1..] == a[1..] + b;
      CallsAppend(a[1..], b);
    }
  }

  lemma {:induction false} StringsAppend(a: seq<Json>, b: seq<Json>)
    ensures Strings(a + b) == Strings(a) + Strings(b)
  {
    if a == [] {
      assert a + b == b;
    } else {
      assert (a + b)[1..] == a[1..] + b;
      StringsAppend(a[1..], b);
    }
  }

  lemma {:induction false} EnvAppend(a: seq<Json>, b: seq<Json>)
    ensures EnvEntries(a + b) == EnvEntries(a) + EnvEntries(b)
  {
    if a == [] {
      assert a + b == b;
    } else {
      assert (a + b)[1..] == a[1..] + b;
      EnvAppend(a[1..], b);
    }
  }

  lemma {:induction false} NothingRead(junk: Json)
    ensures !junk.Obj? ==> SanitizeParts([junk]) == [] && SanitizeCalls([junk]) == [] && EnvEntries([junk]) == []
    ensures !junk.Str? ==> Strings([junk]) == []
  {
    assert [junk][1..] == [];
    if !junk.Obj? {
      PartsFirst([junk]);
    }
  }

  /** An element that is not an object, or not a text where texts are listed, leaves the rest of its list as it is. */
  lemma {:induction false} JunkIsDropped(a: seq<Json>, junk: Json, b: seq<Json>)
    ensures !junk.Obj? ==> SanitizeParts(a + [junk] + b) == SanitizeParts(a) + SanitizeParts(b)
    ensures !junk.Obj? ==> SanitizeCalls(a + [junk] + b) == SanitizeCalls(a) + SanitizeCalls(b)
    ensures !junk.Obj? ==> EnvEntries(a + [junk] + b) == EnvEntries(a) + EnvEntries(b)
    ensures !junk.Str? ==> Strings(a + [junk] + b) == Strings(a) + Strings(b)
  {
    NothingRead(junk);
    Regrouped(a, [junk], b);
    PartsAppend(a, [junk] + b);
    PartsAppend([junk], b);
    CallsAppend(a, [junk] + b);
    CallsAppend([junk], b);
    EnvAppend(a, [junk] + b);
    EnvAppend([junk], b);
    StringsAppend(a, [junk] + b);
    StringsAppend([junk], b);
  }
}
