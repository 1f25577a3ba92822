/** The streamed assistant turn and its reducers: `ai-chat-turns.ts`. */
module ChatTurns {
  import opened Options
  import opened Sequences

  datatype ToolStatus = PendingApproval | Approved | Denied | Running | Done | Error

  datatype NoticeKind = LoopCap | ServerError | StdioUntrusted

  datatype TrustStatus = Pending | Trusted | Skipped

  datatype EnvEntry = EnvEntry(name: string, value: string, masked: bool, dangerous: bool)

  datatype Part =
    | Text(text: string)
    | ToolCall(id: string, serverId: string, server: string, tool: string, argsJson: string, status: ToolStatus)
    | ToolResult(callId: string, content: string, isError: bool, truncated: bool)
    | Notice(noticeId: string, kind: NoticeKind, noticeServerId: Option<string>, noticeServer: Option<string>,
             message: Option<string>, commandLine: Option<string>, envNames: Option<seq<string>>,
             env: Option<seq<EnvEntry>>, trust: Option<TrustStatus>)

  /** The turn as far as the stream changes it; `None` is a turn without a list of parts yet. */
  datatype Turn = Turn(content: string, parts: Option<seq<Part>>)

  const EMPTY := Turn("", None)

  function PartsOf(turn: Turn): seq<Part> {
    if turn.parts.Some? then turn.parts.value else []
  }

  function TextOf(part: Part): string {
    if part.Text? then part.text else ""
  }

  function TextOfParts(parts: seq<Part>): string {
    if parts == [] then "" else TextOf(parts[0]) + TextOfParts(parts[1..])
  }

  function WithText(parts: seq<Part>, delta: string): seq<Part> {
    var n := |parts|;
    if n > 0 && parts[n - 1].Text? then parts[..n - 1] + [Text(parts[n - 1].text + delta)]
    else parts + [Text(delta)]
  }

  function ApplyTextDelta(turn: Turn, delta: string): Turn {
    if delta == "" then turn else Turn(turn.content + delta, Some(WithText(PartsOf(turn), delta)))
  }

  predicate SameSlot(a: Part, b: Part) {
    || (a.ToolCall? && b.ToolCall? && a.id == b.id)
    || (a.ToolResult? && b.ToolResult? && a.callId == b.callId)
    || (a.Notice? && b.Notice? && a.noticeId == b.noticeId)
  }

  /** `parts.findIndex((p) => sameSlot(p, part))`; the list's length when there is none. */
  function SlotOf(parts: seq<Part>, part: Part): (i: nat)
    ensures i <= |parts|
    ensures i < |parts| ==> SameSlot(parts[i], part)
    ensures forall j :: 0 <= j < i ==> !SameSlot(parts[j], part)
  {
    if parts == [] || SameSlot(parts[0], part) then 0 else 1 + SlotOf(parts[1..], part)
  }

  function WithPart(parts: seq<Part>, part: Part): seq<Part> {
    var i := SlotOf(parts, part);
    if i < |parts| then parts[i := part] else parts + [part]
  }

  function UpsertPart(turn: Turn, part: Part): Turn {
    turn.(parts := Some(WithPart(PartsOf(turn), part)))
  }

  // ---- Streams ----

  datatype Event = Delta(text: string) | Upsert(part: Part)

  function Applied(turn: Turn, e: Event): Turn {
    match e
    case Delta(text) => ApplyTextDelta(turn, text)
    case Upsert(part) => UpsertPart(turn, part)
  }

  function Streamed(events: seq<Event>): Turn {
    if events == [] then EMPTY else Applied(Streamed(events[..|events| - 1]), events[|events| - 1])
  }

  function Deltas(events: seq<Event>): string {
    if events == [] then ""
    else Deltas(events[..|events| - 1]) + (var e := events[|events| - 1]; if e.Delta? then e.text else "")
  }

  /** Text reaches a turn through deltas only. */
  ghost predicate StreamOf(events: seq<Event>) {
    forall i :: 0 <= i < |events| && events[i].Upsert? ==> !events[i].part.Text?
  }

  ghost predicate NoEmptyText(parts: seq<Part>) {
    forall i :: 0 <= i < |parts| && parts[i].Text? ==> parts[i].text != ""
  }

  ghost predicate NoTextNeighbours(parts: seq<Part>) {
    forall i, j :: 0 <= i < |parts| && j == i + 1 && j < |parts| ==> !(parts[i].Text? && parts[j].Text?)
  }

  ghost predicate DistinctSlots(parts: seq<Part>) {
    forall i, j :: 0 <= i < j < |parts| ==> !SameSlot(parts[i], parts[j])
  }

  ghost predicate WellFormed(parts: seq<Part>) {
    NoEmptyText(parts) && NoTextNeighbours(parts) && DistinctSlots(parts)
  }

  lemma {:induction false} ReplaceSlices(parts: seq<Part>, i: nat, p: Part)
    requires i < |parts|
    ensures i > 0 ==> parts[i := p][0] == parts[0] && parts[i := p][1..] == parts[1..][i - 1 := p]
    ensures i == 0 ==> parts[i := p][0] == p && parts[i := p][1..] == parts[1..]
  {
  }

  lemma {:induction false} TextOfOne(p: Part)
    ensures TextOfParts([p]) == TextOf(p)
  {
    assert [p][1..] == [];
    assert TextOf(p) + "" == TextOf(p);
  }

  lemma {:induction false} TextOfOneMore(parts: seq<Part>, p: Part)
    ensures TextOfParts(parts + [p]) == TextOfParts(parts) + TextOf(p)
  {
    if parts == [] {
      TextOfOne(p);
      assert parts + [p] == [p];
      assert "" + TextOf(p) == TextOf(p);
    } else {
      AppendSlices(parts, [p]);
      TextOfOneMore(parts[1..], p);
      Regrouped(TextOf(parts[0]), TextOfParts(parts[1..]), TextOf(p));
    }
  }

  lemma {:induction false} TextOfReplaced(parts: seq<Part>, i: nat, p: Part)
    requires i < |parts| && !parts[i].Text? && !p.Text?
    ensures TextOfParts(parts[i := p]) == TextOfParts(parts)
  {
    ReplaceSlices(parts, i, p);
    if i == 0 {
    } else {
      TextOfReplaced(parts[1..], i - 1, p);
    }
  }

  lemma {:induction false} TextJoins(parts: seq<Part>, delta: string)
    ensures TextOfParts(WithText(parts, delta)) == TextOfParts(parts) + delta
  {
    var n := |parts|;
    if n > 0 && parts[n - 1].Text? {
      var front, t := parts[..n - 1], parts[n - 1].text;
      assert parts == front + [parts[n - 1]];
      TextOfOneMore(front, parts[n - 1]);
      TextOfOneMore(front, Text(t + delta));
      Regrouped(TextOfParts(front), t, delta);
    } else {
      TextOfOneMore(parts, Text(delta));
    }
  }

  lemma {:induction false} TextKeepsShape(parts: seq<Part>, delta: string)
    requires WellFormed(parts) && delta != ""
    ensures WellFormed(WithText(parts, delta))
  {
    var after := WithText(parts, delta);
    forall i | 0 <= i < |after|
      ensures after[i].Text? ==> after[i].text != ""
      ensures i < |parts| ==> after[i] == parts[i] || (after[i].Text? && parts[i].Text?)
    {
    }
    assert |parts| < |after| ==> parts == [] || !parts[|parts| - 1].Text?;
  }

  lemma {:induction false} SlotsAreAnEquivalence(a: Part, b: Part, c: Part)
    requires SameSlot(a, b)
    ensures SameSlot(b, a) && (SameSlot(a, c) <==> SameSlot(b, c)) && (SameSlot(c, a) <==> SameSlot(c, b))
  {
  }

  lemma {:induction false} ReplaceKeepsShape(parts: seq<Part>, i: nat, part: Part)
    requires WellFormed(parts) && i < |parts| && SameSlot(parts[i], part)
    ensures WellFormed(parts[i := part])
  {
    var after := parts[i := part];
    forall x, y | 0 <= x < y < |after|
      ensures !SameSlot(after[x], after[y])
    {
      assert !SameSlot(parts[x], parts[y]);
    }
    assert NoTextNeighbours(after);
  }

  lemma {:induction false} PartKeepsShape(parts: seq<Part>, part: Part)
    requires WellFormed(parts) && !part.Text?
    ensures WellFormed(WithPart(parts, part))
    ensures TextOfParts(WithPart(parts, part)) == TextOfParts(parts)
  {
    var i := SlotOf(parts, part);
    var after := WithPart(parts, part);
    if i < |parts| {
      TextOfReplaced(parts, i, part);
      ReplaceKeepsShape(parts, i, part);
    } else {
      TextOfOneMore(parts, part);
      assert TextOfParts(parts) + "" == TextOfParts(parts);
    }
  }

  /**
   * However text deltas and other parts are interleaved: the content is the text parts joined, which is all the deltas
   * in order; no two text parts are neighbours, none is empty, and no identity occurs twice.
   */
  lemma {:induction false} StreamInvariant(events: seq<Event>)
    requires StreamOf(events)
    ensures var turn := Streamed(events);
            && WellFormed(PartsOf(turn))
            && turn.content == TextOfParts(PartsOf(turn)) == Deltas(events)
  {
    if events == [] {
    } else {
      var n := |events| - 1;
      StreamInvariant(events[..n]);
      var turn := Streamed(events[..n]);
      match events[n] {
        case Delta(text) =>
          if text == "" {
            assert Deltas(events[..n]) + text == Deltas(events[..n]);
          } else {
            TextJoins(PartsOf(turn), text);
            TextKeepsShape(PartsOf(turn), text);
          }
        case Upsert(part) =>
          PartKeepsShape(PartsOf(turn), part);
          assert Deltas(events[..n]) + "" == Deltas(events[..n]);
      }
    }
  }

  /** The last part the stream sent for a slot. */
  function LastSent(events: seq<Event>, slot: Part): Option<Part> {
    if events == [] then None
    else
      var e := events[|events| - 1];
      if e.Upsert? && SameSlot(e.part, slot) then Some(e.part) else LastSent(events[..|events| - 1], slot)
  }

  lemma {:induction false} SlotAfterAppend(parts: seq<Part>, p: Part, slot: Part)
    ensures SlotOf(parts + [p], slot) ==
            if SlotOf(parts, slot) < |parts| then SlotOf(parts, slot)
            else if SameSlot(p, slot) then |parts| else |parts| + 1
  {
    if parts == [] {
      assert parts + [p] == [p] && [p][1..] == [];
    } else {
      AppendSlices(parts, [p]);
      if !SameSlot(parts[0], slot) {
        SlotAfterAppend(parts[1..], p, slot);
      }
    }
  }

  /** What the list shows in a slot. */
  function Shown(parts: seq<Part>, slot: Part): Option<Part> {
    var i := SlotOf(parts, slot);
    if i < |parts| then Some(parts[i]) else None
  }

  lemma {:induction false} TextAtEndIsNoSlot(parts: seq<Part>, p: Part, slot: Part)
    requires p.Text?
    ensures Shown(parts + [p], slot) == Shown(parts, slot)
  {
    SlotAfterAppend(parts, p, slot);
  }

  lemma {:induction false} TextShowsNothing(parts: seq<Part>, delta: string, slot: Part)
    ensures Shown(WithText(parts, delta), slot) == Shown(parts, slot)
  {
    var k := |parts| - 1;
    if k >= 0 && parts[k].Text? {
      assert parts == parts[..k] + [parts[k]];
      TextAtEndIsNoSlot(parts[..k], parts[k], slot);
      TextAtEndIsNoSlot(parts[..k], Text(parts[k].text + delta), slot);
    } else {
      TextAtEndIsNoSlot(parts, Text(delta), slot);
    }
  }

  lemma {:induction false} PartShowsItself(parts: seq<Part>, part: Part, slot: Part)
    requires !part.Text?
    ensures Shown(WithPart(parts, part), slot) == if SameSlot(part, slot) then Some(part) else Shown(parts, slot)
  {
    var i := SlotOf(parts, part);
    if i < |parts| {
      SlotAfterReplace(parts, i, part, slot);
    } else {
      SlotAfterAppend(parts, part, slot);
      if SameSlot(part, slot) {
        SameSlotSameIndex(parts, part, slot);
      }
    }
  }

  lemma {:induction false} SameSlotSameIndex(parts: seq<Part>, part: Part, slot: Part)
    requires SameSlot(part, slot)
    ensures SlotOf(parts, part) == SlotOf(parts, slot)
  {
    if parts == [] {
    } else {
      SlotsAreAnEquivalence(part, slot, parts[0]);
      SameSlotSameIndex(parts[1..], part, slot);
    }
  }

  /** A slot shows what was sent for it last, and exists exactly when something was. */
  lemma {:induction false} SlotShowsLastSent(events: seq<Event>, slot: Part)
    requires StreamOf(events) && !slot.Text?
    ensures Shown(PartsOf(Streamed(events)), slot) == LastSent(events, slot)
  {
    if events == [] {
    } else {
      var n := |events| - 1;
      SlotShowsLastSent(events[..n], slot);
      var before := PartsOf(Streamed(events[..n]));
      match events[n] {
        case Delta(text) => TextShowsNothing(before, text, slot);
        case Upsert(part) => PartShowsItself(before, part, slot);
      }
    }
  }

  /** Lists alike in what matches the slot have it at the same place. */
  lemma {:induction false} AlikeSlots(a: seq<Part>, b: seq<Part>, slot: Part)
    requires |a| == |b|
    requires forall j :: 0 <= j < |a| ==> (SameSlot(a[j], slot) <==> SameSlot(b[j], slot))
    ensures SlotOf(a, slot) == SlotOf(b, slot)
  {
    var i, k := SlotOf(a, slot), SlotOf(b, slot);
    assert i < |a| ==> SameSlot(b[i], slot);
    assert k < |b| ==> SameSlot(a[k], slot);
  }

  lemma {:induction false} SlotAfterReplace(parts: seq<Part>, i: nat, p: Part, slot: Part)
    requires i == SlotOf(parts, p) < |parts|
    ensures SlotOf(parts[i := p], slot) == SlotOf(parts, slot)
    ensures SlotOf(parts, slot) == i <==> SameSlot(p, slot)
  {
    SlotsAreAnEquivalence(parts[i], p, slot);
    AlikeSlots(parts, parts[i := p], slot);
    if SameSlot(p, slot) {
      SameSlotSameIndex(parts, p, slot);
    }
  }

  // ---- By the fields of the parts ----

  /** Two calls of one id, two results of one call, or two notices of one id. */
  predicate SameId(a: Part, b: Part) {
    match a
    case Text(_) => false
    case ToolCall(id, _, _, _, _, _) => b.ToolCall? && b.id == id
    case ToolResult(callId, _, _, _) => b.ToolResult? && b.callId == callId
    case Notice(noticeId, _, _, _, _, _, _, _, _) => b.Notice? && b.noticeId == noticeId
  }

  /** Text grows the text at the end of the list or opens one there; nothing else moves. */
  lemma OneDelta(events: seq<Event>, text: string)
    ensures var was, now := Streamed(events), Streamed(events + [Delta(text)]);
            var a, b := PartsOf(was), PartsOf(now);
            if text == "" then now == was
            else
              && now.content == was.content + text
              && b == if a != [] && a[|a| - 1].Text? then a[..|a| - 1] + [Text(a[|a| - 1].text + text)] else a + [Text(text)]
  {
    assert (events + [Delta(text)])[..|events|] == events;
  }

  /** A part takes the place of the part with its id, or goes to the end when there is none; nothing else moves. */
  lemma OneUpsert(events: seq<Event>, part: Part)
    ensures var was, now := Streamed(events), Streamed(events + [Upsert(part)]);
            var a, b := PartsOf(was), PartsOf(now);
            && now.content == was.content
            && ((forall j :: 0 <= j < |a| ==> !SameId(a[j], part)) ==> b == a + [part])
            && forall i :: 0 <= i < |a| && SameId(a[i], part) && (forall j :: 0 <= j < i ==> !SameId(a[j], part)) ==> b == a[i := part]
  {
    assert (events + [Upsert(part)])[..|events|] == events;
    assert forall a: Part :: SameSlot(a, part) <==> SameId(a, part);
  }

  lemma {:induction false} LastSentIs(events: seq<Event>, k: nat)
    requires k < |events| && events[k].Upsert? && !events[k].part.Text?
    requires forall j :: k < j < |events| && events[j].Upsert? ==> !SameId(events[k].part, events[j].part)
    ensures LastSent(events, events[k].part) == Some(events[k].part)
  {
    var n := |events| - 1;
    if k == n {
    } else {
      LastSentIs(events[..n], k);
    }
  }

  /** What was sent last under an id is in the list, and no id is there twice. */
  lemma LastOfItsIdIsShown(events: seq<Event>, k: nat)
    requires StreamOf(events) && k < |events| && events[k].Upsert?
    requires forall j :: k < j < |events| && events[j].Upsert? ==> !SameId(events[k].part, events[j].part)
    ensures events[k].part in PartsOf(Streamed(events))
    ensures var parts := PartsOf(Streamed(events));
            forall i, j :: 0 <= i < j < |parts| ==> !SameId(parts[i], parts[j])
  {
    StreamInvariant(events);
    LastSentIs(events, k);
    SlotShowsLastSent(events, events[k].part);
    var parts := PartsOf(Streamed(events));
    forall i, j | 0 <= i < j < |parts|
      ensures !SameId(parts[i], parts[j])
    {
      assert !SameSlot(parts[i], parts[j]);
    }
  }
}
