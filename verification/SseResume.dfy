/**
 * `resumeCursor` and the reconnecting reader of section 9.2.6 of the HTML Standard: what a run of drops and reconnects
 * delivers, and when it delivers everything.
 */
module SseResume {
  import opened JsText
  import opened Options
  import opened SseBlocks

  datatype Cursor = Cursor(start: nat, finished: bool, resumed: bool)

  const FROM_TOP := Cursor(0, false, false)

  /** `blocks.findIndex(b => b.id === id)`. */
  function FirstWithId(blocks: seq<SseBlock>, id: string): (at: int)
    ensures -1 <= at < |blocks|
    ensures at >= 0 ==> blocks[at].id == Some(id)
    ensures forall i :: 0 <= i < |blocks| && blocks[i].id == Some(id) ==> 0 <= at <= i
  {
    if blocks == [] then -1
    else if blocks[0].id == Some(id) then 0
    else
      var rest := FirstWithId(blocks[1..], id);
      assert forall i :: 0 < i < |blocks| ==> blocks[i] == blocks[1..][i - 1];
      if rest < 0 then -1 else rest + 1
  }

  predicate AnyDynamic(blocks: seq<SseBlock>) {
    exists i :: 0 <= i < |blocks| && blocks[i].dynamicId
  }

  function ResumeCursor(blocks: seq<SseBlock>, lastEventId: Option<string>, resume: bool, loop: bool): Cursor {
    if !resume || loop || lastEventId.None? || lastEventId.value == "" then FROM_TOP
    else if AnyDynamic(blocks) then FROM_TOP
    else
      var at := FirstWithId(blocks, lastEventId.value);
      if at < 0 then FROM_TOP else Cursor(at + 1, at + 1 >= |blocks|, true)
  }

  /** A list that loops, cannot be resumed or holds a template id starts from the top, whatever the client has seen. */
  lemma StartsFromTheTop(blocks: seq<SseBlock>, lastEventId: Option<string>, resume: bool, loop: bool)
    requires loop || !resume || lastEventId == None || lastEventId == Some("") ||
             exists i :: 0 <= i < |blocks| && blocks[i].dynamicId
    ensures ResumeCursor(blocks, lastEventId, resume, loop) == Cursor(0, false, false)
  {
  }

  /** Any other list goes on behind the first block with that id, and from the top when there is none. */
  lemma GoesOnBehind(blocks: seq<SseBlock>, id: string)
    requires id != "" && forall i :: 0 <= i < |blocks| ==> !blocks[i].dynamicId
    ensures var c := ResumeCursor(blocks, Some(id), true, false);
            if exists i :: 0 <= i < |blocks| && blocks[i].id == Some(id)
            then 0 < c.start <= |blocks| && blocks[c.start - 1].id == Some(id) && c.resumed && (c.finished <==> c.start == |blocks|) &&
                 forall i :: 0 <= i < c.start - 1 ==> blocks[i].id != Some(id)
            else c == Cursor(0, false, false)
  {
  }

  // ---- The way of an id through the request header ----

  /** The UTF-8 bytes of a character, each read as a character of its own, as header values are by the HTTP server. */
  function BytesOf(c: char): (b: string)
    ensures |b| > 0 && (b == [c] <==> c < '\U{80}') && (c >= '\U{80}' ==> |b| > 1 && forall i :: 0 <= i < |b| ==> b[i] >= '\U{80}')
  {
    var n := c as int;
    if n < 0x80 then [c]
    else if n < 0x800 then [(0xC0 + n / 64) as char, (0x80 + n % 64) as char]
    else if n < 0x10000 then [(0xE0 + n / 4096) as char, (0x80 + n / 64 % 64) as char, (0x80 + n % 64) as char]
    else [(0xF0 + n / 262144) as char, (0x80 + n / 4096 % 64) as char, (0x80 + n / 64 % 64) as char, (0x80 + n % 64) as char]
  }

  lemma SixBits(n: nat)
    ensures n == n / 64 * 64 + n % 64
    ensures n / 64 == n / 4096 * 64 + n / 64 % 64
    ensures n / 4096 == n / 262144 * 64 + n / 4096 % 64
  {
    var q := n / 64;
    assert n == 4096 * (q / 64) + (64 * (q % 64) + n % 64);
    assert n / 4096 == q / 64;
    var r := n / 4096;
    assert n == 262144 * (r / 64) + (4096 * (r % 64) + n % 4096);
    assert n / 262144 == r / 64;
  }

  /** The bytes spell the code point: a lead byte that tells how many follow, and six bits in each of those, as few as
      have room for it. */
  ghost predicate Spell(b: string, n: int) {
    match |b|
    case 1 => b[0] as int == n < 0x80
    case 2 => 0x80 <= n && 0xC0 <= b[0] as int < 0xE0 && n == (b[0] as int - 0xC0) * 64 + (b[1] as int - 0x80)
    case 3 =>
      && 0x800 <= n && 0xE0 <= b[0] as int < 0xF0
      && n == (b[0] as int - 0xE0) * 4096 + (b[1] as int - 0x80) * 64 + (b[2] as int - 0x80)
    case 4 =>
      && 0x1_0000 <= n && 0xF0 <= b[0] as int < 0xF8
      && n == (b[0] as int - 0xF0) * 262144 + (b[1] as int - 0x80) * 4096 + (b[2] as int - 0x80) * 64 + (b[3] as int - 0x80)
    case _ => false
  }

  lemma BytesSpell(c: char)
    ensures Spell(BytesOf(c), c as int)
    ensures forall i :: 0 < i < |BytesOf(c)| ==> 0x80 <= BytesOf(c)[i] as int < 0xC0
  {
    var n := c as int;
    SixBits(n);
    var q, r, h := n / 64, n / 4096, n / 262144;
    assert n == r * 4096 + q % 64 * 64 + n % 64;
    assert n == h * 262144 + r % 64 * 4096 + q % 64 * 64 + n % 64;
  }

  function AllBytes(id: string): string {
    if id == "" then "" else BytesOf(id[0]) + AllBytes(id[1..])
  }

  /** Optional white space of section 5.6.3 of RFC 9110. */
  predicate IsWhite(c: char) {
    c == ' ' || c == '\t'
  }

  function StripStart(s: string): (r: string)
    ensures |r| <= |s| && (r != "" ==> !IsWhite(r[0]))
    ensures s == "" || !IsWhite(s[0]) ==> r == s
  {
    if s != "" && IsWhite(s[0]) then StripStart(s[1..]) else s
  }

  function StripEnd(s: string): (r: string)
    ensures r <= s && (r != "" ==> !IsWhite(r[|r| - 1]))
    ensures s == "" || !IsWhite(s[|s| - 1]) ==> r == s
  {
    if s != "" && IsWhite(s[|s| - 1]) then StripEnd(s[..|s| - 1]) else s
  }

  /** What the server is told when a reader sends `id`: white space around a field value is not part of it. */
  function Arrived(id: string): string {
    StripEnd(StripStart(AllBytes(id)))
  }

  /** ASCII, and no white space around it. */
  predicate Plain(id: string) {
    && (forall i :: 0 <= i < |id| ==> id[i] < '\U{80}')
    && (id != "" ==> id[0] != ' ' && id[0] != '\t' && id[|id| - 1] != ' ' && id[|id| - 1] != '\t')
  }

  lemma {:induction false} BytesGrow(id: string)
    ensures |AllBytes(id)| >= |id|
    ensures (forall i :: 0 <= i < |id| ==> id[i] < '\U{80}') ==> AllBytes(id) == id
    ensures |AllBytes(id)| == |id| ==> forall i :: 0 <= i < |id| ==> id[i] < '\U{80}'
  {
    if id == "" {
    } else {
      BytesGrow(id[1..]);
      assert id == [id[0]] + id[1..];
      assert (forall i :: 0 <= i < |id| ==> id[i] < '\U{80}') ==> forall i :: 0 <= i < |id[1..]| ==> id[1..][i] < '\U{80}';
    }
  }

  lemma {:induction false} WhiteByte(c: char)
    ensures var b := BytesOf(c); IsWhite(b[0]) || IsWhite(b[|b| - 1]) ==> IsWhite(c)
  {
  }

  lemma {:induction false} FirstByte(id: string)
    requires id != ""
    ensures AllBytes(id) != "" && AllBytes(id)[0] == BytesOf(id[0])[0]
  {
  }

  lemma {:induction false} LastByte(id: string)
    requires id != ""
    ensures AllBytes(id) != ""
    ensures var b := BytesOf(id[|id| - 1]); AllBytes(id)[|AllBytes(id)| - 1] == b[|b| - 1]
  {
    if |id| == 1 {
      assert AllBytes(id) == BytesOf(id[0]) + "";
    } else {
      var head, rest := BytesOf(id[0]), id[1..];
      LastByte(rest);
      assert rest[|rest| - 1] == id[|id| - 1];
      LastOfBoth(head, AllBytes(rest));
    }
  }

  lemma LastOfBoth(a: string, b: string)
    requires b != ""
    ensures (a + b)[|a + b| - 1] == b[|b| - 1]
  {
  }

  lemma {:induction false} StripNothing(s: string)
    requires s != "" && !IsWhite(s[0]) && !IsWhite(s[|s| - 1])
    ensures StripEnd(StripStart(s)) == s
  {
  }

  lemma {:induction false} NothingToStrip(id: string)
    requires id != "" && !IsWhite(id[0]) && !IsWhite(id[|id| - 1])
    ensures Arrived(id) == AllBytes(id)
  {
    FirstByte(id);
    LastByte(id);
    WhiteByte(id[0]);
    WhiteByte(id[|id| - 1]);
    StripNothing(AllBytes(id));
  }

  lemma {:induction false} StrippedEnds(s: string)
    ensures var r := StripEnd(StripStart(s)); r != "" ==> !IsWhite(r[0]) && !IsWhite(r[|r| - 1])
  {
    var start := StripStart(s);
    var r := StripEnd(start);
    if r != "" {
      assert r[0] == start[0];
    }
  }

  /** An id arrives as it was sent if and only if it is plain. */
  lemma {:induction false} ArrivesAsSentIff(id: string)
    ensures Arrived(id) == id <==> Plain(id)
  {
    BytesGrow(id);
    StrippedEnds(AllBytes(id));
    if id != "" && !IsWhite(id[0]) && !IsWhite(id[|id| - 1]) {
      NothingToStrip(id);
    }
  }

  // ---- The reader ----

  /** The reader's last event id, how far the delivered prefix reaches, and every delivery in order. */
  datatype Reader = Reader(lastId: string, covered: nat, log: seq<nat>)

  const NEW_READER := Reader("", 0, [])

  /** The header is left out while the last event id is empty. */
  function Header(r: Reader): Option<string> {
    if r.lastId == "" then None else Some(Arrived(r.lastId))
  }

  /** The id block `i` leaves the reader with: the mock's own, but for a mark in front of the first block. */
  function IdHeld(blocks: seq<SseBlock>, i: nat): Option<string>
    requires i < |blocks|
  {
    var lines := Lines(Unmarked(blocks[i].raw));
    if i == 0 && IsMarked(blocks[i].raw) then LastId(lines, |lines|) else blocks[i].id
  }

  /** What a reader holds behind a block is what reading the block's lines leaves, without the byte order mark a stream
      may begin with. */
  lemma HoldsWhatIsRead(blocks: seq<SseBlock>, i: nat, buffer: string)
    requires i < |blocks| && blocks[i] == BlockOf(blocks[i].raw, blocks[i].separator)
    ensures var raw := blocks[i].raw;
            var lines := Lines(if i == 0 && raw != "" && raw[0] == '\U{FEFF}' then raw[1..] else raw);
            ReaderId(lines, |lines|, buffer) == if IdHeld(blocks, i).Some? then IdHeld(blocks, i).value else buffer
  {
    var raw := blocks[i].raw;
    var lines := Lines(if i == 0 then Unmarked(raw) else raw);
    ReaderAgrees(lines, |lines|, buffer);
  }

  /** Block `i` arrives. */
  function Receive(blocks: seq<SseBlock>, r: Reader, i: nat): Reader
    requires i < |blocks|
  {
    Reader(if IdHeld(blocks, i).Some? then IdHeld(blocks, i).value else r.lastId,
           if r.covered <= i then i + 1 else r.covered,
           r.log + [i])
  }

  function ReceiveUpTo(blocks: seq<SseBlock>, r: Reader, from: nat, end: nat): Reader
    requires from <= end <= |blocks|
    decreases end
  {
    if from == end then r else Receive(blocks, ReceiveUpTo(blocks, r, from, end - 1), end - 1)
  }

  function CursorOf(blocks: seq<SseBlock>, r: Reader): Cursor {
    ResumeCursor(blocks, Header(r), true, false)
  }

  /** One connection to a resumable list: it delivers `count` blocks, or all that are left. */
  function Connect(blocks: seq<SseBlock>, r: Reader, count: nat): Reader {
    var start := CursorOf(blocks, r).start;
    ReceiveUpTo(blocks, r, start, if start + count <= |blocks| then start + count else |blocks|)
  }

  /** A run of connections, each dropped after the given number of blocks. */
  function Run(blocks: seq<SseBlock>, drops: seq<nat>): Reader {
    if drops == [] then NEW_READER
    else Connect(blocks, Run(blocks, drops[..|drops| - 1]), drops[|drops| - 1])
  }

  /** The first `n` blocks in their order, each once. */
  ghost predicate Straight(log: seq<nat>, n: nat) {
    |log| == n && forall i :: 0 <= i < n ==> log[i] == i
  }

  // ---- Nothing is skipped ----

  /** What has been delivered is exactly a prefix, and the id the reader holds is one that prefix left it with. */
  ghost predicate Sound(blocks: seq<SseBlock>, r: Reader) {
    && r.covered <= |blocks|
    && (forall i :: i in r.log <==> 0 <= i < r.covered)
    && (r.lastId == "" || exists i :: 0 <= i < r.covered && IdHeld(blocks, i) == Some(r.lastId))
  }

  /** And the next connection does not start beyond it, nor is it told that nothing is left when something is. */
  ghost predicate Safe(blocks: seq<SseBlock>, r: Reader) {
    var c := CursorOf(blocks, r);
    Sound(blocks, r) && c.start <= r.covered && (c.finished ==> r.covered == |blocks|)
  }

  /** The id of block `i`, once it arrives, leads back to a block no later than `i`, or to the top. */
  predicate LeadsBack(blocks: seq<SseBlock>, i: nat)
    requires i < |blocks|
  {
    var id := IdHeld(blocks, i);
    id.Some? ==> Arrived(id.value) == "" || FirstWithId(blocks, Arrived(id.value)) <= i
  }

  ghost predicate AllLeadBack(blocks: seq<SseBlock>) {
    AnyDynamic(blocks) || forall i :: 0 <= i < |blocks| ==> LeadsBack(blocks, i)
  }

  lemma ReceiveSound(blocks: seq<SseBlock>, r: Reader, i: nat)
    requires Sound(blocks, r) && i < |blocks| && i <= r.covered
    ensures Sound(blocks, Receive(blocks, r, i))
    ensures i < Receive(blocks, r, i).covered && r.covered <= Receive(blocks, r, i).covered
  {
    var s := Receive(blocks, r, i);
    if IdHeld(blocks, i).Some? {
      assert IdHeld(blocks, i) == Some(s.lastId);
    }
  }

  lemma {:induction false} ReceiveUpToSound(blocks: seq<SseBlock>, r: Reader, from: nat, end: nat)
    requires Sound(blocks, r) && from <= end <= |blocks| && from <= r.covered
    ensures var s := ReceiveUpTo(blocks, r, from, end);
            Sound(blocks, s) && end <= s.covered && r.covered <= s.covered && r.log <= s.log
    ensures from == end ==> ReceiveUpTo(blocks, r, from, end) == r
    decreases end
  {
    if from >= end {
    } else {
      ReceiveUpToSound(blocks, r, from, end - 1);
      ReceiveSound(blocks, ReceiveUpTo(blocks, r, from, end - 1), end - 1);
    }
  }

  /** When all ids lead back, a connection never starts beyond what was delivered. */
  lemma {:induction false} CursorSound(blocks: seq<SseBlock>, r: Reader)
    requires AllLeadBack(blocks) && Sound(blocks, r)
    ensures Safe(blocks, r)
  {
    if r.lastId != "" && !AnyDynamic(blocks) {
      var i :| 0 <= i < r.covered && IdHeld(blocks, i) == Some(r.lastId);
      assert LeadsBack(blocks, i);
    }
  }

  lemma {:induction false} SafeAgain(blocks: seq<SseBlock>, r: Reader, start: nat, end: nat)
    requires AllLeadBack(blocks) && Sound(blocks, r) && start <= end <= |blocks| && start <= r.covered
    ensures var s := ReceiveUpTo(blocks, r, start, end);
            Safe(blocks, s) && r.covered <= s.covered && r.log <= s.log
  {
    ReceiveUpToSound(blocks, r, start, end);
    CursorSound(blocks, ReceiveUpTo(blocks, r, start, end));
  }

  lemma {:induction false} ConnectSafe(blocks: seq<SseBlock>, r: Reader, count: nat)
    requires AllLeadBack(blocks) && Safe(blocks, r)
    ensures Safe(blocks, Connect(blocks, r, count))
    ensures r.covered <= Connect(blocks, r, count).covered && r.log <= Connect(blocks, r, count).log
  {
    var start := CursorOf(blocks, r).start;
    var end := if start + count <= |blocks| then start + count else |blocks|;
    assert Connect(blocks, r, count) == ReceiveUpTo(blocks, r, start, end);
    SafeAgain(blocks, r, start, end);
  }

  /** Over every run of connects, drops and reconnects no block is skipped and the covered prefix never shrinks. */
  lemma {:induction false} NothingSkipped(blocks: seq<SseBlock>, drops: seq<nat>)
    requires AllLeadBack(blocks)
    ensures Safe(blocks, Run(blocks, drops))
    ensures drops != [] ==>
              && Run(blocks, drops[..|drops| - 1]).covered <= Run(blocks, drops).covered
              && Run(blocks, drops[..|drops| - 1]).log <= Run(blocks, drops).log
  {
    if drops == [] {
    } else {
      NothingSkipped(blocks, drops[..|drops| - 1]);
      ConnectSafe(blocks, Run(blocks, drops[..|drops| - 1]), drops[|drops| - 1]);
    }
  }

  /** Whenever a reconnect is answered "finished", every block of the list has been delivered. */
  lemma FinishedMeansAll(blocks: seq<SseBlock>, drops: seq<nat>)
    requires AllLeadBack(blocks)
    ensures var r := Run(blocks, drops);
            CursorOf(blocks, r).finished ==> forall i :: 0 <= i < |blocks| ==> i in r.log
  {
    NothingSkipped(blocks, drops);
  }

  lemma {:induction false} FromTheTop(blocks: seq<SseBlock>, end: nat)
    requires end <= |blocks|
    ensures var r := ReceiveUpTo(blocks, NEW_READER, 0, end);
            && r.covered == end && Straight(r.log, end)
            && (end > 0 && IdHeld(blocks, end - 1).Some? ==> r.lastId == IdHeld(blocks, end - 1).value)
    decreases end
  {
    if end == 0 {
    } else {
      FromTheTop(blocks, end - 1);
    }
  }

  /** A first connection that is dropped behind block `i`. */
  lemma {:induction false} DroppedBehind(blocks: seq<SseBlock>, i: nat)
    requires i < |blocks|
    ensures var r := Run(blocks, [i + 1]);
            && r.covered == i + 1 && Straight(r.log, i + 1)
            && (IdHeld(blocks, i).Some? ==> r.lastId == IdHeld(blocks, i).value)
            && r == ReceiveUpTo(blocks, NEW_READER, 0, i + 1)
  {
    assert [i + 1][..0] == [];
    assert Run(blocks, [i + 1]) == Connect(blocks, NEW_READER, i + 1);
    FromTheTop(blocks, i + 1);
  }

  /** Every run is safe if and only if some id is a template or all ids lead back. */
  lemma {:induction false} SafeIffAllLeadBack(blocks: seq<SseBlock>)
    ensures (forall drops :: Safe(blocks, Run(blocks, drops))) <==> AllLeadBack(blocks)
  {
    if AllLeadBack(blocks) {
      forall drops
        ensures Safe(blocks, Run(blocks, drops))
      {
        NothingSkipped(blocks, drops);
      }
    } else {
      var i: nat :| i < |blocks| && !LeadsBack(blocks, i);
      DroppedBehind(blocks, i);
      assert CursorOf(blocks, Run(blocks, [i + 1])).start > i + 1;
      assert !Safe(blocks, Run(blocks, [i + 1]));
    }
  }

  lemma {:induction false} NoBreakOneLine(s: string)
    requires forall i :: 0 <= i < |s| ==> !IsBreak(s[i])
    ensures Lines(s) == [s]
  {
    if s == "" {
    } else {
      NoBreakOneLine(s[1..]);
      assert [s[0]] + s[1..] == s;
    }
  }

  lemma {:induction false} NoTemplate(id: string)
    requires '{' !in id
    ensures !Includes(id, "{{")
  {
    if id == "" {
    } else {
      NoTemplate(id[1..]);
      assert "{{"[0] == '{';
    }
  }

  lemma {:induction false} OneLineBlock(id: string)
    requires forall i :: 0 <= i < |id| ==> id[i] != '\0' && id[i] != '{' && !IsBreak(id[i])
    ensures BlockOf("id: " + id, LfLf) == SseBlock("id: " + id, LfLf, Some(id), false)
  {
    var line := "id: " + id;
    NoBreakOneLine(line);
    NoTemplate(id);
    var lines := [line];
    assert line[3..] == " " + id && (" " + id)[1..] == id;
    assert StartsWith(line, "id:") && StartsWith(" " + id, " ");
    assert IdOf(line) == Some(id);
    assert LastId(lines, 1) == Some(id) && !HasTemplateId(lines, 0);
    assert HasTemplateId(lines, 1) == false;
  }

  lemma {:induction false} SpaceComesOff()
    ensures Arrived(" 1") == "1"
  {
    assert AllBytes("") == "" && AllBytes("1") == "1";
    assert AllBytes(" 1") == " " + AllBytes("1");
    assert StripStart("1") == "1" && StripStart(" 1") == "1";
  }

  lemma {:induction false} LastHasIt(blocks: seq<SseBlock>, held: string, id: string)
    requires |blocks| == 3 && !AnyDynamic(blocks) && IdHeld(blocks, 0) == Some(held)
    requires held != "" && Arrived(held) == id != ""
    requires blocks[0].id != Some(id) && blocks[1].id != Some(id) && blocks[2].id == Some(id)
    ensures Run(blocks, [1]).log == [0] && CursorOf(blocks, Run(blocks, [1])) == Cursor(3, true, true)
  {
    DroppedBehind(blocks, 0);
    assert FirstWithId(blocks, id) == 2;
  }

  lemma {:induction false} ThreeBlocks(a: SseBlock, b: SseBlock, c: SseBlock) returns (blocks: seq<SseBlock>)
    requires a.id == Some(" 1") && b.id == Some("2") && c.id == Some("1")
    requires !a.dynamicId && !b.dynamicId && !c.dynamicId && !IsMarked(a.raw)
    ensures blocks == [a, b, c] && DistinctIds(blocks)
    ensures Run(blocks, [1]).log == [0] && CursorOf(blocks, Run(blocks, [1])) == Cursor(3, true, true)
  {
    blocks := [a, b, c];
    assert " 1"[0] == ' ' && "2"[0] == '2' && "1"[0] == '1';
    SpaceComesOff();
    LastHasIt(blocks, " 1", "1");
  }

  /**
   * The first id has a second space in front of it, which its way through the header takes off: dropped behind the
   * first block, the reader is told that it has seen everything.
   */
  lemma {:induction false} SpaceSkips() returns (blocks: seq<SseBlock>)
    ensures blocks == [BlockOf("id: " + " 1", LfLf), BlockOf("id: " + "2", LfLf), BlockOf("id: " + "1", LfLf)]
    ensures DistinctIds(blocks)
    ensures Run(blocks, [1]).log == [0] && CursorOf(blocks, Run(blocks, [1])) == Cursor(3, true, true)
  {
    OneLineBlock(" 1");
    OneLineBlock("2");
    OneLineBlock("1");
    assert ("id: " + " 1")[0] == 'i';
    blocks := ThreeBlocks(BlockOf("id: " + " 1", LfLf), BlockOf("id: " + "2", LfLf), BlockOf("id: " + "1", LfLf));
  }

  // ---- Each block once ----

  /** Every block carries an id, fixed text, not empty, and no two the same. */
  ghost predicate DistinctIds(blocks: seq<SseBlock>) {
    && (forall i :: 0 <= i < |blocks| ==> blocks[i].id.Some? && blocks[i].id.value != "" && !blocks[i].dynamicId)
    && (forall i, j :: 0 <= i < j < |blocks| ==> blocks[i].id != blocks[j].id)
  }

  /** The id of block `i`, once it arrives, leads back to exactly that block. */
  predicate LeadsHome(blocks: seq<SseBlock>, i: nat)
    requires i < |blocks|
  {
    var id := IdHeld(blocks, i);
    id.Some? && Arrived(id.value) != "" && FirstWithId(blocks, Arrived(id.value)) == i
  }

  ghost predicate AllLeadHome(blocks: seq<SseBlock>) {
    !AnyDynamic(blocks) && forall i :: 0 <= i < |blocks| ==> LeadsHome(blocks, i)
  }

  /** An exactly-once delivered prefix, and the next connection starts right behind it. */
  ghost predicate Exact(blocks: seq<SseBlock>, r: Reader) {
    && r.covered <= |blocks|
    && Straight(r.log, r.covered)
    && CursorOf(blocks, r).start == r.covered
  }

  lemma {:induction false} ExactReceive(blocks: seq<SseBlock>, r: Reader, end: nat)
    requires Straight(r.log, r.covered) && r.covered <= end <= |blocks|
    ensures var s := ReceiveUpTo(blocks, r, r.covered, end);
            && Straight(s.log, end) && s.covered == end
            && (r.covered < end && IdHeld(blocks, end - 1).Some? ==> s.lastId == IdHeld(blocks, end - 1).value)
            && (r.covered == end ==> s == r)
    decreases end
  {
    if r.covered >= end {
    } else {
      ExactReceive(blocks, r, end - 1);
    }
  }

  lemma {:induction false} ArrivedEmpty(id: string)
    requires Arrived(id) != ""
    ensures id != ""
  {
    assert AllBytes("") == "";
  }

  lemma {:induction false} HomeCursor(blocks: seq<SseBlock>, r: Reader, i: nat)
    requires !AnyDynamic(blocks) && i < |blocks| && LeadsHome(blocks, i) && r.lastId == IdHeld(blocks, i).value
    ensures CursorOf(blocks, r).start == i + 1
  {
    ArrivedEmpty(r.lastId);
  }

  lemma {:induction false} ExactAgain(blocks: seq<SseBlock>, r: Reader, end: nat)
    requires AllLeadHome(blocks) && Exact(blocks, r) && r.covered <= end <= |blocks|
    ensures Exact(blocks, ReceiveUpTo(blocks, r, r.covered, end))
  {
    ExactReceive(blocks, r, end);
    if r.covered < end {
      HomeCursor(blocks, ReceiveUpTo(blocks, r, r.covered, end), end - 1);
    }
  }

  lemma {:induction false} ConnectExact(blocks: seq<SseBlock>, r: Reader, count: nat)
    requires AllLeadHome(blocks) && Exact(blocks, r)
    ensures Exact(blocks, Connect(blocks, r, count))
  {
    ExactAgain(blocks, r, if r.covered + count <= |blocks| then r.covered + count else |blocks|);
  }

  /** When every id leads home each block is delivered exactly once, in order. */
  lemma {:induction false} ExactlyOnce(blocks: seq<SseBlock>, drops: seq<nat>)
    requires AllLeadHome(blocks)
    ensures Exact(blocks, Run(blocks, drops))
  {
    if drops == [] {
    } else {
      ExactlyOnce(blocks, drops[..|drops| - 1]);
      ConnectExact(blocks, Run(blocks, drops[..|drops| - 1]), drops[|drops| - 1]);
    }
  }

  /** Every run delivers each block exactly once if and only if the list is empty or every id leads home. */
  lemma {:induction false} ExactlyOnceIff(blocks: seq<SseBlock>)
    ensures (forall drops :: Exact(blocks, Run(blocks, drops))) <==> blocks == [] || AllLeadHome(blocks)
  {
    if AllLeadHome(blocks) || blocks == [] {
      forall drops
        ensures Exact(blocks, Run(blocks, drops))
      {
        ExactlyOnce(blocks, drops);
      }
    } else {
      var i: nat := if i: nat :| i < |blocks| && !LeadsHome(blocks, i) then i else 0;
      DroppedBehind(blocks, i);
      assert CursorOf(blocks, Run(blocks, [i + 1])).start != i + 1;
      assert !Exact(blocks, Run(blocks, [i + 1]));
    }
  }

  /** Distinct plain ids lead home, unless a mark hides the first one. */
  lemma {:induction false} DistinctPlainLeadHome(blocks: seq<SseBlock>)
    requires DistinctIds(blocks) && forall i :: 0 <= i < |blocks| ==> Plain(blocks[i].id.value)
    requires blocks != [] ==> IdHeld(blocks, 0) == blocks[0].id
    ensures AllLeadHome(blocks)
  {
    forall i | 0 <= i < |blocks|
      ensures LeadsHome(blocks, i)
    {
      ArrivesAsSentIff(blocks[i].id.value);
    }
  }
}
