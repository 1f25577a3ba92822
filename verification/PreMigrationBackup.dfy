/**
 * The copy a new build takes of the database before migrating it, and the start it is part of:
 * `pre-migration-backup.ts`, driven by `initDatabase` in `database.ts`.
 *
 * Every call into the file system or SQLite is one atomic step that works, throws, or is the last thing the process
 * does; `Weather` says which.
 */
module PreMigrationBackup {
  import opened Options
  import opened BackupNames

  const BACKUPS_TO_KEEP: nat := 3
  const FREE_SPACE_MARGIN_BYTES: nat := 50 * 1024 * 1024

  /** The live database file; a number stands for everything in it. */
  datatype Live = Missing | Empty | Db(state: nat)

  /** An entry of `backups/`. `Half` is a file `VACUUM INTO` had not finished. */
  datatype Entry = Whole(state: nat, sealed: bool) | Half | Folder

  type Files = map<string, Entry>

  /** Which of the `-wal` and `-shm` files lie beside the database. */
  datatype Sidecars = Sidecars(wal: bool, shm: bool)

  const ALONE := Sidecars(false, false)

  /** What was moved aside under one timestamp. */
  datatype Trio = Trio(main: Live, sidecars: Sidecars)

  datatype Disk = Disk(live: Live, sidecars: Sidecars, marker: Option<Build>, files: Files, aside: map<nat, Trio>)

  datatype Fate = Works | Throws | Dies

  datatype OpenFate = Opened | Corrupt | Refused | DiedOpening

  /** One `openAndMigrate`: how it ends, and the files it leaves behind. */
  datatype Opening = Opening(fate: OpenFate, left: Live, beside: Sidecars)

  datatype Weather = Weather(
    now: nat, dbSize: nat, walSize: nat, free: Option<nat>, keychain: bool,
    listing: Fate, folder: Fate, copying: Fate, halfLeft: bool, sealing: Fate, renaming: Fate, cleanup: bool,
    unlinks: nat, pruning: Fate,
    first: Opening, moving: Fate, movingWal: Fate, movingShm: Fate, later: nat, second: Opening, marking: Fate)

  datatype Reason = FirstStart | SameBuild | AlreadyBackedUp

  datatype Outcome =
    | Skipped(reason: Reason)
    | Created(name: string, pruned: set<string>, pruneFailed: bool)
    | Failed(lowDisk: bool)
    | Crashed

  datatype Report =
    | Started(recovered: bool, backup: Outcome, noticed: bool, markerFailed: bool)
    | Threw(taken: Outcome)
    | ProcessDied

  // ---- What counts as a backup ----

  predicate IsBackup(files: Files, name: string) {
    name in files && !files[name].Folder? && ParseName(name).Some?
  }

  function Backups(files: Files): set<string> {
    set n | n in files && IsBackup(files, n)
  }

  function Stamp(name: string): nat
    requires ParseName(name).Some?
  {
    ParseName(name).value.timestamp
  }

  ghost predicate HasCopyFor(files: Files, tag: string) {
    exists n :: IsBackup(files, n) && ParseName(n).value.tag == tag
  }

  function Min(a: nat, b: nat): nat {
    if a < b then a else b
  }

  function RequiredFreeBytes(w: Weather): nat {
    2 * (w.dbSize + w.walSize) + FREE_SPACE_MARGIN_BYTES
  }

  // ---- What a start does to the backups ----

  /** `Left`: at most the partial file differs. `Taken`: the copy was renamed into place and `gone` deleted after. */
  datatype Trace = Nothing | Left | Taken(gone: set<string>, kept: set<string>)

  /** Deleting `gone` keeps as many as it should, and none of the kept ones is older than a deleted one. */
  ghost predicate Pruned(before: Files, after: Files, gone: set<string>, kept: set<string>, keep: nat) {
    && after == before - gone
    && gone <= Backups(before)
    && kept <= Backups(before)
    && gone !! kept
    && |kept| == Min(keep, |Backups(before)|)
    && forall g, k :: g in gone && k in kept ==> Stamp(g) <= Stamp(k)
  }

  function WithCopy(files: Files, tag: string, w: Weather, state: nat): Files {
    (files - {PartialName(tag, w.now)})[Name(tag, w.now) := Whole(state, w.keychain)]
  }

  ghost predicate Moves(live: Live, before: Files, after: Files, tag: string, w: Weather, trace: Trace) {
    match trace
    case Nothing => after == before
    case Left =>
      var partial := PartialName(tag, w.now);
      !HasCopyFor(before, tag) && after - {partial} == before - {partial}
    case Taken(gone, kept) =>
      && live.Db?
      && !HasCopyFor(before, tag)
      && Name(tag, w.now) !in before
      && Pruned(WithCopy(before, tag, w, live.state), after, gone, kept, BACKUPS_TO_KEEP)
  }

  ghost function WhySkipped(live: Live, marker: Option<Build>, files: Files, build: Build): Option<Reason> {
    if !live.Db? then Some(FirstStart)
    else if marker == Some(build) then Some(SameBuild)
    else if HasCopyFor(files, BackupLabel(build)) then Some(AlreadyBackedUp)
    else None
  }

  /** The probe says that less is free than twice the database with its log, and 50 MiB. */
  predicate TooLittle(w: Weather) {
    w.free.Some? && w.free.value < 2 * (w.dbSize + w.walSize) + 50 * 1024 * 1024
  }

  /** The folder cannot be read or made. */
  predicate BrokeOff(why: Option<Reason>, w: Weather) {
    || (w.listing != Works && (why == None || why == Some(AlreadyBackedUp)))
    || (w.listing == Works && w.folder != Works && why == None)
  }

  /** How reading or making the folder ends. */
  function FolderFate(w: Weather): Fate {
    if w.listing != Works then w.listing else w.folder
  }

  /** A copy is begun. */
  predicate Begins(why: Option<Reason>, w: Weather) {
    why == None && w.listing == Works && w.folder == Works && !TooLittle(w)
  }

  /** `VACUUM INTO` refuses a file with something in it. */
  predicate Writable(files: Files, name: string) {
    name in files ==> files[name].Half?
  }

  /** The steps of a copy in their order, and what each needs. */
  predicate Copied(files: Files, tag: string, w: Weather) {
    w.copying == Works && Writable(files, PartialName(tag, w.now))
  }

  predicate Sealed(files: Files, tag: string, w: Weather) {
    Copied(files, tag, w) && (w.keychain ==> w.sealing == Works)
  }

  predicate Renamed(files: Files, tag: string, w: Weather) {
    Sealed(files, tag, w) && w.renaming == Works && Name(tag, w.now) !in files
  }

  /** The process dies in one of the steps. */
  predicate DiesCopying(files: Files, tag: string, w: Weather) {
    || w.copying == Dies
    || (Copied(files, tag, w) && w.keychain && w.sealing == Dies)
    || (Sealed(files, tag, w) && w.renaming == Dies)
    || (Renamed(files, tag, w) && w.pruning == Dies)
  }

  /** Nothing on the way to a copy fails. */
  predicate Fair(files: Files, tag: string, w: Weather) {
    && w.listing == Works && w.folder == Works && w.copying == Works && w.renaming == Works && w.pruning == Works
    && (w.keychain ==> w.sealing == Works) && !TooLittle(w)
    && PartialName(tag, w.now) !in files && Name(tag, w.now) !in files
  }

  /** A report of a copy names it, and the deleted copies unless deleting them failed half way. */
  ghost predicate IsCreated(outcome: Outcome, after: Files, tag: string, w: Weather, trace: Trace)
    requires outcome.Created?
  {
    && trace.Taken?
    && outcome.name == Name(tag, w.now)
    && (outcome.pruneFailed ==> outcome.pruned == {})
    && (!outcome.pruneFailed ==> outcome.pruned == trace.gone && Backups(after) == trace.kept)
  }

  /** No file has the name. */
  predicate Gone(files: Files, name: string) {
    name in files ==> files[name].Folder?
  }

  /** What `backupBeforeMigration` reports, against what was there and what it did. */
  ghost predicate Reports(live: Live, marker: Option<Build>, before: Files, after: Files, build: Build, w: Weather,
                          trace: Trace, outcome: Outcome)
  {
    var tag := BackupLabel(build);
    var why := WhySkipped(live, marker, before, build);
    && Moves(live, before, after, tag, w, trace)
    && (why == Some(FirstStart) || why == Some(SameBuild) ==> outcome == Skipped(why.value))
    && (why == Some(AlreadyBackedUp) && w.listing == Works ==> outcome == Skipped(AlreadyBackedUp))
    && (outcome.Skipped? ==> why == Some(outcome.reason) && trace == Nothing)
    && (trace != Nothing ==> why == None)
    && (outcome.Failed? ==> !trace.Taken?)
    && (outcome.Failed? && trace.Left? && w.cleanup ==> Gone(after, PartialName(tag, w.now)))
    && (outcome == Failed(true) <==> why == None && w.listing == Works && w.folder == Works && TooLittle(w))
    && (outcome == Failed(true) ==> trace == Nothing)
    && (BrokeOff(why, w) ==> trace == Nothing && outcome == if FolderFate(w) == Dies then Crashed else Failed(false))
    && (Begins(why, w) ==> (outcome == Crashed <==> DiesCopying(before, tag, w)))
    && (outcome.Created? <==> Begins(why, w) && Renamed(before, tag, w) && w.pruning != Dies)
    && (outcome.Created? ==> (outcome.pruneFailed <==> w.pruning == Throws))
    && (outcome.Created? ==> IsCreated(outcome, after, tag, w, trace))
    && (why == None && Fair(before, tag, w) ==> outcome.Created? && !outcome.pruneFailed)
  }

  /** The database file as the last `openAndMigrate` of a start leaves it, unless the start ended before. */
  ghost predicate StartStep(d: Disk, e: Disk, build: Build, w: Weather, trace: Trace, r: Report) {
    && (exists outcome ::
          && Reports(d.live, d.marker, d.files, e.files, build, w, trace, outcome)
          && (r.Started? ==> outcome == r.backup) && (r.Threw? ==> outcome == r.taken)
          && (outcome == Crashed ==> r == ProcessDied && e == d.(files := e.files))
          && (outcome != Crashed ==> e.live == LiveAfter(w) && e.sidecars == BesideAfter(w) && e.aside == MovedAside(d.aside, w)))
    && (r.Started? ==>
          && e.live.Db?
          && r.noticed == (r.backup.Failed? && !r.recovered)
          && e.marker == (if r.markerFailed then d.marker else Some(build))
          && (!r.recovered ==> e.live == w.first.left)
          && (r.recovered ==> e.live == w.second.left))
    && (!r.Started? ==> e.marker == d.marker)
    && (r.Started? ==> (r.recovered <==> w.first.fate == Corrupt) && (r.markerFailed <==> w.marking == Throws))
    && (r.Threw? ==> !Opens(w) && !DiesOpening(w))
    && (r.ProcessDied? && !Opens(w) ==> DiesOpening(w) || e == d.(files := e.files))
    && (Opens(w) && r.ProcessDied? ==> w.marking == Dies || e == d.(files := e.files))
  }

  /** How `quarantineCorruptDb` ends: it renames the file the failed opening left, if there is one, and its sidecars. */
  function Quarantine(w: Weather): Fate {
    if w.first.left == Missing then Works
    else if w.moving != Works then w.moving
    else if w.first.beside.wal && w.movingWal != Works then w.movingWal
    else if w.first.beside.shm then w.movingShm
    else Works
  }

  /** Opening the file succeeds, on the fresh one after a corrupt one was moved aside at the latest. */
  predicate Opens(w: Weather) {
    w.first.fate == Opened || (w.first.fate == Corrupt && Quarantine(w) == Works && w.second.fate == Opened)
  }

  /** The process dies while the database is opened, moved aside or opened again. */
  predicate DiesOpening(w: Weather) {
    || w.first.fate == DiedOpening
    || (w.first.fate == Corrupt && (Quarantine(w) == Dies || (Quarantine(w) == Works && w.second.fate == DiedOpening)))
  }

  /** A file that was opened and migrated is a database. */
  predicate Possible(w: Weather) {
    (w.first.fate == Opened ==> w.first.left.Db?) && (w.second.fate == Opened ==> w.second.left.Db?)
  }

  /** The corrupt database is out of the way, and its sidecars as far as the renaming got. */
  predicate MainMoves(w: Weather) {
    w.first.fate == Corrupt && w.first.left != Missing && w.moving == Works
  }

  predicate WalMoves(w: Weather) {
    MainMoves(w) && w.first.beside.wal && w.movingWal == Works
  }

  predicate ShmMoves(w: Weather) {
    MainMoves(w) && w.first.beside.shm && (w.first.beside.wal ==> w.movingWal == Works) && w.movingShm == Works
  }

  function TrioAt(aside: map<nat, Trio>, t: nat): Trio {
    if t in aside then aside[t] else Trio(Missing, ALONE)
  }

  /** The trio of one quarantine bears one timestamp. */
  function MovedAside(aside: map<nat, Trio>, w: Weather): map<nat, Trio> {
    var before := TrioAt(aside, w.later).sidecars;
    if !MainMoves(w) then aside
    else aside[w.later := Trio(w.first.left, Sidecars(before.wal || WalMoves(w), before.shm || ShmMoves(w)))]
  }

  /** The sidecars that lie where the fresh database is created. */
  function BesideFresh(w: Weather): Sidecars {
    Sidecars(w.first.beside.wal && !WalMoves(w), w.first.beside.shm && !ShmMoves(w))
  }

  function LiveAfter(w: Weather): Live {
    if w.first.fate == Corrupt && Quarantine(w) == Works then w.second.left
    else if MainMoves(w) then Missing
    else w.first.left
  }

  function BesideAfter(w: Weather): Sidecars {
    if w.first.fate == Corrupt && Quarantine(w) == Works then w.second.beside else BesideFresh(w)
  }

  // ---- Listing and pruning ----

  datatype BackupFile = BackupFile(name: string, tag: string, timestamp: nat)

  function NamesIn(list: seq<BackupFile>, lo: nat, hi: nat): set<string>
    requires hi <= |list|
  {
    set i | lo <= i < hi :: list[i].name
  }

  function Names(list: seq<BackupFile>): set<string> {
    NamesIn(list, 0, |list|)
  }

  /** The list holds every backup once; in which order is up to `readdirSync`. */
  ghost predicate Lists(list: seq<BackupFile>, files: Files) {
    && Names(list) == Backups(files)
    && |list| == |Backups(files)|
    && Described(list)
  }

  ghost predicate Described(list: seq<BackupFile>) {
    forall i :: 0 <= i < |list| ==> ParseName(list[i].name) == Some(BackupName(list[i].tag, list[i].timestamp))
  }

  ghost predicate Newest(list: seq<BackupFile>) {
    forall i, j :: 0 <= i < j < |list| ==> list[i].timestamp >= list[j].timestamp
  }

  ghost predicate Distinct(list: seq<BackupFile>, n: nat)
    requires n <= |list|
  {
    forall i, j :: 0 <= i < j < n ==> list[i].name != list[j].name
  }

  lemma NamesOfOneMore(list: seq<BackupFile>, b: BackupFile)
    ensures Names(list + [b]) == Names(list) + {b.name}
  {
    var longer := list + [b];
    assert longer[|list|] == b;
    forall n | n in Names(list) ensures n in Names(longer) {
      var i :| 0 <= i < |list| && list[i].name == n;
      assert longer[i].name == n;
    }
  }

  lemma {:induction false} NamesInCount(list: seq<BackupFile>, n: nat)
    requires n <= |list|
    ensures |NamesIn(list, 0, n)| <= n
    ensures |NamesIn(list, 0, n)| == n <==> Distinct(list, n)
  {
    if n == 0 {
    } else {
      NamesInCount(list, n - 1);
      var before := NamesIn(list, 0, n - 1);
      var last := list[n - 1].name;
      assert NamesIn(list, 0, n) == before + {last};
      if last in before {
        var i :| 0 <= i < n - 1 && list[i].name == last;
        assert !Distinct(list, n);
      } else {
        assert Distinct(list, n) <==> Distinct(list, n - 1);
      }
    }
  }

  /** `sort((a, b) => b.timestamp - a.timestamp)`, one insertion at a time. */
  function Insert(b: BackupFile, list: seq<BackupFile>): seq<BackupFile> {
    if list != [] && list[0].timestamp >= b.timestamp then [list[0]] + Insert(b, list[1..]) else [b] + list
  }

  lemma {:induction false} InsertKeepsMembers(b: BackupFile, list: seq<BackupFile>)
    ensures multiset(Insert(b, list)) == multiset(list) + multiset{b}
  {
    if list == [] || list[0].timestamp < b.timestamp {
    } else {
      InsertKeepsMembers(b, list[1..]);
      assert list == [list[0]] + list[1..];
    }
  }

  ghost predicate NoneAbove(list: seq<BackupFile>, limit: nat) {
    forall i :: 0 <= i < |list| ==> list[i].timestamp <= limit
  }

  lemma {:induction false} InsertKeepsOrder(b: BackupFile, list: seq<BackupFile>)
    requires Newest(list)
    ensures Newest(Insert(b, list))
    ensures forall limit: nat :: NoneAbove(list, limit) && b.timestamp <= limit ==> NoneAbove(Insert(b, list), limit)
  {
    if list == [] || list[0].timestamp < b.timestamp {
    } else {
      InsertKeepsOrder(b, list[1..]);
      assert NoneAbove(list[1..], list[0].timestamp);
      forall limit: nat | NoneAbove(list, limit) && b.timestamp <= limit
        ensures NoneAbove(Insert(b, list), limit)
      {
        assert NoneAbove(list[1..], limit);
      }
    }
  }

  method NewestFirst(list: seq<BackupFile>) returns (sorted: seq<BackupFile>)
    ensures Newest(sorted) && multiset(sorted) == multiset(list)
  {
    sorted := [];
    for i := 0 to |list|
      invariant Newest(sorted) && multiset(sorted) == multiset(list[..i])
    {
      InsertKeepsMembers(list[i], sorted);
      InsertKeepsOrder(list[i], sorted);
      assert list[..i + 1] == list[..i] + [list[i]];
      sorted := Insert(list[i], sorted);
    }
    assert list[..|list|] == list;
  }

  lemma SameMembers(a: seq<BackupFile>, b: seq<BackupFile>, files: Files)
    requires multiset(a) == multiset(b) && Lists(a, files)
    ensures Lists(b, files)
  {
    assert |a| == |multiset(a)| == |multiset(b)| == |b|;
    forall x: BackupFile
      ensures x in a <==> x in b
    {
      assert x in a <==> x in multiset(a);
    }
    forall i | 0 <= i < |b|
      ensures b[i].name in Names(a) && ParseName(b[i].name) == Some(BackupName(b[i].tag, b[i].timestamp))
    {
      assert b[i] in a;
    }
    forall i | 0 <= i < |a|
      ensures a[i].name in Names(b)
    {
      assert a[i] in b;
    }
  }

  lemma KeptCount(sorted: seq<BackupFile>, n: nat)
    requires n <= |sorted| && |Names(sorted)| == |sorted|
    ensures |NamesIn(sorted, 0, n)| == n
    ensures Distinct(sorted, |sorted|)
  {
    NamesInCount(sorted, |sorted|);
    NamesInCount(sorted, n);
    assert Distinct(sorted, n);
  }

  /** Deleting from behind the newest `n` on, one by one, at any moment. */
  lemma PruneIsPruned(files: Files, sorted: seq<BackupFile>, n: nat, i: nat, keep: nat)
    requires Lists(sorted, files) && Newest(sorted)
    requires n == Min(keep, |sorted|) && n <= i <= |sorted|
    ensures Pruned(files, files - NamesIn(sorted, n, i), NamesIn(sorted, n, i), NamesIn(sorted, 0, n), keep)
  {
    var gone := NamesIn(sorted, n, i);
    var kept := NamesIn(sorted, 0, n);
    KeptCount(sorted, n);
    forall g, k | g in gone && k in kept
      ensures g != k && Stamp(g) <= Stamp(k)
    {
      var x :| n <= x < i && sorted[x].name == g;
      var y :| 0 <= y < n && sorted[y].name == k;
    }
  }

  lemma PruneIsDone(files: Files, sorted: seq<BackupFile>, n: nat)
    requires Lists(sorted, files) && n <= |sorted|
    ensures Backups(files - NamesIn(sorted, n, |sorted|)) == NamesIn(sorted, 0, n)
  {
    KeptCount(sorted, n);
    var gone := NamesIn(sorted, n, |sorted|);
    forall m | m in Backups(files)
      ensures m in NamesIn(sorted, 0, n) <==> m !in gone
    {
      var x :| 0 <= x < |sorted| && sorted[x].name == m;
      if m in gone {
        var y :| n <= y < |sorted| && sorted[y].name == m;
      }
    }
    forall m
      ensures m in Backups(files - gone) <==> m in Backups(files) && m !in gone
    {
    }
    assert NamesIn(sorted, 0, n) <= Names(sorted);
  }

  lemma TagIsListed(list: seq<BackupFile>, files: Files, tag: string)
    requires Lists(list, files)
    ensures HasCopyFor(files, tag) <==> exists k :: 0 <= k < |list| && list[k].tag == tag
  {
    if HasCopyFor(files, tag) {
      var n :| IsBackup(files, n) && ParseName(n).value.tag == tag;
      assert n in Names(list);
      var k :| 0 <= k < |list| && list[k].name == n;
    }
    if k :| 0 <= k < |list| && list[k].tag == tag {
      assert list[k].name in Names(list);
      assert IsBackup(files, list[k].name);
    }
  }

  lemma NotThereYet(files: Files, tag: string, now: nat)
    requires IsLabel(tag) && !HasCopyFor(files, tag)
    ensures Name(tag, now) in files ==> files[Name(tag, now)].Folder?
  {
    NameReadsBack(tag, now);
    var name := Name(tag, now);
    assert IsBackup(files, name) ==> HasCopyFor(files, tag);
  }

  class UserData {
    var live: Live
    var marker: Option<Build>
    var files: Files
    var sidecars: Sidecars
    var aside: map<nat, Trio>

    ghost function OnDisk(): Disk
      reads this
    {
      Disk(live, sidecars, marker, files, aside)
    }

    method ListBackups() returns (list: seq<BackupFile>)
      ensures Lists(list, files)
    {
      list := [];
      var left := files.Keys;
      while left != {}
        invariant left <= files.Keys
        invariant Described(list)
        invariant |Names(list)| == |list|
        invariant forall n :: n in Names(list) <==> IsBackup(files, n) && n !in left
        decreases |left|
      {
        var name :| name in left;
        left := left - {name};
        var parsed := ParseName(name);
        if parsed.Some? && !files[name].Folder? {
          var b := BackupFile(name, parsed.value.tag, parsed.value.timestamp);
          NamesOfOneMore(list, b);
          list := list + [b];
        }
      }
      assert Names(list) == Backups(files);
    }

    /** Deletes `sorted[n..]` in order, up to the deletion that fails. */
    method DeleteFrom(sorted: seq<BackupFile>, n: nat, unlinks: nat, pruning: Fate) returns (i: nat)
      requires n <= |sorted|
      modifies this`files
      ensures n <= i <= |sorted|
      ensures files == old(files) - NamesIn(sorted, n, i)
      ensures i == if pruning == Works || n + unlinks >= |sorted| then |sorted| else n + unlinks
    {
      i := n;
      while i < |sorted| && (pruning == Works || i - n < unlinks)
        invariant n <= i <= |sorted| && (pruning != Works ==> i <= n + unlinks)
        invariant files == old(files) - NamesIn(sorted, n, i)
      {
        assert NamesIn(sorted, n, i + 1) == NamesIn(sorted, n, i) + {sorted[i].name};
        files := files - {sorted[i].name};
        i := i + 1;
      }
    }

    method PruneBackups(keep: nat, unlinks: nat, pruning: Fate)
      returns (removed: set<string>, ghost gone: set<string>, ghost kept: set<string>)
      modifies this`files
      ensures Pruned(old(files), files, gone, kept, keep)
      ensures pruning == Works ==> removed == gone && Backups(files) == kept
    {
      var list := ListBackups();
      var sorted := NewestFirst(list);
      SameMembers(list, sorted, files);
      var n := if |sorted| < keep then |sorted| else keep;
      var i := DeleteFrom(sorted, n, unlinks, pruning);
      removed := NamesIn(sorted, n, i);
      gone := removed;
      kept := NamesIn(sorted, 0, n);
      PruneIsPruned(old(files), sorted, n, i, keep);
      if pruning == Works {
        PruneIsDone(old(files), sorted, n);
      }
    }

    method HasLabel(tag: string) returns (found: bool)
      ensures found <==> HasCopyFor(files, tag)
    {
      var list := ListBackups();
      found := false;
      for i := 0 to |list|
        invariant found <==> exists k :: 0 <= k < i && list[k].tag == tag
      {
        if list[i].tag == tag {
          found := true;
        }
      }
      TagIsListed(list, files, tag);
    }

    method Unlink(name: string, works: bool)
      modifies this`files
      ensures files == if works && name in old(files) && !old(files)[name].Folder? then old(files) - {name} else old(files)
    {
      if works && name in files && !files[name].Folder? {
        files := files - {name};
      }
    }

    method BackupBeforeMigration(build: Build, w: Weather) returns (outcome: Outcome, ghost trace: Trace)
      modifies this`files
      ensures Reports(live, marker, old(files), files, build, w, trace, outcome)
    {
      trace := Nothing;
      if !live.Db? {
        return Skipped(FirstStart), Nothing;
      }
      if marker == Some(build) {
        return Skipped(SameBuild), Nothing;
      }
      if w.listing != Works {
        return if w.listing == Dies then Crashed else Failed(false), Nothing;
      }
      var tag := BackupLabel(build);
      var found := HasLabel(tag);
      if found {
        return Skipped(AlreadyBackedUp), Nothing;
      }
      if w.folder != Works {
        return if w.folder == Dies then Crashed else Failed(false), Nothing;
      }
      if w.free.Some? && w.free.value < RequiredFreeBytes(w) {
        return Failed(true), Nothing;
      }
      outcome, trace := TakeCopy(tag, w);
    }

    /** `VACUUM INTO` the partial file, which it refuses when there is something in it, and the seal on the copy. */
    method WriteSealed(partial: string, w: Weather) returns (fate: Fate)
      requires live.Db?
      modifies this`files
      ensures files - {partial} == old(files) - {partial}
      ensures fate == Works ==> files == old(files)[partial := Whole(live.state, w.keychain)]
      ensures w.copying != Works || !Writable(old(files), partial) ==>
                files == (if Writable(old(files), partial) && w.halfLeft then old(files)[partial := Half] else old(files))
      ensures fate == Works <==> w.copying == Works && Writable(old(files), partial) && (w.keychain ==> w.sealing == Works)
      ensures fate == Dies <==>
              w.copying == Dies || (w.copying == Works && Writable(old(files), partial) && w.keychain && w.sealing == Dies)
    {
      var writable := partial !in files || files[partial].Half?;
      if w.copying != Works || !writable {
        if writable && w.halfLeft {
          files := files[partial := Half];
        }
        return if w.copying == Dies then Dies else Throws;
      }
      files := files[partial := Whole(live.state, false)];
      if w.keychain {
        if w.sealing != Works {
          return w.sealing;
        }
        files := files[partial := Whole(live.state, true)];
      }
      fate := Works;
    }

    method Rename(from: string, target: string, renaming: Fate) returns (fate: Fate)
      requires from in files && from != target
      modifies this`files
      ensures fate == Works ==> files == (old(files) - {from})[target := old(files)[from]]
      ensures fate != Works ==> files == old(files)
      ensures fate == Works <==> renaming == Works && (target in old(files) ==> !old(files)[target].Folder?)
      ensures fate == Dies <==> renaming == Dies
    {
      if renaming == Works && target in files && files[target].Folder? {
        return Throws;
      }
      if renaming == Works {
        files := (files - {from})[target := files[from]];
      }
      fate := renaming;
    }

    /** Copy under a partial name, seal, rename, prune. */
    method TakeCopy(tag: string, w: Weather) returns (outcome: Outcome, ghost trace: Trace)
      requires live.Db? && IsLabel(tag) && !HasCopyFor(files, tag)
      modifies this`files
      ensures Moves(live, old(files), files, tag, w, trace)
      ensures !outcome.Skipped? && (outcome.Failed? ==> !outcome.lowDisk && trace == Left)
      ensures outcome.Failed? && w.cleanup ==> Gone(files, PartialName(tag, w.now))
      ensures outcome.Created? ==> IsCreated(outcome, files, tag, w, trace)
      ensures outcome.Created? <==> Renamed(old(files), tag, w) && w.pruning != Dies
      ensures outcome.Created? ==> (outcome.pruneFailed <==> w.pruning == Throws)
      ensures outcome == Crashed <==> DiesCopying(old(files), tag, w)
      ensures Fair(old(files), tag, w) ==> outcome.Created? && !outcome.pruneFailed
    {
      ghost var was := files;
      var target := Name(tag, w.now);
      var partial := PartialName(tag, w.now);
      var fate := WriteSealed(partial, w);
      if fate == Works {
        fate := Rename(partial, target, w.renaming);
      }
      if fate == Dies {
        return Crashed, Left;
      }
      if fate == Throws {
        Unlink(partial, w.cleanup);
        return Failed(false), Left;
      }
      NotThereYet(was, tag, w.now);
      assert files == WithCopy(was, tag, w, live.state);
      var removed, gone, kept := PruneBackups(BACKUPS_TO_KEEP, w.unlinks, w.pruning);
      trace := Taken(gone, kept);
      outcome := match w.pruning
        case Works => Created(target, removed, false)
        case Throws => Created(target, {}, true)
        case Dies => Crashed;
    }

    /** `openAndMigrate`: whatever it does to the files, `o` says so. */
    method OpenAndMigrate(o: Opening)
      modifies this`live, this`sidecars
      ensures live == o.left && sidecars == o.beside
    {
      live, sidecars := o.left, o.beside;
    }

    /** Three renames, each of which may fail: the database first. */
    method QuarantineCorruptDb(w: Weather) returns (how: Fate)
      requires w.first.fate == Corrupt && live == w.first.left && sidecars == w.first.beside
      modifies this`live, this`sidecars, this`aside
      ensures how == Quarantine(w)
      ensures live == (if MainMoves(w) then Missing else w.first.left)
      ensures sidecars == BesideFresh(w) && aside == MovedAside(old(aside), w)
    {
      if live == Missing {
        return Works;
      }
      if w.moving != Works {
        return w.moving;
      }
      aside := aside[w.later := Trio(live, TrioAt(aside, w.later).sidecars)];
      live := Missing;
      if sidecars.wal {
        if w.movingWal != Works {
          return w.movingWal;
        }
        aside := aside[w.later := aside[w.later].(sidecars := aside[w.later].sidecars.(wal := true))];
        sidecars := sidecars.(wal := false);
      }
      if sidecars.shm {
        if w.movingShm != Works {
          return w.movingShm;
        }
        aside := aside[w.later := aside[w.later].(sidecars := aside[w.later].sidecars.(shm := true))];
        sidecars := sidecars.(shm := false);
      }
      how := Works;
    }

    /** The opening half of a start: `Corrupt` is recovered from once, by moving the files aside. */
    method OpenOrRecover(w: Weather) returns (how: Fate)
      requires Possible(w)
      modifies this`live, this`sidecars, this`aside
      ensures (how == Works <==> Opens(w)) && (how == Dies <==> DiesOpening(w))
      ensures how == Works ==> live.Db?
      ensures live == LiveAfter(w) && sidecars == BesideAfter(w) && aside == MovedAside(old(aside), w)
    {
      OpenAndMigrate(w.first);
      if w.first.fate != Corrupt {
        return match w.first.fate
          case Opened => Works
          case Refused => Throws
          case _ => Dies;
      }
      how := QuarantineCorruptDb(w);
      if how != Works {
        return;
      }
      OpenAndMigrate(w.second);
      how := match w.second.fate
        case Opened => Works
        case DiedOpening => Dies
        case _ => Throws;
    }

    method InitDatabase(build: Build, w: Weather) returns (r: Report, ghost trace: Trace)
      requires Possible(w)
      modifies this
      ensures StartStep(old(OnDisk()), OnDisk(), build, w, trace, r)
    {
      var backup;
      backup, trace := BackupBeforeMigration(build, w);
      if backup == Crashed {
        return ProcessDied, trace;
      }
      var how := OpenOrRecover(w);
      if how != Works {
        return if how == Dies then ProcessDied else Threw(backup), trace;
      }
      if w.marking == Dies {
        return ProcessDied, trace;
      }
      if w.marking == Works {
        marker := Some(build);
      }
      var recovered := w.first.fate == Corrupt;
      r := Started(recovered, backup, !recovered && backup.Failed?, w.marking == Throws);
    }
  }
}
