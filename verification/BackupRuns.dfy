/** What the backup protocol of `pre-migration-backup.ts` and `database.ts` promises, start by start and over runs. */
module BackupRuns {
  import opened Options
  import opened BackupNames
  import opened PreMigrationBackup

  // ---- One start ----

  /** The partial file never counts, so writing, leaving or removing it does not show. */
  lemma PartialDoesNotCount(before: Files, after: Files, tag: string, now: nat)
    requires after - {PartialName(tag, now)} == before - {PartialName(tag, now)}
    ensures Backups(after) == Backups(before)
    ensures forall n :: n in Backups(before) ==> after[n] == before[n]
  {
    var partial := PartialName(tag, now);
    PartialNeverCounts(Name(tag, now));
    forall n | n != partial
      ensures (n in after <==> n in before) && (n in after ==> after[n] == before[n])
    {
      assert n in after - {partial} <==> n in after;
      assert n in before - {partial} <==> n in before;
    }
  }

  lemma CopyAt(before: Files, tag: string, w: Weather, state: nat, n: string)
    requires IsLabel(tag) && Name(tag, w.now) !in before
    ensures var mid := WithCopy(before, tag, w, state);
            && (n in Backups(mid) <==> n in Backups(before) || n == Name(tag, w.now))
            && (n in Backups(before) ==> n != Name(tag, w.now) && mid[n] == before[n])
  {
    NameReadsBack(tag, w.now);
    PartialNeverCounts(Name(tag, w.now));
  }

  /** The copy is one more backup, and the other ones stay as they were. */
  lemma CopyIsOneMore(before: Files, tag: string, w: Weather, state: nat)
    requires IsLabel(tag) && Name(tag, w.now) !in before
    ensures var mid := WithCopy(before, tag, w, state);
            && Backups(mid) == Backups(before) + {Name(tag, w.now)}
            && |Backups(mid)| == |Backups(before)| + 1
            && forall n :: n in Backups(before) ==> mid[n] == before[n]
  {
    var copies, others, copy := Backups(WithCopy(before, tag, w, state)), Backups(before), Name(tag, w.now);
    forall n
      ensures n in copies <==> n in others || n == copy
      ensures n in others ==> n != copy && WithCopy(before, tag, w, state)[n] == before[n]
    {
      CopyAt(before, tag, w, state, n);
    }
    assert copies == others + {copy};
  }

  /** The backups of the middle state minus the deleted ones. */
  lemma PrunedLeaves(mid: Files, after: Files, gone: set<string>, kept: set<string>, keep: nat)
    requires Pruned(mid, after, gone, kept, keep)
    ensures Backups(after) == Backups(mid) - gone && kept <= Backups(after)
    ensures forall n :: n in Backups(after) ==> after[n] == mid[n]
  {
  }

  lemma SubsetCount(a: set<string>, b: set<string>)
    requires a <= b
    ensures |a| <= |b|
  {
    if a == {} {
    } else {
      var x :| x in a;
      SubsetCount(a - {x}, b - {x});
    }
  }

  /** No start, however it ends, leaves fewer copies than it found, unless it leaves three. */
  lemma KeepsCopies(live: Live, before: Files, after: Files, tag: string, w: Weather, trace: Trace)
    requires IsLabel(tag) && Moves(live, before, after, tag, w, trace)
    ensures |Backups(after)| >= Min(BACKUPS_TO_KEEP, |Backups(before)|)
  {
    if trace.Left? {
      PartialDoesNotCount(before, after, tag, w.now);
    } else if trace.Taken? {
      var mid := WithCopy(before, tag, w, live.state);
      CopyIsOneMore(before, tag, w, live.state);
      PrunedLeaves(mid, after, trace.gone, trace.kept, BACKUPS_TO_KEEP);
      SubsetCount(trace.kept, Backups(after));
    }
  }

  /** A start only ever adds a copy or deletes one: what a copy holds is never written again. */
  lemma CopiesAreNotRewritten(live: Live, before: Files, after: Files, tag: string, w: Weather, trace: Trace, n: string)
    requires IsLabel(tag) && Moves(live, before, after, tag, w, trace)
    requires n in Backups(before) && n in Backups(after)
    ensures after[n] == before[n]
  {
    if trace.Left? {
      PartialDoesNotCount(before, after, tag, w.now);
    } else if trace.Taken? {
      CopyIsOneMore(before, tag, w, live.state);
      PrunedLeaves(WithCopy(before, tag, w, live.state), after, trace.gone, trace.kept, BACKUPS_TO_KEEP);
    }
  }

  /** A copy that was made and pruned without an error leaves three copies at most. */
  lemma AtMostThree(live: Live, marker: Option<Build>, before: Files, after: Files, build: Build, w: Weather, trace: Trace,
                    outcome: Outcome)
    requires Reports(live, marker, before, after, build, w, trace, outcome)
    requires outcome.Created? && !outcome.pruneFailed
    ensures |Backups(after)| <= BACKUPS_TO_KEEP
    ensures |Backups(after)| == Min(BACKUPS_TO_KEEP, |Backups(before)| + 1)
  {
    CopyIsOneMore(before, BackupLabel(build), w, live.state);
  }

  /** Only whole files are copies, and every one made with a keychain at hand is sealed. */
  ghost predicate Sound(files: Files, keychain: bool) {
    forall n :: n in Backups(files) ==> files[n].Whole? && (keychain ==> files[n].sealed)
  }

  lemma StaysSound(live: Live, before: Files, after: Files, tag: string, w: Weather, trace: Trace, keychain: bool)
    requires IsLabel(tag) && Moves(live, before, after, tag, w, trace)
    requires Sound(before, keychain) && (keychain ==> w.keychain)
    ensures Sound(after, keychain)
  {
    if trace.Left? {
      PartialDoesNotCount(before, after, tag, w.now);
    } else if trace.Taken? {
      CopyIsOneMore(before, tag, w, live.state);
      PrunedLeaves(WithCopy(before, tag, w, live.state), after, trace.gone, trace.kept, BACKUPS_TO_KEEP);
    }
  }

  // ---- Which copies a start deletes ----

  /** The other copies at least as new as `n`. */
  function NotOlder(files: Files, n: string): set<string>
    requires ParseName(n).Some?
  {
    set m | m in Backups(files) && m != n && Stamp(m) >= Stamp(n)
  }

  function NewCopies(trace: Trace): nat {
    if trace.Taken? then 1 else 0
  }

  /** A deleted copy had three others at least as new. */
  lemma DeletedHasThreeNewer(mid: Files, after: Files, gone: set<string>, kept: set<string>, n: string)
    requires Pruned(mid, after, gone, kept, BACKUPS_TO_KEEP)
    requires n in gone
    ensures |NotOlder(mid, n)| >= BACKUPS_TO_KEEP
  {
    if |kept| == |Backups(mid)| {
      SubsetCount(kept + {n}, Backups(mid));
      assert false;
    }
    assert kept <= NotOlder(mid, n);
    SubsetCount(kept, NotOlder(mid, n));
  }

  /** With two places to spare, counting the copy this start may take, a copy stays as it is. */
  lemma StaysWhileNewest(live: Live, before: Files, after: Files, tag: string, w: Weather, trace: Trace, n: string)
    requires IsLabel(tag) && Moves(live, before, after, tag, w, trace)
    requires n in Backups(before) && |NotOlder(before, n)| + NewCopies(trace) < BACKUPS_TO_KEEP
    ensures n in Backups(after) && after[n] == before[n]
    ensures |NotOlder(after, n)| <= |NotOlder(before, n)| + NewCopies(trace)
  {
    if trace.Left? {
      PartialDoesNotCount(before, after, tag, w.now);
      assert NotOlder(after, n) == NotOlder(before, n);
    } else if trace.Taken? {
      var mid := WithCopy(before, tag, w, live.state);
      CopyIsOneMore(before, tag, w, live.state);
      PrunedLeaves(mid, after, trace.gone, trace.kept, BACKUPS_TO_KEEP);
      SubsetCount(NotOlder(mid, n), NotOlder(before, n) + {Name(tag, w.now)});
      if n in trace.gone {
        DeletedHasThreeNewer(mid, after, trace.gone, trace.kept, n);
      }
      SubsetCount(NotOlder(after, n), NotOlder(mid, n));
    }
  }

  /** The copies as new as `now` before a start. */
  function Ahead(files: Files, now: nat): set<string> {
    set m | m in Backups(files) && Stamp(m) >= now
  }

  /** With a clock ahead of all but two copies, the copy just taken survives its own pruning. */
  lemma NewCopySurvives(live: Live, before: Files, after: Files, tag: string, w: Weather, trace: Trace)
    requires IsLabel(tag) && Moves(live, before, after, tag, w, trace) && trace.Taken?
    requires |Ahead(before, w.now)| < BACKUPS_TO_KEEP
    ensures var n := Name(tag, w.now);
            && n in Backups(after)
            && after[n] == Whole(live.state, w.keychain)
            && NotOlder(after, n) <= Ahead(before, w.now)
  {
    var mid := WithCopy(before, tag, w, live.state);
    var n := Name(tag, w.now);
    NameReadsBack(tag, w.now);
    CopyIsOneMore(before, tag, w, live.state);
    PrunedLeaves(mid, after, trace.gone, trace.kept, BACKUPS_TO_KEEP);
    NotOlderThanNew(before, tag, w, live.state);
    if n in trace.gone {
      DeletedHasThreeNewer(mid, after, trace.gone, trace.kept, n);
    }
  }

  lemma {:induction false} NotOlderThanNew(before: Files, tag: string, w: Weather, state: nat)
    requires IsLabel(tag) && Name(tag, w.now) !in before
    ensures ParseName(Name(tag, w.now)).Some?
    ensures NotOlder(WithCopy(before, tag, w, state), Name(tag, w.now)) == Ahead(before, w.now)
  {
    NameReadsBack(tag, w.now);
    CopyIsOneMore(before, tag, w, state);
  }

  /** The copies newer than `now`, ties left out. */
  function Newer(files: Files, now: nat): set<string> {
    set m | m in Backups(files) && Stamp(m) > now
  }

  /** Three strictly newer copies always push the new one out, when pruning completes. */
  lemma {:induction false} ThreeNewerPushOut(live: Live, before: Files, after: Files, tag: string, w: Weather, trace: Trace)
    requires IsLabel(tag) && Moves(live, before, after, tag, w, trace) && trace.Taken? && Backups(after) == trace.kept
    requires |Newer(before, w.now)| >= BACKUPS_TO_KEEP
    ensures Name(tag, w.now) !in Backups(after)
  {
    var n := Name(tag, w.now);
    NameReadsBack(tag, w.now);
    CopyIsOneMore(before, tag, w, live.state);
    PrunedLeaves(WithCopy(before, tag, w, live.state), after, trace.gone, trace.kept, BACKUPS_TO_KEEP);
    if n in Backups(after) {
      forall m | m in Newer(before, w.now)
        ensures m in trace.kept
      {
        assert m in Backups(WithCopy(before, tag, w, live.state));
        assert m in trace.gone ==> Stamp(m) <= Stamp(n);
      }
      SubsetCount(Newer(before, w.now) + {n}, trace.kept);
    }
  }

  /** When no copy bears this start's own time, the new copy survives exactly with fewer than three newer ones. */
  lemma {:induction false} NewCopySurvivesIff(live: Live, before: Files, after: Files, tag: string, w: Weather, trace: Trace)
    requires IsLabel(tag) && Moves(live, before, after, tag, w, trace) && trace.Taken? && Backups(after) == trace.kept
    requires forall m :: m in Backups(before) ==> Stamp(m) != w.now
    ensures Name(tag, w.now) in Backups(after) <==> |Ahead(before, w.now)| < BACKUPS_TO_KEEP
  {
    assert Ahead(before, w.now) == Newer(before, w.now);
    if |Ahead(before, w.now)| < BACKUPS_TO_KEEP {
      NewCopySurvives(live, before, after, tag, w, trace);
    } else {
      ThreeNewerPushOut(live, before, after, tag, w, trace);
    }
  }

  lemma {:induction false} SetOfSize(base: set<string>, pool: set<string>, size: nat) returns (r: set<string>)
    requires base <= pool && |base| <= size <= |pool|
    ensures base <= r <= pool && |r| == size
    decreases size - |base|
  {
    if |base| == size {
      r := base;
    } else {
      if pool <= base {
        SubsetCount(pool, base);
      }
      var x :| x in pool && x !in base;
      r := SetOfSize(base + {x}, pool, size);
    }
  }

  /** Keeping three of the newest is a pruning that completes. */
  lemma {:induction false} KeepsNewest(mid: Files, kept: set<string>, now: nat)
    requires kept <= Backups(mid) && |kept| == BACKUPS_TO_KEEP
    requires forall k :: k in kept ==> Stamp(k) >= now
    requires forall m :: m in Backups(mid) && Stamp(m) > now ==> m in kept
    ensures var gone := Backups(mid) - kept;
            Pruned(mid, mid - gone, gone, kept, BACKUPS_TO_KEEP) && Backups(mid - gone) == kept
  {
    SubsetCount(kept, Backups(mid));
  }

  lemma {:induction false} PruneTo(live: Live, before: Files, tag: string, w: Weather, kept: set<string>)
    returns (after: Files, t: Trace)
    requires live.Db? && IsLabel(tag) && !HasCopyFor(before, tag) && Name(tag, w.now) !in before
    requires kept <= Backups(before) + {Name(tag, w.now)} && |kept| == BACKUPS_TO_KEEP
    requires forall k :: k in kept ==> ParseName(k).Some? && Stamp(k) >= w.now
    requires Newer(before, w.now) <= kept
    ensures t.Taken? && Moves(live, before, after, tag, w, t) && Backups(after) == t.kept == kept
  {
    var mid := WithCopy(before, tag, w, live.state);
    NameReadsBack(tag, w.now);
    CopyIsOneMore(before, tag, w, live.state);
    KeepsNewest(mid, kept, w.now);
    after, t := mid - (Backups(mid) - kept), Taken(Backups(mid) - kept, kept);
  }

  /**
   * Between the two, copies of this start's own time decide, and with them the order the folder is read in: a
   * complete pruning that keeps the new copy and one that deletes it are both possible.
   */
  lemma {:induction false} TieGoesEitherWay(live: Live, before: Files, tag: string, w: Weather)
    returns (stays: Files, t1: Trace, leaves: Files, t2: Trace)
    requires live.Db? && IsLabel(tag) && !HasCopyFor(before, tag) && Name(tag, w.now) !in before
    requires |Newer(before, w.now)| < BACKUPS_TO_KEEP <= |Ahead(before, w.now)|
    ensures t1.Taken? && Moves(live, before, stays, tag, w, t1) && Backups(stays) == t1.kept
    ensures t2.Taken? && Moves(live, before, leaves, tag, w, t2) && Backups(leaves) == t2.kept
    ensures Name(tag, w.now) in Backups(stays) && Name(tag, w.now) !in Backups(leaves)
  {
    var n := Name(tag, w.now);
    NameReadsBack(tag, w.now);
    var newer, ahead := Newer(before, w.now), Ahead(before, w.now);
    assert n !in ahead;
    var with := SetOfSize(newer + {n}, ahead + {n}, BACKUPS_TO_KEEP);
    var without := SetOfSize(newer, ahead, BACKUPS_TO_KEEP);
    stays, t1 := PruneTo(live, before, tag, w, with);
    leaves, t2 := PruneTo(live, before, tag, w, without);
  }

  /** Three whole copies of other labels, all of them newer than `now`. */
  ghost predicate ThreeAhead(files: Files, x: string, y: string, z: string, tag: string, now: nat) {
    && x != y && y != z && z != x
    && files == map[x := Whole(0, true), y := Whole(0, true), z := Whole(0, true)]
    && forall n :: n in files ==> ParseName(n).Some? && ParseName(n).value.tag != tag && Stamp(n) > now
  }

  lemma SizeOfThree(x: string, y: string, z: string)
    requires x != y && y != z && z != x
    ensures |{x, y, z}| == 3
  {
    assert {x, y, z} - {z} == {x, y};
  }

  lemma {:induction false} ThreeBackups(files: Files, x: string, y: string, z: string, tag: string, now: nat)
    requires ThreeAhead(files, x, y, z, tag, now)
    ensures Backups(files) == {x, y, z} && |Backups(files)| == BACKUPS_TO_KEEP
    ensures !HasCopyFor(files, tag)
  {
    assert files.Keys == {x, y, z};
    assert Backups(files) == files.Keys;
    SizeOfThree(x, y, z);
  }

  /** A clock set back behind three copies: the new one is taken and deleted again in the same start. */
  lemma {:induction false} PushedOut(w: Weather) returns (before: Files, after: Files, t: Trace)
    requires w.now == 4
    ensures before == map[Name("a", 5) := Whole(0, true), Name("a", 6) := Whole(0, true), Name("a", 7) := Whole(0, true)]
    ensures t.Taken? && Moves(Db(1), before, after, "b", w, t) && Backups(after) == t.kept
    ensures Name("b", 4) !in Backups(after)
  {
    var x, y, z := Name("a", 5), Name("a", 6), Name("a", 7);
    NameReadsBack("a", 5);
    NameReadsBack("a", 6);
    NameReadsBack("a", 7);
    NameReadsBack("b", 4);
    before := map[x := Whole(0, true), y := Whole(0, true), z := Whole(0, true)];
    ThreeBackups(before, x, y, z, "b", w.now);
    after, t := PruneTo(Db(1), before, "b", w, {x, y, z});
  }

  // ---- What a start that migrates is covered by ----

  /**
   * A start of a new build over an existing database goes on to `openAndMigrate` only with a copy labelled with that
   * build in place, or after reporting that the copy failed. The copy holds the database this start found, unless an
   * earlier start of the same label took it.
   */
  lemma MigrationIsCovered(d: Disk, after: Files, build: Build, w: Weather, trace: Trace, outcome: Outcome)
    requires Reports(d.live, d.marker, d.files, after, build, w, trace, outcome)
    requires d.live.Db? && d.marker != Some(build)
    requires |Ahead(d.files, w.now)| < BACKUPS_TO_KEEP
    requires !outcome.Failed? && outcome != Crashed
    ensures HasCopyFor(after, BackupLabel(build))
    ensures HasCopyFor(d.files, BackupLabel(build)) ==> after == d.files
    ensures !HasCopyFor(d.files, BackupLabel(build)) ==>
              var n := Name(BackupLabel(build), w.now);
              n in Backups(after) && after[n] == Whole(d.live.state, w.keychain)
  {
    var tag := BackupLabel(build);
    if outcome.Created? {
      NewCopySurvives(d.live, d.files, after, tag, w, trace);
      NameReadsBack(tag, w.now);
      assert IsBackup(after, Name(tag, w.now));
    }
  }

  // ---- Runs ----

  datatype Event = Event(build: Build, weather: Weather, trace: Trace, report: Report)

  /** Starts one after the other; `disks[i]` is what start `i` finds. */
  ghost predicate Run(disks: seq<Disk>, events: seq<Event>) {
    && |disks| == |events| + 1
    && forall i {:trigger events[i]} :: 0 <= i < |events| ==>
         StartStep(disks[i], disks[i + 1], events[i].build, events[i].weather, events[i].trace, events[i].report)
  }

  lemma RunWithoutLast(disks: seq<Disk>, events: seq<Event>)
    requires Run(disks, events) && events != []
    ensures Run(disks[..|events|], events[..|events| - 1])
  {
  }

  lemma StepMoves(d: Disk, e: Disk, build: Build, w: Weather, trace: Trace, r: Report)
    requires StartStep(d, e, build, w, trace, r)
    ensures Moves(d.live, d.files, e.files, BackupLabel(build), w, trace)
  {
  }

  /** Over any sequence of starts of any builds, failures and crashes included, three copies never become fewer. */
  lemma {:induction false} RunKeepsCopies(disks: seq<Disk>, events: seq<Event>)
    requires Run(disks, events)
    ensures |Backups(disks[|events|].files)| >= Min(BACKUPS_TO_KEEP, |Backups(disks[0].files)|)
  {
    if events == [] {
    } else {
      var n := |events| - 1;
      RunWithoutLast(disks, events);
      RunKeepsCopies(disks[..n + 1], events[..n]);
      var ev := events[n];
      StepMoves(disks[n], disks[n + 1], ev.build, ev.weather, ev.trace, ev.report);
      KeepsCopies(disks[n].live, disks[n].files, disks[n + 1].files, BackupLabel(ev.build), ev.weather, ev.trace);
    }
  }

  /** Once a copy labelled `tag` exists, starts of builds with that label leave the folder exactly as it is. */
  lemma {:induction false} OwnCopyFreezes(disks: seq<Disk>, events: seq<Event>, tag: string)
    requires Run(disks, events) && HasCopyFor(disks[0].files, tag)
    requires forall i :: 0 <= i < |events| ==> BackupLabel(events[i].build) == tag
    ensures disks[|events|].files == disks[0].files
  {
    if events == [] {
    } else {
      var n := |events| - 1;
      RunWithoutLast(disks, events);
      OwnCopyFreezes(disks[..n + 1], events[..n], tag);
      var ev := events[n];
      StepMoves(disks[n], disks[n + 1], ev.build, ev.weather, ev.trace, ev.report);
    }
  }

  /** How many copies the run takes. */
  function TakenIn(events: seq<Event>): nat {
    if events == [] then 0 else TakenIn(events[..|events| - 1]) + NewCopies(events[|events| - 1].trace)
  }

  /** A copy outlives every run that takes too few copies to push it out, whatever else happens. */
  lemma {:induction false} CopyOutlivesRun(disks: seq<Disk>, events: seq<Event>, n: string)
    requires Run(disks, events)
    requires n in Backups(disks[0].files) && |NotOlder(disks[0].files, n)| + TakenIn(events) < BACKUPS_TO_KEEP
    ensures n in Backups(disks[|events|].files)
    ensures disks[|events|].files[n] == disks[0].files[n]
    ensures |NotOlder(disks[|events|].files, n)| <= |NotOlder(disks[0].files, n)| + TakenIn(events)
  {
    if events == [] {
    } else {
      var k := |events| - 1;
      RunWithoutLast(disks, events);
      CopyOutlivesRun(disks[..k + 1], events[..k], n);
      var ev := events[k];
      StepMoves(disks[k], disks[k + 1], ev.build, ev.weather, ev.trace, ev.report);
      StaysWhileNewest(disks[k].live, disks[k].files, disks[k + 1].files, BackupLabel(ev.build), ev.weather, ev.trace, n);
    }
  }

  /** Every start's clock is ahead of the copies it finds. */
  ghost predicate Ticks(disks: seq<Disk>, events: seq<Event>) {
    |disks| == |events| + 1 &&
    forall i {:trigger events[i]} :: 0 <= i < |events| ==> Ahead(disks[i].files, events[i].weather.now) == {}
  }

  /** Nothing on disk is newer than the last start. */
  lemma ClockStaysAhead(d: Disk, e: Disk, build: Build, w: Weather, trace: Trace, r: Report, next: nat)
    requires StartStep(d, e, build, w, trace, r) && Ahead(d.files, w.now) == {} && w.now < next
    ensures Ahead(e.files, next) == {}
  {
    StepMoves(d, e, build, w, trace, r);
    var tag := BackupLabel(build);
    NameReadsBack(tag, w.now);
    forall m | m in Backups(d.files)
      ensures Stamp(m) < w.now
    {
      assert m !in Ahead(d.files, w.now);
    }
    if trace.Left? {
      PartialDoesNotCount(d.files, e.files, tag, w.now);
    } else if trace.Taken? {
      CopyIsOneMore(d.files, tag, w, d.live.state);
      PrunedLeaves(WithCopy(d.files, tag, w, d.live.state), e.files, trace.gone, trace.kept, BACKUPS_TO_KEEP);
    }
  }

  lemma {:induction false} ClockIsAheadAt(disks: seq<Disk>, events: seq<Event>, i: nat)
    requires Run(disks, events) && i < |events|
    requires Ahead(disks[0].files, events[0].weather.now) == {}
    requires forall j, k :: 0 <= j < k < |events| ==> events[j].weather.now < events[k].weather.now
    ensures Ahead(disks[i].files, events[i].weather.now) == {}
  {
    if i == 0 {
    } else {
      ClockIsAheadAt(disks, events, i - 1);
      var ev := events[i - 1];
      ClockStaysAhead(disks[i - 1], disks[i], ev.build, ev.weather, ev.trace, ev.report, events[i].weather.now);
    }
  }

  /** A clock that only goes forward is ahead of every copy all the time, when it is at the first start. */
  lemma {:induction false} ForwardClockTicks(disks: seq<Disk>, events: seq<Event>)
    requires Run(disks, events)
    requires events != [] ==> Ahead(disks[0].files, events[0].weather.now) == {}
    requires forall j, k :: 0 <= j < k < |events| ==> events[j].weather.now < events[k].weather.now
    ensures Ticks(disks, events)
  {
    forall i | 0 <= i < |events|
      ensures Ahead(disks[i].files, events[i].weather.now) == {}
    {
      ClockIsAheadAt(disks, events, i);
    }
  }

  /**
   * The database a new build found stays in its copy: while only that build is started, however often its migration
   * fails, and until three more copies were taken by other builds.
   */
  lemma CleanCopyStays(disks: seq<Disk>, events: seq<Event>)
    requires Run(disks, events) && events != []
    requires Ahead(disks[0].files, events[0].weather.now) == {}
    requires events[0].trace.Taken?
    requires TakenIn(events[1..]) < BACKUPS_TO_KEEP ||
             forall i :: 0 <= i < |events| ==> BackupLabel(events[i].build) == BackupLabel(events[0].build)
    ensures var n := Name(BackupLabel(events[0].build), events[0].weather.now);
            && n in Backups(disks[|events|].files)
            && disks[0].live.Db?
            && disks[|events|].files[n] == Whole(disks[0].live.state, events[0].weather.keychain)
  {
    var ev := events[0];
    var tag := BackupLabel(ev.build);
    var n := Name(tag, ev.weather.now);
    StepMoves(disks[0], disks[1], ev.build, ev.weather, ev.trace, ev.report);
    NewCopySurvives(disks[0].live, disks[0].files, disks[1].files, tag, ev.weather, ev.trace);
    RestIsRun(disks, events);
    NameReadsBack(tag, ev.weather.now);
    assert IsBackup(disks[1].files, n);
    if TakenIn(events[1..]) < BACKUPS_TO_KEEP {
      CopyOutlivesRun(disks[1..], events[1..], n);
    } else {
      OwnCopyFreezes(disks[1..], events[1..], tag);
    }
  }

  lemma RestIsRun(disks: seq<Disk>, events: seq<Event>)
    requires Run(disks, events) && events != []
    ensures Run(disks[1..], events[1..])
  {
    forall i {:trigger events[1..][i]} | 0 <= i < |events[1..]|
      ensures StartStep(disks[1..][i], disks[1..][i + 1], events[1..][i].build, events[1..][i].weather,
                        events[1..][i].trace, events[1..][i].report)
    {
      var ev := events[i + 1];
      assert StartStep(disks[i + 1], disks[i + 2], ev.build, ev.weather, ev.trace, ev.report);
    }
  }

  /** The build a start records, if it records one. */
  function Recorded(ev: Event): Option<Build> {
    if ev.report.Started? && !ev.report.markerFailed then Some(ev.build) else None
  }

  function LastRecorded(events: seq<Event>, first: Option<Build>): Option<Build> {
    if events == [] then first
    else if Recorded(events[|events| - 1]).Some? then Recorded(events[|events| - 1])
    else LastRecorded(events[..|events| - 1], first)
  }

  /** The marker names the last build that opened, migrated and could write it; no other start touches it. */
  lemma {:induction false} MarkerIsLastRecorded(disks: seq<Disk>, events: seq<Event>)
    requires Run(disks, events)
    ensures disks[|events|].marker == LastRecorded(events, disks[0].marker)
  {
    if events == [] {
    } else {
      var n := |events| - 1;
      RunWithoutLast(disks, events);
      MarkerIsLastRecorded(disks[..n + 1], events[..n]);
      var ev := events[n];
      assert StartStep(disks[n], disks[n + 1], ev.build, ev.weather, ev.trace, ev.report);
    }
  }

  /** A database moved aside is never lost to a later start, as long as no later quarantine has the same time. */
  lemma {:induction false} AsideIsKept(disks: seq<Disk>, events: seq<Event>, t: nat)
    requires Run(disks, events)
    requires t in disks[0].aside && forall i :: 0 <= i < |events| ==> events[i].weather.later != t
    ensures t in disks[|events|].aside && disks[|events|].aside[t] == disks[0].aside[t]
  {
    if events == [] {
    } else {
      var n := |events| - 1;
      RunWithoutLast(disks, events);
      AsideIsKept(disks[..n + 1], events[..n], t);
      var ev := events[n];
      assert StartStep(disks[n], disks[n + 1], ev.build, ev.weather, ev.trace, ev.report);
    }
  }

  /** Sidecars of a database that is gone: the next start creates a fresh one right beside them. */
  predicate Orphaned(d: Disk) {
    d.live == Missing && d.sidecars != ALONE
  }

  /** The corrupt database was moved aside, and one of its sidecars was not. */
  predicate Stuck(w: Weather) {
    MainMoves(w) && Quarantine(w) != Works
  }

  /** Failed openings that leave no database leave no sidecars either. */
  predicate Tidy(w: Weather) {
    (w.first.left == Missing ==> w.first.beside == ALONE) && (w.second.left == Missing ==> w.second.beside == ALONE)
  }

  /** Sidecars that were moved aside stay, even when another start moves its files aside at the same timestamp. */
  lemma SidecarsAsideStay(d: Disk, e: Disk, build: Build, w: Weather, trace: Trace, r: Report, t: nat)
    requires StartStep(d, e, build, w, trace, r) && t in d.aside
    ensures t in e.aside
    ensures (d.aside[t].sidecars.wal ==> e.aside[t].sidecars.wal) && (d.aside[t].sidecars.shm ==> e.aside[t].sidecars.shm)
  {
  }

  /** A quarantine that works leaves nothing beside the database created next. */
  lemma FreshIsAlone(w: Weather)
    requires Tidy(w) && w.first.fate == Corrupt && Quarantine(w) == Works
    ensures BesideFresh(w) == ALONE
  {
  }

  /**
   * A start leaves sidecars without their database if and only if it got as far as renaming them and one of the two
   * renames behind the first failed.
   */
  lemma OrphanedIff(d: Disk, e: Disk, build: Build, w: Weather, trace: Trace, r: Report)
    requires StartStep(d, e, build, w, trace, r) && Tidy(w) && !Orphaned(d)
    ensures Orphaned(e) <==> Stuck(w) && (e.live != d.live || e.sidecars != d.sidecars)
  {
  }

  /** A start that throws at such a rename leaves them; no start that goes on does. */
  lemma StuckThrows(d: Disk, e: Disk, build: Build, w: Weather, trace: Trace, r: Report)
    requires StartStep(d, e, build, w, trace, r) && Stuck(w)
    ensures !r.Started?
    ensures r.Threw? ==> Orphaned(e) && e.aside[w.later].main == w.first.left
  {
  }
}
