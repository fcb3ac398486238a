// database/migrate.go, migrate_tenant.go and migration_guard.go: pending
// migrations are applied in batches by an unpublished store, under a guard file
// that lets a failed replay of the log be answered by dropping the log.
module MigrationRunner {
  import opened Wrappers
  import opened Text
  import Runs

  // What a database holds, as the list of what was committed to it.
  datatype Entry =
    | Bootstrap                                  // the migrations and checkpoint-token tables
    | Migration(name: string, guarded: bool)
    | Token(token: nat)
    | Write                                      // anything the application wrote

  // The proof that a database without its log is the one the guard was written for.
  datatype Proof = Checksum(file: seq<Entry>) | CheckpointToken(token: nat)

  datatype Guard = Guard(scope: string, pending: seq<string>, proof: Proof)

  // The database file, its log (None when there is no file) and the guard file.
  datatype Disk = Disk(saved: seq<Entry>, wal: Option<seq<Entry>>, guard: Option<Guard>)

  // The migrations that come with the program; scope tells the two flavours apart.
  datatype Catalog = Catalog(scope: string, files: seq<string>)

  const SharedBootstrap := "0000_00_00_000000_create_migrations_table.sql"

  const HeavyMigrations := [
    "2026_07_08_000000_drop_analytics_art_indexes.sql",
    "2026_07_08_000001_drop_events_art_indexes.sql",
    "2026_07_08_000002_drop_web_vitals_art_indexes.sql",
    "2026_07_30_010000_drop_search_console_fact_art_indexes.sql",
    "0013_drop_analytics_art_indexes.sql",
    "0013a_drop_events_art_indexes.sql",
    "0013b_drop_web_vitals_art_indexes.sql",
    "0016_drop_search_console_fact_art_indexes.sql"
  ]

  // migrationNeedsNativeReopen
  predicate Heavy(name: string) {
    name in HeavyMigrations
  }

  predicate Listed(c: Catalog, name: string) {
    name in c.files && name != "embed.go" && (c.scope == "shared" ==> name != SharedBootstrap)
  }

  function Log(d: Disk): seq<Entry> {
    if d.wal.Some? then d.wal.value else []
  }

  predicate AppliedIn(entries: seq<Entry>, name: string) {
    Migration(name, true) in entries || Migration(name, false) in entries
  }

  // The rows of the migrations table once the log is replayed
  predicate Applied(d: Disk, name: string) {
    AppliedIn(d.saved, name) || AppliedIn(Log(d), name)
  }

  // Files in the listing order that are not applied
  function Missing(c: Catalog, files: seq<string>, d: Disk): seq<string> {
    if files == [] then []
    else
      var n := |files| - 1;
      Missing(c, files[..n], d) + if Listed(c, files[n]) && !Applied(d, files[n]) then [files[n]] else []
  }

  function Pending(c: Catalog, d: Disk): seq<string> {
    Sort(Missing(c, c.files, d))
  }

  // The pending migrations up to the first heavy one
  function Batch(pending: seq<string>): (batch: seq<string>)
    ensures |batch| <= |pending|
  {
    if pending == [] then []
    else if Heavy(pending[0]) then [pending[0]]
    else [pending[0]] + Batch(pending[1..])
  }

  // ------------------------------------------- what the properties speak of

  // The migrations that come with the program
  ghost predicate Comes(c: Catalog, name: string) {
    && name in c.files && name != "embed.go"
    && !(c.scope == "shared" && name == "0000_00_00_000000_create_migrations_table.sql")
  }

  ghost predicate RecordedIn(entries: seq<Entry>, name: string) {
    exists k :: 0 <= k < |entries| && entries[k].Migration? && entries[k].name == name
  }

  // The database, its log replayed, has recorded the migration.
  ghost predicate Recorded(d: Disk, name: string) {
    RecordedIn(d.saved, name) || (d.wal.Some? && RecordedIn(d.wal.value, name))
  }

  // The eight that rebuild a table
  ghost predicate Rebuilds(name: string) {
    || name == "2026_07_08_000000_drop_analytics_art_indexes.sql"
    || name == "2026_07_08_000001_drop_events_art_indexes.sql"
    || name == "2026_07_08_000002_drop_web_vitals_art_indexes.sql"
    || name == "2026_07_30_010000_drop_search_console_fact_art_indexes.sql"
    || name == "0013_drop_analytics_art_indexes.sql"
    || name == "0013a_drop_events_art_indexes.sql"
    || name == "0013b_drop_web_vitals_art_indexes.sql"
    || name == "0016_drop_search_console_fact_art_indexes.sql"
  }

  lemma AppliedMeans(d: Disk, name: string)
    ensures Applied(d, name) <==> Recorded(d, name)
    ensures AppliedIn(d.saved, name) <==> RecordedIn(d.saved, name)
  {
    AppliedInMeans(d.saved, name);
    AppliedInMeans(Log(d), name);
  }

  lemma AppliedInMeans(entries: seq<Entry>, name: string)
    ensures AppliedIn(entries, name) <==> RecordedIn(entries, name)
  {
    if RecordedIn(entries, name) {
      var k :| 0 <= k < |entries| && entries[k].Migration? && entries[k].name == name;
      assert entries[k] == Migration(name, entries[k].guarded) && entries[k] in entries;
    }
  }

  // ------------------------------------------------------------------ events

  datatype Event =
    | CreateTables
    | CommitToken(token: nat)
    | Commit(name: string, guarded: bool)
    | Checkpoint
    | WriteGuard(guard: Guard)
    | ClearGuard
    | DropLog          // the WAL bypass that a guard allows
    | Publish(writes: nat)  // an opened store writes to its log

  predicate Proves(d: Disk, proof: Proof) {
    match proof
    case Checksum(file) => d.saved == file
    case CheckpointToken(token) => Token(token) in d.saved
  }

  ghost predicate Enabled(c: Catalog, d: Disk, e: Event) {
    match e
    case CreateTables => true
    case CommitToken(_) => d.guard.None?
    case Commit(name, guarded) =>
      && Listed(c, name)
      && if guarded then d.guard.Some? && name in d.guard.value.pending else d.guard.None?
    case Checkpoint => true
    case WriteGuard(guard) =>
      && d.guard.None? && Proves(d, guard.proof)
      && (forall entry :: entry in Log(d) ==> entry == Bootstrap)
      && (forall name :: Listed(c, name) && !Applied(d, name) ==> name in guard.pending)
    case ClearGuard => d.guard.Some? && d.wal.None?
    case DropLog => d.guard.Some? && Proves(d, d.guard.value.proof)
    case Publish(_) => d.guard.None?
  }

  function Append(d: Disk, entries: seq<Entry>): Disk {
    d.(wal := Some(Log(d) + entries))
  }

  function Writes(n: nat): (r: seq<Entry>)
    ensures |r| == n && forall e :: e in r ==> e == Write
  {
    seq(n, _ => Write)
  }

  function Next(d: Disk, e: Event): Disk {
    match e
    case CreateTables => Append(d, [Bootstrap])
    case CommitToken(token) => Append(d, [Token(token)])
    case Commit(name, guarded) => Append(d, [Migration(name, guarded)])
    case Checkpoint => d.(saved := d.saved + Log(d), wal := None)
    case WriteGuard(guard) => d.(guard := Some(guard))
    case ClearGuard => d.(guard := None)
    case DropLog => d.(wal := None)
    case Publish(n) => Append(d, Writes(n))
  }

  ghost function Steps(c: Catalog): Runs.Protocol<Disk, Event> {
    Runs.Protocol((d, e) => Enabled(c, d, e), (d, e) => Next(d, e))
  }

  ghost predicate IsRun(c: Catalog, trace: seq<Disk>, log: seq<Event>) {
    Runs.IsRun(Steps(c), trace, log)
  }

  // While there is a guard, the log holds nothing but migrations it names, and
  // it names every migration that is not in the database file.
  ghost predicate Inv(c: Catalog, d: Disk) {
    && (forall name :: Migration(name, true) in Log(d) ==> d.guard.Some?)
    && (d.guard.Some? ==>
         && (forall e :: e in Log(d) ==> e == Bootstrap || (e.Migration? && e.name in d.guard.value.pending))
         && (forall name :: Listed(c, name) && !AppliedIn(d.saved, name) ==> name in d.guard.value.pending))
  }

  lemma StepKeepsInv(c: Catalog, d: Disk, e: Event)
    requires Enabled(c, d, e) && Inv(c, d)
    ensures Inv(c, Next(d, e))
  {
    var d' := Next(d, e);
    match e
    case Commit(name, guarded) =>
      assert forall x :: x in Log(d') <==> x in Log(d) || x == Migration(name, guarded);
    case Publish(n) =>
      assert forall x :: x in Log(d') <==> x in Log(d) || x in Writes(n);
    case Checkpoint =>
      assert Log(d') == [] && forall x :: x in d.saved ==> x in d'.saved;
    case DropLog =>
      assert Log(d') == [];
    case WriteGuard(guard) =>
      assert Log(d') == Log(d);
      forall name | Listed(c, name) && !AppliedIn(d.saved, name) ensures name in e.guard.pending {
        assert !AppliedIn(Log(d), name);
      }
    case _ =>
      assert forall x :: x in Log(d') ==> x in Log(d) || x == Bootstrap || x.Token?;
  }

  lemma RunsKeepInv(c: Catalog, trace: seq<Disk>, log: seq<Event>, i: nat)
    requires IsRun(c, trace, log) && Inv(c, trace[0]) && i < |trace|
    ensures Inv(c, trace[i])
  {
    forall d, e | Enabled(c, d, e) && Inv(c, d) ensures Inv(c, Next(d, e)) {
      StepKeepsInv(c, d, e);
    }
    Runs.Keeps(Steps(c), d => Inv(c, d), trace, log, i);
  }

  // In every durable state, whatever crashed before it: migrations of a guarded
  // run that are only in the log have a guard that names them, and where a guard
  // allows the log to be dropped, the database file is the one it was written for,
  // no application write is in the log, and every migration in it is one the guard
  // will have applied again.
  lemma GuardCoversTheLog(c: Catalog, trace: seq<Disk>, log: seq<Event>, i: nat)
    requires IsRun(c, trace, log) && trace[0].guard.None? && i < |trace|
    requires forall name :: Migration(name, true) !in Log(trace[0])
    ensures forall name :: Migration(name, true) in Log(trace[i]) ==>
      trace[i].guard.Some? && name in trace[i].guard.value.pending
    ensures i < |log| && log[i] == DropLog ==>
      && trace[i].guard.Some?
      && (match trace[i].guard.value.proof
          case Checksum(file) => trace[i].saved == file
          case CheckpointToken(token) => Token(token) in trace[i].saved)
      && Write !in Log(trace[i])
      && trace[i + 1].saved == trace[i].saved
      && trace[i + 1].guard == trace[i].guard
      && forall name :: Comes(c, name) && !Recorded(trace[i + 1], name) ==> name in trace[i + 1].guard.value.pending
  {
    RunsKeepInv(c, trace, log, i);
    if i < |log| {
      RunsKeepInv(c, trace, log, i + 1);
      var d := trace[i + 1];
      forall name | Comes(c, name) && !Recorded(d, name) ensures Listed(c, name) && !Applied(d, name) {
        AppliedMeans(d, name);
      }
    }
  }

  // Everything that comes with the program is in the database file.
  ghost predicate Done(c: Catalog, d: Disk) {
    d.wal.None? && forall name :: Comes(c, name) ==> RecordedIn(d.saved, name)
  }

  // From the given step on a guard is given up only when nothing needs it any more.
  ghost predicate GuardKept(c: Catalog, trace: seq<Disk>, log: seq<Event>, first: nat)
    requires |trace| == |log| + 1
  {
    forall k {:trigger log[k]} :: first <= k < |log| && trace[k].guard.Some? && trace[k + 1].guard.None? ==>
      Done(c, trace[k])
  }

  lemma GuardKeptStep(c: Catalog, trace: seq<Disk>, log: seq<Event>, first: nat, e: Event)
    requires |trace| == |log| + 1 && GuardKept(c, trace, log, first)
    requires e.ClearGuard? ==> Done(c, trace[|log|])
    ensures GuardKept(c, trace + [Next(trace[|log|], e)], log + [e], first)
  {
    hide Done;
    var trace', log' := trace + [Next(trace[|log|], e)], log + [e];
    forall k | first <= k < |log'| && trace'[k].guard.Some? && trace'[k + 1].guard.None? ensures Done(c, trace'[k]) {
      if k < |log| {
        assert log'[k] == log[k];
      }
    }
  }

  // What a connection does to the files
  ghost predicate Connects(e: Event) {
    e.DropLog? || e.Checkpoint? || e.ClearGuard?
  }

  // Nothing but that happens from the one step to the other.
  ghost predicate ConnectsFirst(log: seq<Event>, first: nat, end: nat) {
    first <= end <= |log| && forall k :: first <= k < end ==> Connects(log[k])
  }

  lemma ConnectsFirstStays(log: seq<Event>, longer: seq<Event>, first: nat, end: nat)
    requires log <= longer && ConnectsFirst(log, first, end)
    ensures ConnectsFirst(longer, first, end)
  {
  }

  // A guarded migration that is committed to the log only, and a log that then
  // fails to replay, are where the program started: so no bound on its rounds
  // exists that does not count those failures.
  ghost predicate Repeats(c: Catalog, d: Disk, name: string, trace: seq<Disk>, log: seq<Event>, n: nat) {
    && IsRun(c, trace, log) && |log| == 2 * n && trace[0] == d && trace[2 * n] == d
    && forall k :: 0 <= k < n ==> log[2 * k] == Commit(name, true) && log[2 * k + 1] == DropLog
  }

  lemma {:induction false} DropsMayRepeat(c: Catalog, d: Disk, name: string, n: nat)
    returns (trace: seq<Disk>, log: seq<Event>)
    requires Listed(c, name) && d.wal.None? && d.guard.Some? && name in d.guard.value.pending
    requires Proves(d, d.guard.value.proof)
    ensures Repeats(c, d, name, trace, log, n)
  {
    hide Listed;
    if n == 0 {
      trace, log := [d], [];
    } else {
      var t, l := DropsMayRepeat(c, d, name, n - 1);
      var committed := Next(d, Commit(name, true));
      trace, log := t + [committed, d], l + [Commit(name, true), DropLog];
      assert Next(committed, DropLog) == d;
      forall i | 0 <= i < |log| ensures Enabled(c, trace[i], log[i]) && trace[i + 1] == Next(trace[i], log[i]) {
        if i < |l| { assert log[i] == l[i] && trace[i] == t[i] && trace[i + 1] == t[i + 1]; }
      }
    }
  }

  // -------------------------------------------------------- order and batches

  lemma {:induction false} MissingMeans(c: Catalog, files: seq<string>, d: Disk)
    ensures forall name :: name in Missing(c, files, d) <==> name in files && Listed(c, name) && !Applied(d, name)
  {
    hide Listed;
    if files != [] {
      var n := |files| - 1;
      MissingMeans(c, files[..n], d);
      assert files == files[..n] + [files[n]];
    }
  }

  lemma PendingMeans(c: Catalog, d: Disk)
    ensures forall name :: name in Pending(c, d) <==> Listed(c, name) && !Applied(d, name)
    ensures forall name :: name in Pending(c, d) <==> Comes(c, name) && !Recorded(d, name)
    ensures Sorted(Pending(c, d))
  {
    hide Missing, Applied, Recorded;
    forall name ensures Applied(d, name) <==> Recorded(d, name) {
      AppliedMeans(d, name);
    }
    MissingMeans(c, c.files, d);
    SortKeeps(Missing(c, c.files, d));
    SortSorts(Missing(c, c.files, d));
  }

  // A batch is a prefix of the sorted list and stops after its first heavy migration.
  lemma {:induction false} BatchIsPrefix(pending: seq<string>)
    ensures |Batch(pending)| <= |pending| && Batch(pending) == pending[..|Batch(pending)|]
    ensures pending != [] ==> Batch(pending) != []
    ensures forall i :: 0 <= i < |Batch(pending)| - 1 ==> !Heavy(Batch(pending)[i])
    ensures |Batch(pending)| < |pending| ==> Heavy(Batch(pending)[|Batch(pending)| - 1])
  {
    hide Heavy;
    if pending != [] {
      BatchIsPrefix(pending[1..]);
      if !Heavy(pending[0]) {
        assert Batch(pending) == [pending[0]] + Batch(pending[1..]);
      }
    }
  }

  ghost predicate Distinct(files: seq<string>) {
    forall i, j :: 0 <= i < j < |files| ==> files[i] != files[j]
  }

  lemma {:induction false} MissingIsDistinct(c: Catalog, files: seq<string>, d: Disk)
    requires Distinct(files)
    ensures Distinct(Missing(c, files, d))
  {
    if files != [] {
      var n := |files| - 1;
      MissingIsDistinct(c, files[..n], d);
      MissingMeans(c, files[..n], d);
      assert files[n] !in files[..n];
    }
  }

  lemma PendingAscends(c: Catalog, d: Disk)
    requires Distinct(c.files)
    ensures Ascending(Pending(c, d))
  {
    MissingIsDistinct(c, c.files, d);
    DistinctByCounts(Pending(c, d), Missing(c, c.files, d));
    PendingMeans(c, d);
    SortedDistinctIsAscending(Pending(c, d));
  }

  lemma HalvesAreApart(p: seq<string>, k: nat, name: string)
    requires Ascending(p) && k <= |p|
    ensures !(name in p[..k] && name in p[k..])
  {
    forall i, j | 0 <= i < k <= j < |p| ensures p[i] != p[j] {
      LessIrreflexive(p[i]);
    }
  }

  // Applying a prefix of what is pending leaves the rest pending, in order.
  lemma PendingAfter(c: Catalog, d: Disk, d': Disk, k: nat)
    requires Distinct(c.files) && k <= |Pending(c, d)|
    requires forall name :: Applied(d', name) <==> Applied(d, name) || name in Pending(c, d)[..k]
    ensures Pending(c, d') == Pending(c, d)[k..]
  {
    hide Applied, Pending, Listed;
    var p, p' := Pending(c, d), Pending(c, d');
    PendingAscends(c, d);
    PendingAscends(c, d');
    PendingMeans(c, d);
    PendingMeans(c, d');
    assert p == p[..k] + p[k..];
    forall name ensures name in p' <==> name in p[k..] {
      HalvesAreApart(p, k, name);
    }
    AscendingIsUnique(p', p[k..]);
  }

  // -------------------------------------------------------------- the program

  datatype Replay = Replayed | Unreplayable | OtherFailure

  // A Store that no other goroutine can see yet
  class MigratingStore {
    const catalog: Catalog
    var disk: Disk
    var opens: nat
    var replayFailures: nat        // how often the log may yet fail to replay
    var failures: nat              // operations that returned another error
    ghost var trace: seq<Disk>
    ghost var log: seq<Event>
    ghost var committed: seq<string>
    ghost var at: seq<nat>         // how often the database had been opened at each commit
    ghost var drops: nat
    ghost var since: Option<nat>   // the step behind the first connection of the running call

    ghost predicate Valid()
      reads this
    {
      && IsRun(catalog, trace, log) && trace[|log|] == disk && Distinct(catalog.files) && Inv(catalog, disk)
      && (since.Some? ==> GuardKept(catalog, trace, log, since.value))
      && |at| == |committed|
    }

    ghost predicate Continues(before: seq<Disk>, beforeLog: seq<Event>)
      reads this
    {
      Valid() && before <= trace && beforeLog <= log
    }

    // Everything behind these commits happened since the database was last opened.
    ghost predicate CommittedNow(before: seq<nat>)
      reads this
    {
      before <= at && forall k :: |before| <= k < |at| ==> at[k] == opens
    }

    constructor (catalog: Catalog, disk: Disk, replayFailures: nat)
      requires Distinct(catalog.files) && Inv(catalog, disk)
      ensures Valid() && trace == [disk] && this.catalog == catalog && this.disk == disk
      ensures opens == 0 && committed == [] && drops == 0 && failures == 0
    {
      failures := 0;
      this.catalog, this.disk, this.replayFailures, opens := catalog, disk, replayFailures, 0;
      trace, log, committed, at, drops, since := [disk], [], [], [], 0, None;
    }

    // One step; when it fails its outcome is uncertain.
    method Try(e: Event) returns (ok: bool)
      requires Valid() && Enabled(catalog, disk, e)
      requires since.Some? && e.ClearGuard? ==> Done(catalog, disk)
      modifies this`failures, this`disk, this`trace, this`log
      ensures Continues(old(trace), old(log))
      ensures ok ==> disk == Next(old(disk), e)
      ensures disk == old(disk) || disk == Next(old(disk), e)
      ensures log == old(log) || log == old(log) + [e]
      ensures failures == old(failures) + if ok then 0 else 1
    {
      hide Enabled, Next, Inv, GuardKept, Done;
      var effective: bool := *;
      ok := *;
      if !ok {
        failures := failures + 1;
      }
      if ok || effective {
        StepKeepsInv(catalog, disk, e);
        if since.Some? {
          GuardKeptStep(catalog, trace, log, since.value, e);
        }
        disk := Next(disk, e);
        trace, log := trace + [disk], log + [e];
      }
    }

    method OpenLog() returns (r: Replay)
      modifies this`replayFailures, this`failures
      ensures r == Unreplayable ==> old(replayFailures) > 0 && replayFailures == old(replayFailures) - 1
      ensures r != Unreplayable ==> replayFailures == old(replayFailures)
      ensures failures == old(failures) + if r == OtherFailure then 1 else 0
    {
      r := *;
      if r == Unreplayable && replayFailures == 0 {
        r := OtherFailure;
      }
      if r == Unreplayable {
        replayFailures := replayFailures - 1;
      } else if r == OtherFailure {
        failures := failures + 1;
      }
    }

    // Connect, as far as the guard goes. An unguarded log that cannot be
    // replayed is an error here; WalRecovery has the rest.
    method Connect(preserve: bool) returns (ok: bool)
      requires Valid() && (preserve || since.None?)
      modifies this`failures, this`disk, this`trace, this`log, this`replayFailures, this`drops
      ensures Continues(old(trace), old(log))
      ensures ok ==> disk.guard == if preserve then old(disk).guard else None
      ensures ok ==>
        if drops == old(drops) then replayFailures == old(replayFailures) else replayFailures < old(replayFailures)
      ensures ok && drops == old(drops) ==> forall name :: Applied(disk, name) <==> Applied(old(disk), name)
      ensures drops >= old(drops) && ConnectsFirst(log, |old(log)|, |log|)
      ensures failures >= old(failures) && replayFailures <= old(replayFailures)
      ensures failures == old(failures) && replayFailures == old(replayFailures) ==> ok
    {
      hide Listed, Inv, IsRun, GuardKept, Done;
      var guard := disk.guard;
      var replay := OpenLog();
      if replay == OtherFailure {
        return false;
      }
      if replay == Unreplayable {
        if guard.None? || !Proves(disk, guard.value.proof) {
          return false;
        }
        ok := Try(DropLog);
        drops := drops + 1;
        if !ok {
          return;
        }
      }
      ok := true;
      if guard.Some? {
        ok := Try(Checkpoint);
        if ok && !preserve {
          ok := Try(ClearGuard);
        }
      }
    }

    // The connection a round begins with; from the first one of a call on the
    // guard is kept.
    method Reopen(preserve: bool) returns (ok: bool)
      requires Valid() && preserve == since.Some?
      modifies this`failures, this`disk, this`trace, this`log
      modifies this`replayFailures, this`drops, this`opens, this`since
      ensures Continues(old(trace), old(log)) && opens == old(opens) + 1 && since.Some?
      ensures if preserve then since == old(since) else ConnectsFirst(log, |old(log)|, since.value)
      ensures ok ==>
        if drops == old(drops) then replayFailures == old(replayFailures) else replayFailures < old(replayFailures)
      ensures ok && drops == old(drops) ==> Pending(catalog, disk) == Pending(catalog, old(disk))
      ensures drops >= old(drops) && failures >= old(failures) && replayFailures <= old(replayFailures)
      ensures failures == old(failures) && replayFailures == old(replayFailures) ==> ok
      ensures ok ==> disk.guard == if preserve then old(disk).guard else None
    {
      hide Inv, IsRun, Listed, Applied, GuardKept, Pending, ConnectsFirst;
      opens := opens + 1;
      ok := Connect(preserve);
      if !preserve {
        Connected();
      }
      if ok && drops == old(drops) {
        PendingAfter(catalog, old(disk), disk, 0);
      }
    }

    ghost method Connected()
      requires Valid()
      modifies this`since
      ensures Valid() && since == Some(|log|)
    {
      since := Some(|log|);
    }

    // prepareGuardedMigration
    method PrepareGuard(pending: seq<string>, cleanBase: bool) returns (ok: bool)
      requires Valid() && pending == Pending(catalog, disk)
      requires cleanBase ==> forall e :: e in Log(disk) ==> e == Bootstrap
      modifies this`failures, this`disk, this`trace, this`log
      ensures Continues(old(trace), old(log))
      ensures ok ==> disk.guard.Some? && disk.guard.value.scope == catalog.scope
      ensures ok && old(disk).guard.Some? ==> disk == old(disk)
      ensures failures >= old(failures)
      ensures if old(disk).guard.Some? then ok == (old(disk).guard.value.scope == catalog.scope)
              else failures == old(failures) ==> ok
      ensures ok && old(disk).guard.None? ==>
        && disk.guard.value.pending == pending
        && if cleanBase then disk.guard.value.proof == Checksum(disk.saved) && disk.(guard := None) == old(disk)
           else disk.guard.value.proof.CheckpointToken? && Proves(disk, disk.guard.value.proof) && disk.wal.None?
      ensures forall name :: Applied(disk, name) <==> Applied(old(disk), name)
    {
      hide Listed, Inv, IsRun, Pending, GuardKept;
      PendingMeans(catalog, disk);
      if disk.guard.Some? {
        return disk.guard.value.scope == catalog.scope;
      }
      if cleanBase {
        ok := Try(WriteGuard(Guard(catalog.scope, pending, Checksum(disk.saved))));
        return;
      }
      var token: nat := *;
      ok := Try(CommitToken(token));
      if !ok {
        return;
      }
      ok := Try(Checkpoint);
      if ok {
        ok := Try(WriteGuard(Guard(catalog.scope, pending, CheckpointToken(token))));
      }
    }

    // completeGuardedMigration
    method CompleteGuard() returns (ok: bool)
      requires Valid() && disk.guard.Some?
      requires forall name :: Listed(catalog, name) ==> Applied(disk, name)
      modifies this`failures, this`disk, this`trace, this`log
      ensures Continues(old(trace), old(log))
      ensures ok ==> disk.guard.None? && disk.wal.None?
      ensures failures >= old(failures) && (failures == old(failures) ==> ok)
      ensures forall name :: Applied(disk, name) <==> Applied(old(disk), name)
    {
      hide Listed, Inv, IsRun, GuardKept, Done;
      ok := Try(Checkpoint);
      if ok {
        AllSaved(catalog, disk);
        ok := Try(ClearGuard);
      }
    }

    // One migration: its transaction, then a CHECKPOINT unless the native
    // instance is to be reopened.
    method ApplyOne(name: string, reopen: bool) returns (ok: bool)
      requires Valid() && Listed(catalog, name) && disk.guard.Some? && name in disk.guard.value.pending
      modifies this`failures, this`disk, this`trace, this`log, this`committed, this`at
      ensures Continues(old(trace), old(log)) && disk.guard == old(disk).guard
      ensures ok ==> committed == old(committed) + [name] && at == old(at) + [opens]
      ensures ok ==> forall other :: Applied(disk, other) <==> Applied(old(disk), other) || other == name
      ensures ok && !reopen ==> disk.wal.None?
      ensures failures >= old(failures) && (failures == old(failures) ==> ok)
    {
      hide Inv, IsRun, GuardKept;
      ok := Try(Commit(name, true));
      if !ok {
        return;
      }
      CommitApplies(old(disk), name);
      committed, at := committed + [name], at + [opens];
      if !reopen {
        ghost var before := disk;
        ok := Try(Checkpoint);
        CheckpointApplies(before);
      }
    }

    // The loop over a batch. A heavy migration that ends it stays in the log
    // until the next native instance has replayed it.
    method ApplyBatch(batch: seq<string>) returns (ok: bool, reopen: bool)
      requires Valid() && disk.guard.Some?
      requires forall name :: name in batch ==> Listed(catalog, name) && name in disk.guard.value.pending
      modifies this`failures, this`disk, this`trace, this`log, this`committed, this`at
      ensures Continues(old(trace), old(log))
      ensures disk.guard == old(disk).guard
      ensures ok ==> committed == old(committed) + batch && CommittedNow(old(at))
      ensures failures >= old(failures) && (failures == old(failures) ==> ok)
      ensures ok ==> reopen == (batch != [] && Heavy(batch[|batch| - 1]))
      ensures ok ==> forall name :: Applied(disk, name) <==> Applied(old(disk), name) || name in batch
    {
      hide Inv, IsRun, Applied, Heavy, Listed, GuardKept;
      reopen := false;
      for i := 0 to |batch|
        invariant Continues(old(trace), old(log)) && disk.guard == old(disk).guard && failures >= old(failures)
        invariant committed == old(committed) + batch[..i] && CommittedNow(old(at))
        invariant reopen == (i > 0 && i == |batch| && Heavy(batch[i - 1]))
        invariant forall name :: Applied(disk, name) <==> Applied(old(disk), name) || name in batch[..i]
      {
        reopen := i == |batch| - 1 && Heavy(batch[i]);
        ok := ApplyOne(batch[i], reopen);
        if !ok {
          return;
        }
        assert batch[..i + 1] == batch[..i] + [batch[i]];
      }
      assert batch[..|batch|] == batch;
      ok := true;
    }

    // migrate with guarded and reopenHeavy set, and migrateTenant alike: the
    // pending migrations in sorted order, up to the first heavy one.
    method Migrate() returns (ok: bool, more: bool)
      requires Valid()
      modifies this`failures, this`disk, this`trace, this`log, this`committed, this`at
      ensures Continues(old(trace), old(log))
      ensures var pending := Pending(catalog, old(disk));
              ok ==>
                && committed == old(committed) + Batch(pending) && CommittedNow(old(at))
                && Pending(catalog, disk) == pending[|Batch(pending)|..]
                && more == (Batch(pending) != [] && Heavy(Batch(pending)[|Batch(pending)| - 1]))
                && (!more ==> Pending(catalog, disk) == [] && disk.guard.None?)
                && (more ==> disk.guard.Some? && disk.guard.value.scope == catalog.scope)
      ensures failures >= old(failures)
      ensures failures == old(failures) && (old(disk).guard.Some? ==> old(disk).guard.value.scope == catalog.scope) ==>
        ok
    {
      hide Inv, IsRun, Heavy, Listed, Applied, Batch, Pending, GuardKept;
      var cleanBase := disk.wal.None?;
      ok := EnsureTables();
      if !ok {
        return false, false;
      }
      PendingAfter(catalog, old(disk), disk, 0);
      BatchIsPrefix(Pending(catalog, disk));
      if Pending(catalog, disk) != [] {
        ok, more := ApplyPending(cleanBase);
        return;
      }
      more := false;
      if disk.guard.Some? {
        ghost var before := disk;
        NothingPending(catalog, disk);
        ok := CompleteGuard();
        PendingAfter(catalog, before, disk, 0);
      }
    }

    method ApplyPending(cleanBase: bool) returns (ok: bool, more: bool)
      requires Valid() && Pending(catalog, disk) != []
      requires cleanBase ==> forall e :: e in Log(disk) ==> e == Bootstrap
      modifies this`failures, this`disk, this`trace, this`log, this`committed, this`at
      ensures Continues(old(trace), old(log))
      ensures var pending := Pending(catalog, old(disk));
              ok ==>
                && committed == old(committed) + Batch(pending) && CommittedNow(old(at))
                && Pending(catalog, disk) == pending[|Batch(pending)|..]
                && more == (Batch(pending) != [] && Heavy(Batch(pending)[|Batch(pending)| - 1]))
                && (!more ==> Pending(catalog, disk) == [] && disk.guard.None?)
                && (more ==> disk.guard.Some? && disk.guard.value.scope == catalog.scope)
      ensures failures >= old(failures)
      ensures failures == old(failures) && (old(disk).guard.Some? ==> old(disk).guard.value.scope == catalog.scope) ==>
        ok
    {
      hide Inv, IsRun, Heavy, Listed, Applied, Batch, Pending, GuardKept;
      var files := Pending(catalog, disk);
      more := false;
      BatchIsPrefix(files);
      var batch := TakeBatch(files);
      ok := PrepareGuard(files, cleanBase);
      if !ok {
        return;
      }
      PendingAfter(catalog, old(disk), disk, 0);
      GuardNames(catalog, disk, files);
      ok, more := ApplyBatch(batch);
      if !ok {
        return;
      }
      PendingAfter(catalog, old(disk), disk, |batch|);
      if !more {
        ghost var before := disk;
        NothingPending(catalog, disk);
        ok := CompleteGuard();
        PendingAfter(catalog, before, disk, 0);
      }
    }

    // CREATE TABLE IF NOT EXISTS for the migrations and the token table
    method EnsureTables() returns (ok: bool)
      requires Valid()
      modifies this`failures, this`disk, this`trace, this`log
      ensures Continues(old(trace), old(log)) && disk.guard == old(disk).guard
      ensures disk == old(disk) || disk == Append(old(disk), [Bootstrap])
      ensures failures >= old(failures) && (failures == old(failures) ==> ok)
      ensures ok ==> Bootstrap in disk.saved || Bootstrap in Log(disk)
      ensures forall name :: Applied(disk, name) <==> Applied(old(disk), name)
    {
      hide Listed, Inv, IsRun, GuardKept;
      var exist := Bootstrap in disk.saved || Bootstrap in Log(disk);
      ok := true;
      if !exist {
        ok := Try(CreateTables);
      }
    }

    // What a connection does comes first; behind it the guard is kept.
    ghost predicate KeptBehindConnect(beforeLog: seq<Event>)
      reads this
    {
      && |trace| == |log| + 1 && since.Some?
      && ConnectsFirst(log, |beforeLog|, since.value) && GuardKept(catalog, trace, log, since.value)
    }

    // One round: the connection, and a batch
    method Round(preserve: bool, ghost committedBefore: seq<string>, ghost opensBefore: nat)
      returns (ok: bool, more: bool)
      requires Valid() && preserve == since.Some?
      requires committedBefore <= committed && Spaced(committed, at, |committedBefore|)
      requires if preserve then AwaitsReopening(committed, at, |committedBefore|, opensBefore, opens)
               else committed == committedBefore && opens == opensBefore
      requires preserve && disk.guard.Some? ==> disk.guard.value.scope == catalog.scope
      modifies this
      ensures Continues(old(trace), old(log)) && since.Some?
      ensures if preserve then since == old(since) else ConnectsFirst(log, |old(log)|, since.value)
      ensures drops >= old(drops)
      ensures ok && more ==>
        && committedBefore <= committed && Spaced(committed, at, |committedBefore|)
        && AwaitsReopening(committed, at, |committedBefore|, opensBefore, opens)
      ensures ok && !more ==>
        && OpenedBehindRebuilds(committedBefore, committed, at, opensBefore, opens)
        && disk.guard.None? && Pending(catalog, disk) == []
      ensures ok && drops == old(drops) ==>
        && replayFailures == old(replayFailures)
        && committed + Pending(catalog, disk) == old(committed) + Pending(catalog, old(disk))
        && (more ==> |Pending(catalog, disk)| < |Pending(catalog, old(disk))|)
      ensures ok && drops != old(drops) ==> replayFailures < old(replayFailures)
      ensures failures >= old(failures) && replayFailures <= old(replayFailures)
      ensures failures == old(failures) && replayFailures == old(replayFailures) ==> ok
      ensures ok && more && disk.guard.Some? ==> disk.guard.value.scope == catalog.scope
    {
      hide Inv, IsRun, Heavy, Listed, Applied, Batch, Pending, ConnectsFirst, GuardKept, Distinct, Rebuilds, Spaced;
      ok := Reopen(preserve);
      more := false;
      ghost var log' := log;
      if !ok {
        return;
      }
      ghost var pending, at' := Pending(catalog, disk), at;
      BatchIsPrefix(pending);
      ok, more := Migrate();
      if !preserve {
        ConnectsFirstStays(log', log, |old(log)|, since.value);
      }
      if ok {
        RoundIsSpaced(old(committed), at', Batch(pending), at, |committedBefore|, opensBefore, opens);
        assert pending == Batch(pending) + pending[|Batch(pending)|..];
      }
    }

    // OpenMigratedStore and OpenMigratedTenantStore, from the first connection.
    // Each round ends with its batch or reopens after a heavy migration; when no
    // log is dropped on the way, what was not recorded is committed once, in
    // order. It succeeds if no operation fails and the log replays. Behind the first
    // connection no guard is given up, however the call ends, before everything that
    // comes with the program is in the database file.
    method OpenMigrated() returns (ok: bool)
      requires Valid()
      modifies this
      ensures Continues(old(trace), old(log))
      ensures ok ==> disk.guard.None? && forall name :: Comes(catalog, name) ==> Recorded(disk, name)
      ensures ok && drops == old(drops) ==> CommittedMissing(catalog, old(disk), old(committed), committed)
      ensures ok ==> OpenedBehindRebuilds(old(committed), committed, at, old(opens), opens)
      ensures KeptBehindConnect(old(log))
      ensures failures == old(failures) && replayFailures == old(replayFailures) ==> ok
    {
      hide Inv, IsRun, Listed, Pending, ConnectsFirst, GuardKept, Distinct, Spaced, AwaitsReopening;
      hide Comes, Recorded, CommittedMissing, OpenedBehindRebuilds;
      var preserve := false;
      since := None;
      ghost var all := Pending(catalog, disk);
      SpacedSoFar(committed, at);
      while true
        invariant Continues(old(trace), old(log)) && drops >= old(drops) && preserve == since.Some?
        invariant failures >= old(failures) && replayFailures <= old(replayFailures)
        invariant preserve && disk.guard.Some? ==> disk.guard.value.scope == catalog.scope
        invariant if preserve then ConnectsFirst(log, |old(log)|, since.value) else log == old(log)
        invariant drops == old(drops) ==> committed + Pending(catalog, disk) == old(committed) + all
        invariant old(committed) <= committed && Spaced(committed, at, |old(committed)|)
        invariant if preserve then AwaitsReopening(committed, at, |old(committed)|, old(opens), opens)
          else committed == old(committed) && opens == old(opens)
        decreases replayFailures, |Pending(catalog, disk)|
      {
        ghost var logBefore := log;
        var more: bool;
        ok, more := Round(preserve, old(committed), old(opens));
        if preserve {
          ConnectsFirstStays(logBefore, log, |old(log)|, since.value);
        }
        LengthsOfRun(catalog, trace, log);
        if !ok {
          return;
        }
        if !more {
          AllApplied(catalog, disk);
          assert committed + [] == committed;
          if drops == old(drops) {
            AreMissing(catalog, old(disk), old(committed), committed);
          }
          return true;
        }
        preserve := true;
      }
    }
  }

  lemma LengthsOfRun(c: Catalog, trace: seq<Disk>, log: seq<Event>)
    requires IsRun(c, trace, log)
    ensures |trace| == |log| + 1
  {
  }

  // The new commits are, in ascending order, what comes with the program and was
  // not recorded.
  ghost predicate CommittedMissing(c: Catalog, before: Disk, committedBefore: seq<string>, committed: seq<string>) {
    && committedBefore <= committed
    && var added := committed[|committedBefore|..];
       && (forall i, j :: 0 <= i < j < |added| ==> Less(added[i], added[j]))
       && forall name :: name in added <==> Comes(c, name) && !Recorded(before, name)
  }

  // The database is opened once, and again behind each new commit of a migration
  // that rebuilds a table, and behind no other; at has the opening each commit
  // came behind.
  ghost predicate OpenedBehindRebuilds(
    committedBefore: seq<string>, committed: seq<string>, at: seq<nat>, opensBefore: nat, opens: nat)
  {
    && committedBefore <= committed && |at| == |committed|
    && Spaced(committed, at, |committedBefore|)
    && if |committed| == |committedBefore| then opens == opensBefore + 1
       else at[|committedBefore|] == opensBefore + 1
            && opens == at[|at| - 1] + if Rebuilds(committed[|at| - 1]) then 1 else 0
  }

  // From the given commit on the database is opened again behind each migration
  // that rebuilds a table, and behind no other.
  ghost predicate Spaced(committed: seq<string>, at: seq<nat>, first: nat) {
    && |at| == |committed|
    && forall k :: first <= k < |at| - 1 ==> at[k + 1] == at[k] + if Rebuilds(committed[k]) then 1 else 0
  }

  // The last commit was of such a migration, and it has not been opened again yet.
  ghost predicate AwaitsReopening(committed: seq<string>, at: seq<nat>, first: nat, start: nat, opens: nat) {
    && first < |at| == |committed| && at[first] == start + 1
    && Rebuilds(committed[|at| - 1]) && at[|at| - 1] == opens
  }

  lemma SpacedSoFar(committed: seq<string>, at: seq<nat>)
    requires |at| == |committed|
    ensures Spaced(committed, at, |committed|)
  {
  }

  lemma AreMissing(c: Catalog, before: Disk, committedBefore: seq<string>, committed: seq<string>)
    requires Distinct(c.files) && committed == committedBefore + Pending(c, before)
    ensures CommittedMissing(c, before, committedBefore, committed)
  {
    hide Comes, Recorded, Pending;
    PendingMeans(c, before);
    PendingAscends(c, before);
    assert committed[|committedBefore|..] == Pending(c, before);
  }

  lemma HeavyMeans(name: string)
    ensures Heavy(name) <==> Rebuilds(name)
  {
  }

  // One round: an opening, then a batch
  lemma RoundIsSpaced(
    committed: seq<string>, at: seq<nat>, batch: seq<string>, at': seq<nat>, first: nat, start: nat, opens: nat)
    requires Spaced(committed, at, first) && first <= |committed|
    requires at <= at' && |at'| == |committed| + |batch| && forall k :: |at| <= k < |at'| ==> at'[k] == opens
    requires forall k :: 0 <= k < |batch| - 1 ==> !Heavy(batch[k])
    requires if first < |committed| then opens > 0 && AwaitsReopening(committed, at, first, start, opens - 1)
             else opens == start + 1
    ensures Spaced(committed + batch, at', first)
    ensures batch != [] ==> at'[first] == start + 1 && at'[|at'| - 1] == opens
    ensures batch != [] && Heavy(batch[|batch| - 1]) ==> AwaitsReopening(committed + batch, at', first, start, opens)
    ensures batch != [] && !Heavy(batch[|batch| - 1]) ==> !Rebuilds((committed + batch)[|at'| - 1])
  {
    hide Heavy, Rebuilds;
    forall name { HeavyMeans(name); }
    var committed' := committed + batch;
    forall k | first <= k < |at'| - 1
      ensures at'[k + 1] == at'[k] + if Rebuilds(committed'[k]) then 1 else 0
    {
      if k < |at| - 1 {
        assert at'[k] == at[k] && at'[k + 1] == at[k + 1] && committed'[k] == committed[k];
      } else if k == |at| - 1 {
        assert at'[k] == at[k] && committed'[k] == committed[k];
      } else {
        assert committed'[k] == batch[k - |at|];
      }
    }
  }

  lemma NothingPending(c: Catalog, d: Disk)
    requires Pending(c, d) == []
    ensures forall name :: Listed(c, name) ==> Applied(d, name)
  {
    PendingMeans(c, d);
  }

  // The search for the end of a batch
  method TakeBatch(pending: seq<string>) returns (batch: seq<string>)
    ensures batch == Batch(pending)
  {
    hide Heavy, Batch;
    var end := 0;
    assert pending[0..] == pending;
    while end < |pending| && !Heavy(pending[end])
      invariant 0 <= end <= |pending|
      invariant Batch(pending) == pending[..end] + Batch(pending[end..])
    {
      BatchFrom(pending, end);
      end := end + 1;
    }
    BatchFrom(pending, end);
    if end < |pending| {
      end := end + 1;
    }
    return pending[..end];
  }

  lemma BatchFrom(pending: seq<string>, end: nat)
    requires end <= |pending|
    ensures end == |pending| ==> pending[..end] + Batch(pending[end..]) == pending[..end]
    ensures end < |pending| ==>
      pending[..end] + Batch(pending[end..])
        == pending[..end + 1] + if Heavy(pending[end]) then [] else Batch(pending[end + 1..])
  {
    hide Heavy;
    if end < |pending| {
      assert pending[end..][1..] == pending[end + 1..];
      assert pending[..end + 1] == pending[..end] + [pending[end]];
    }
  }

  lemma AllApplied(c: Catalog, d: Disk)
    requires Pending(c, d) == []
    ensures forall name :: Comes(c, name) ==> Recorded(d, name)
  {
    hide Recorded, Comes;
    PendingMeans(c, d);
  }

  lemma AllSaved(c: Catalog, d: Disk)
    requires d.wal.None? && forall name :: Listed(c, name) ==> Applied(d, name)
    ensures Done(c, d)
  {
    forall name | Comes(c, name) ensures RecordedIn(d.saved, name) {
      assert Listed(c, name);
      AppliedMeans(d, name);
    }
  }

  // A guard names everything that is pending under it.
  lemma GuardNames(c: Catalog, d: Disk, pending: seq<string>)
    requires Inv(c, d) && d.guard.Some? && pending == Pending(c, d)
    ensures forall name :: name in pending ==> Listed(c, name) && name in d.guard.value.pending
  {
    PendingMeans(c, d);
  }

  lemma CheckpointApplies(d: Disk)
    ensures forall name :: Applied(Next(d, Checkpoint), name) <==> Applied(d, name)
  {
  }

  lemma CommitApplies(d: Disk, name: string)
    ensures var d' := Next(d, Commit(name, true));
            forall other :: Applied(d', other) <==> Applied(d, other) || other == name
  {
  }
}
