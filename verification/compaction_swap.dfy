// MaybeCompactDatabase and recoverCompactionSwap of database/compact.go: a
// rewritten database file takes the place of the original through two renames.
// One event is one operation on the disk, so a crash is a run that ends.
module CompactionSwap {
  import opened Wrappers
  import Runs

  type Bytes = seq<int>
  type Content = seq<int>

  // The paths of one database: path, path.wal, path.pre-compact,
  // path.compacting and path.compacting.wal.
  datatype Path = Live | LiveWal | Backup | Work | WorkWal

  type Disk = map<Path, Bytes>

  // The rows that DuckDB reads from a database file and its log.
  type Reader = (Bytes, Option<Bytes>) -> Content

  function At(d: Disk, p: Path): Option<Bytes> {
    if p in d then Some(d[p]) else None
  }

  function Rows(read: Reader, d: Disk): Option<Content> {
    if Live in d then Some(read(d[Live], At(d, LiveWal))) else None
  }

  function Put(d: Disk, p: Path, file: Option<Bytes>): Disk {
    if file.Some? then d[p := file.value] else d - {p}
  }

  // What the properties speak of; the program keeps none of it.
  datatype Past = Past(
    content: Option<Content>,  // the rows when the database was last open
    rewritten: bool,           // the work file is a finished rewrite of them
    published: bool,           // the live file is that rewrite, not opened yet
    lost: bool)                // some program opened other rows than the last ones

  datatype World = World(disk: Disk, past: Past)

  datatype Event =
    | Open(db: Bytes, wal: Option<Bytes>)     // any use of the database, and what it leaves
    | Measure(db: Bytes, wal: Option<Bytes>)  // opened and closed, possibly checkpointed
    | WriteWork(work: Option<Bytes>, wal: Option<Bytes>)
    | FinishRewrite(rewrite: Bytes)
    | MoveAside
    | Publish
    | Restore
    | Remove(path: Path)

  // The path may be opened unless only the backup is there: DuckDB would create
  // an empty file beside it. recoverCompactionSwap sees to that, but not every
  // program calls it first, so an opening is an event in any state.
  predicate MayOpen(d: Disk) {
    Live in d || Backup !in d
  }

  ghost predicate Enabled(read: Reader, w: World, e: Event) {
    var d := w.disk;
    match e
    case Open(_, _) => true
    case Measure(db, wal) => Live in d && read(db, wal) == read(d[Live], At(d, LiveWal))
    case WriteWork(_, _) => Live in d
    case FinishRewrite(work) => Live in d && read(work, None) == read(d[Live], At(d, LiveWal))
    case MoveAside => Live in d && w.past.rewritten
    case Publish => Live !in d && Backup in d && Work in d && w.past.rewritten
    case Restore => Live !in d && Backup in d
    case Remove(p) =>
      match p
      case Live => false
      case LiveWal => w.past.published
      case Backup => Live in d
      case _ => true
  }

  function NextDisk(d: Disk, e: Event): Disk {
    match e
    case Open(db, wal) => Put(d[Live := db], LiveWal, wal)
    case Measure(db, wal) => Put(d[Live := db], LiveWal, wal)
    case WriteWork(work, wal) => Put(Put(d, Work, work), WorkWal, wal)
    case FinishRewrite(work) => d[Work := work] - {WorkWal}
    case MoveAside => Put(d, Backup, At(d, Live)) - {Live}
    case Publish => Put(d, Live, At(d, Work)) - {Work}
    case Restore => Put(d, Live, At(d, Backup)) - {Backup}
    case Remove(p) => d - {p}
  }

  ghost function NextPast(read: Reader, d: Disk, p: Past, e: Event): Past {
    match e
    case Open(db, wal) =>
      Past(Some(read(db, wal)), false, false, p.lost || Rows(read, d) != p.content)
    case Measure(db, wal) =>
      Past(Some(read(db, wal)), false, false, p.lost || Rows(read, d) != p.content)
    case WriteWork(_, _) => p.(rewritten := false)
    case FinishRewrite(_) => p.(rewritten := true, lost := p.lost || Rows(read, d) != p.content)
    case MoveAside => p.(published := false)
    case Publish => p.(published := true, rewritten := false)
    case Restore => p.(published := false)
    case Remove(path) => if path == Work then p.(rewritten := false) else p
  }

  ghost function Next(read: Reader, w: World, e: Event): World {
    World(NextDisk(w.disk, e), NextPast(read, w.disk, w.past, e))
  }

  ghost function Steps(read: Reader): Runs.Protocol<World, Event> {
    Runs.Protocol((w, e) => Enabled(read, w, e), (w, e) => Next(read, w, e))
  }

  ghost predicate IsRun(read: Reader, trace: seq<World>, log: seq<Event>) {
    Runs.IsRun(Steps(read), trace, log)
  }

  // --------------------------------------------------------------- invariant

  // The log of the original lies beside the published rewrite.
  ghost predicate Exposed(w: World) {
    w.past.published && LiveWal in w.disk
  }

  // Events that read the database at its path, or move it with its log
  ghost predicate Uses(e: Event) {
    e.Open? || e.Measure? || e.FinishRewrite? || e.MoveAside?
  }

  // The database is whole: at its path, alone while it is published, else with
  // its log; or in the backup, with the log that stayed behind.
  ghost predicate Whole(read: Reader, w: World) {
    var d, p := w.disk, w.past;
    && !p.lost
    && (Live in d ==> p.content == if p.published then Some(read(d[Live], None)) else Rows(read, d))
    && (Live !in d ==> !p.published)
    && (Live !in d && Backup in d ==> p.content == Some(read(d[Backup], At(d, LiveWal))))
    && (Live !in d && Backup !in d ==> p.content.None?)
    && (p.rewritten ==> Work in d && p.content == Some(read(d[Work], None)) && (Live in d || Backup in d))
  }

  // The use of a database that is not exposed, and no opening beside a lone backup
  ghost predicate Careful(w: World, e: Event) {
    (Uses(e) ==> !Exposed(w)) && (e.Open? ==> MayOpen(w.disk))
  }

  // Every careful operation keeps it whole.
  lemma StepKeepsWhole(read: Reader, w: World, e: Event)
    requires Enabled(read, w, e) && Whole(read, w) && Careful(w, e)
    ensures Whole(read, Next(read, w, e))
  {
  }

  ghost function CarefulSteps(read: Reader): Runs.Protocol<World, Event> {
    Runs.Protocol((w, e) => Enabled(read, w, e) && Careful(w, e), (w, e) => Next(read, w, e))
  }

  ghost predicate Started(read: Reader, w: World) {
    && Live in w.disk && w.past == Past(Rows(read, w.disk), false, false, false)
  }

  lemma RunsKeepWhole(read: Reader, trace: seq<World>, log: seq<Event>, i: nat)
    requires IsRun(read, trace, log) && Whole(read, trace[0]) && i < |trace|
    requires forall k :: 0 <= k < i ==> Careful(trace[k], log[k])
    ensures Whole(read, trace[i])
  {
    forall w, e | CarefulSteps(read).enabled(w, e) && Whole(read, w) ensures Whole(read, Next(read, w, e)) {
      StepKeepsWhole(read, w, e);
    }
    var trace', log' := trace[..i + 1], log[..i];
    forall k | 0 <= k < i
      ensures CarefulSteps(read).enabled(trace'[k], log'[k])
      ensures trace'[k + 1] == CarefulSteps(read).next(trace'[k], log'[k])
    {
      assert log[k] == log'[k];
    }
    Runs.Keeps(CarefulSteps(read), w => Whole(read, w), trace', log', i);
  }

  // Over any number of compactions and crashes nothing is lost, under two
  // conditions on the run: the path is not opened while only the backup is there,
  // and no published rewrite is used while the log of its original lies beside
  // it. In every durable state the rows are then at the path or in the backup;
  // every program that opens the path finds the rows the last one left; and a
  // backup is removed only while the path holds all of them.
  lemma SwapLosesNothing(read: Reader, trace: seq<World>, log: seq<Event>, i: nat)
    requires IsRun(read, trace, log) && Started(read, trace[0]) && i < |trace|
    requires forall k :: 0 <= k < i && log[k].Open? ==> MayOpen(trace[k].disk)
    requires forall k :: 0 <= k < i && Uses(log[k]) ==> !Exposed(trace[k])
    ensures var d, p := trace[i].disk, trace[i].past;
            && !p.lost && p.content.Some?
            && (Live in d ==> p.content == if p.published then Some(read(d[Live], None)) else Rows(read, d))
            && (Live !in d ==> Backup in d && p.content == Some(read(d[Backup], At(d, LiveWal))))
            && (MayOpen(d) && !Exposed(trace[i]) ==> Rows(read, d) == p.content)
            && (i < |log| && log[i] == Remove(Backup) ==> Live in d)
  {
    RunsKeepWhole(read, trace, log, i);
    PathStays(read, trace, log, i);
  }

  lemma PathStays(read: Reader, trace: seq<World>, log: seq<Event>, i: nat)
    requires IsRun(read, trace, log) && Live in trace[0].disk && i < |trace|
    ensures Live in trace[i].disk || Backup in trace[i].disk
  {
    Runs.Keeps(Steps(read), (w: World) => Live in w.disk || Backup in w.disk, trace, log, i);
  }

  lemma ExposedStep(read: Reader, w: World, e: Event)
    requires Enabled(read, w, e) && Exposed(Next(read, w, e))
    ensures if Exposed(w) then e != Remove(LiveWal) && !e.Open? && !e.Measure? && !e.MoveAside?
            else e == Publish && LiveWal in w.disk
  {
  }

  // The rewrite was published beside a log at k, and from there to i it was
  // neither opened nor its log removed.
  ghost predicate PublishedBesideLog(trace: seq<World>, log: seq<Event>, k: nat, i: nat)
    requires |trace| == |log| + 1 && i <= |log|
  {
    && k < i && log[k] == Publish && LiveWal in trace[k].disk
    && forall j :: k < j < i ==> log[j] != Remove(LiveWal) && !log[j].Open? && !log[j].Measure? && !log[j].MoveAside?
  }

  // A database is exposed only between the publication of its rewrite, with a
  // log there, and the removal of the log.
  lemma {:induction false} ExposedSincePublication(read: Reader, trace: seq<World>, log: seq<Event>, i: nat)
    requires IsRun(read, trace, log) && !Exposed(trace[0]) && i < |trace| && Exposed(trace[i])
    ensures exists k: nat :: PublishedBesideLog(trace, log, k, i)
  {
    hide Enabled, Next, Exposed;
    var e := log[i - 1];
    assert Enabled(read, trace[i - 1], e) && trace[i] == Next(read, trace[i - 1], e);
    ExposedStep(read, trace[i - 1], e);
    if Exposed(trace[i - 1]) {
      ExposedSincePublication(read, trace, log, i - 1);
      var k: nat :| PublishedBesideLog(trace, log, k, i - 1);
      assert PublishedBesideLog(trace, log, k, i);
    } else {
      assert PublishedBesideLog(trace, log, i - 1, i);
    }
  }

  // Opening loses rows exactly when only the backup is there, or the database is
  // exposed and its log says something beside the rewrite.
  lemma OpeningLoses(read: Reader, w: World, db: Bytes, wal: Option<Bytes>)
    requires Whole(read, w)
    ensures Next(read, w, Open(db, wal)).past.lost <==>
      || !MayOpen(w.disk)
      || (Exposed(w) && read(w.disk[Live], At(w.disk, LiveWal)) != read(w.disk[Live], None))
  {
  }

  // Without the condition on lone backups the claim fails. From every disk with a
  // database there is a run (the process dies in the middle of the swap, the next
  // one opens the empty path and leaves its new file there, the recovery of the
  // swap finds path and backup and removes the backup, and the next compaction
  // removes the work file) that ends with nothing but the new file.
  lemma LoneBackupIsRemoved(d: Disk, created: Bytes) returns (read: Reader, trace: seq<World>, log: seq<Event>)
    requires Live in d && created != d[Live]
    ensures IsRun(read, trace, log) && Started(read, trace[0]) && trace[0].disk == d
    ensures log == [FinishRewrite(d[Live]), MoveAside, Open(created, None), Remove(Backup), Remove(Work)]
    ensures forall k :: 0 <= k < |trace| ==> !Exposed(trace[k])
    ensures Whole(read, trace[2]) && !MayOpen(trace[2].disk)
    ensures trace[5].past.lost && trace[5].disk == map[Live := created]
    ensures Rows(read, trace[5].disk) != trace[0].past.content
  {
    read := (db: Bytes, wal: Option<Bytes>) => if db == created then [1] else [0];
    log := [FinishRewrite(d[Live]), MoveAside, Open(created, None), Remove(Backup), Remove(Work)];
    var w0 := World(d, Past(Rows(read, d), false, false, false));
    var w1 := Next(read, w0, log[0]);
    var w2 := Next(read, w1, log[1]);
    var w3 := Next(read, w2, log[2]);
    var w4 := Next(read, w3, log[3]);
    var w5 := Next(read, w4, log[4]);
    trace := [w0, w1, w2, w3, w4, w5];
    assert [1][0] != [0][0];
    StepKeepsWhole(read, w0, log[0]);
    StepKeepsWhole(read, w1, log[1]);
    OpeningLoses(read, w2, created, None);
    forall p: Path ensures p in w5.disk <==> p == Live {
      match p
      case Live =>
      case LiveWal =>
      case Backup =>
      case Work =>
      case WorkWal => assert WorkWal !in w1.disk;
    }
    assert w5.disk == map[Live := created];
    assert Rows(read, w5.disk) == Some([1]) && w0.past.content == Some([0]);
    assert Enabled(read, w0, log[0]) && Enabled(read, w1, log[1]) && Enabled(read, w2, log[2]);
    assert Enabled(read, w3, log[3]) && Enabled(read, w4, log[4]);
    hide Enabled, Next, Rows, Whole;
    forall i | 0 <= i < |log| ensures Enabled(read, trace[i], log[i]) && trace[i + 1] == Next(read, trace[i], log[i]) {
      assert i == 0 || i == 1 || i == 2 || i == 3 || i == 4;
    }
  }

  // The disk when the process dies right after the rewrite is published, and the
  // next one has recovered the swap.
  function AfterDeath(d: Disk, rewrite: Bytes): Disk {
    d[Live := rewrite] - {Work, WorkWal, Backup}
  }

  // What a rewrite holds is all that is known of it. That is enough for the
  // published pair of file and log to hold the same rows, however DuckDB reads
  // them, exactly when no log lies beside the database as it moves aside (or
  // the rewrite changed nothing).
  lemma SwapIsWholeWithoutLog(d: Disk, rewrite: Bytes)
    requires Live in d
    ensures (forall read: Reader :: read(rewrite, None) == read(d[Live], At(d, LiveWal)) ==>
              Rows(read, AfterDeath(d, rewrite)) == Rows(read, d))
       <==> (LiveWal !in d || rewrite == d[Live])
  {
    if LiveWal in d && rewrite != d[Live] {
      var stale := d[LiveWal];
      var read: Reader := (db: Bytes, wal: Option<Bytes>) => if db == rewrite && wal == Some(stale) then [1] else [0];
      assert read(rewrite, None) == read(d[Live], At(d, LiveWal)) == [0];
      assert read(rewrite, Some(stale)) == [1] && [1][0] != [0][0];
      assert Rows(read, AfterDeath(d, rewrite)) != Rows(read, d);
    }
  }

  // Without the condition on exposed databases the claim fails: from every disk
  // with a log, and for every rewrite that changes the file, there is a run (the
  // swap, the death of the process after the publication, an opening) and a way
  // of reading the files in which that opening finds other rows.
  lemma StaleLogIsReplayed(d: Disk, rewrite: Bytes) returns (read: Reader, trace: seq<World>, log: seq<Event>)
    requires Live in d && LiveWal in d && rewrite != d[Live]
    ensures IsRun(read, trace, log) && Started(read, trace[0]) && trace[0].disk == d
    ensures |log| == 4 && log[3].Open? && Exposed(trace[3]) && Whole(read, trace[3]) && trace[4].past.lost
  {
    var stale := d[LiveWal];
    read := (db: Bytes, wal: Option<Bytes>) => if db == rewrite && wal == Some(stale) then [1] else [0];
    log := [FinishRewrite(rewrite), MoveAside, Publish, Open(rewrite, None)];
    var w0 := World(d, Past(Rows(read, d), false, false, false));
    var w1 := Next(read, w0, log[0]);
    var w2 := Next(read, w1, log[1]);
    var w3 := Next(read, w2, log[2]);
    trace := [w0, w1, w2, w3, Next(read, w3, log[3])];
    assert [1][0] != [0][0];
    StepKeepsWhole(read, w0, log[0]);
    StepKeepsWhole(read, w1, log[1]);
    StepKeepsWhole(read, w2, log[2]);
    assert At(w3.disk, LiveWal) == Some(stale) && w3.disk[Live] == rewrite;
    OpeningLoses(read, w3, rewrite, None);
    assert Enabled(read, w0, log[0]) && Enabled(read, w1, log[1]);
    assert Enabled(read, w2, log[2]) && Enabled(read, w3, log[3]);
    hide Enabled, Next, Rows, Whole, Exposed;
    forall i | 0 <= i < |log| ensures Enabled(read, trace[i], log[i]) && trace[i + 1] == Next(read, trace[i], log[i]) {
      assert i == 0 || i == 1 || i == 2 || i == 3;
    }
  }

  // -------------------------------------------------------------- the program

  datatype Compaction = Failed | Skipped | Compacted

  // The rows a compaction starts from
  function Held(read: Reader, d: Disk): Option<Content> {
    if Live in d then Rows(read, d)
    else if Backup in d then Some(read(d[Backup], At(d, LiveWal)))
    else None
  }

  // The rows are at the path, read with its log or, in a published rewrite,
  // alone; or they are in the backup.
  ghost predicate StillThere(read: Reader, w: World, rows: Content) {
    var d := w.disk;
    if Live in d then Rows(read, d) == Some(rows) || (w.past.published && read(d[Live], None) == rows)
    else Backup in d && read(d[Backup], At(d, LiveWal)) == rows
  }

  // What a sync of the directory makes durable
  ghost predicate Renames(e: Event) {
    e.MoveAside? || e.Publish? || e.Restore? || e == Remove(Backup)
  }

  // What pragma_database_size reports once the log is replayed
  datatype Space = Space(blockSize: int, totalBlocks: int, freeBlocks: int)

  // CompactionOptions, and the measurement
  datatype Options = Options(
    minReclaimableBytes: int, minFreeRatio: real, measure: (Bytes, Option<Bytes>) -> Space)

  // Both thresholds must be met; a file without blocks has nothing to reclaim.
  ghost predicate PaysForItself(o: Options, db: Bytes, wal: Option<Bytes>) {
    var s := o.measure(db, wal);
    if s.totalBlocks > 0 then
      && s.freeBlocks * s.blockSize >= o.minReclaimableBytes
      && s.freeBlocks as real / s.totalBlocks as real >= o.minFreeRatio
    else 0 >= o.minReclaimableBytes && 0.0 >= o.minFreeRatio
  }

  class DatabaseFile {
    const read: Reader
    const options: Options
    var disk: Disk
    ghost var past: Past
    ghost var trace: seq<World>
    ghost var log: seq<Event>
    var failures: nat
    ghost var synced: bool   // the directory was synced after the last rename

    ghost predicate Valid()
      reads this
    {
      IsRun(read, trace, log) && trace[|log|] == World(disk, past)
    }

    ghost predicate Continues(before: seq<World>, beforeLog: seq<Event>)
      reads this
    {
      Valid() && before <= trace && beforeLog <= log
    }

    constructor (read: Reader, options: Options, disk: Disk, ghost past: Past)
      ensures Valid() && trace == [World(disk, past)] && this.read == read && this.disk == disk && this.past == past
      ensures failures == 0 && this.options == options
    {
      this.read, this.options, this.disk, this.past, failures := read, options, disk, past, 0;
      trace, log, synced := [World(disk, past)], [], true;
    }

    // One operation; it may fail, and then has no effect.
    method Try(e: Event) returns (ok: bool)
      requires Valid() && Enabled(read, World(disk, past), e)
      modifies this
      ensures Continues(old(trace), old(log))
      ensures ok ==>
        disk == NextDisk(old(disk), e) && past == NextPast(read, old(disk), old(past), e) && failures == old(failures)
      ensures !ok ==> failures == old(failures) + 1 && disk == old(disk) && past == old(past)
      ensures synced == (old(synced) && (!ok || !Renames(e)))
    {
      hide Enabled, NextDisk, NextPast;
      ok := *;
      if !ok {
        failures := failures + 1;
      } else {
        past := NextPast(read, disk, past, e);
        disk := NextDisk(disk, e);
        trace, log := trace + [World(disk, past)], log + [e];
        synced := synced && !Renames(e);
      }
    }

    // syncDirectory
    method Sync() returns (ok: bool)
      modifies this`failures, this`synced
      ensures failures == old(failures) + if ok then 0 else 1
      ensures synced == (ok || old(synced))
    {
      ok := *;
      if !ok {
        failures := failures + 1;
      }
      synced := ok || synced;
    }

    // os.Remove, where a missing file is no error
    method RemoveIfThere(p: Path) returns (ok: bool)
      requires Valid() && Enabled(read, World(disk, past), Remove(p))
      modifies this
      ensures Continues(old(trace), old(log))
      ensures ok ==> disk == old(disk) - {p} && failures == old(failures)
      ensures !ok ==> failures == old(failures) + 1 && disk == old(disk)
      ensures past == old(past) || (p == Work && past == old(past).(rewritten := false))
      ensures p != Backup ==> synced == old(synced)
    {
      ok := true;
      if p in disk {
        ok := Try(Remove(p));
      } else {
        assert disk - {p} == disk;
      }
    }

    // recoverCompactionSwap. After it the path can be opened, and no backup is left.
    method RecoverSwap() returns (ok: bool)
      requires Valid()
      modifies this
      ensures Continues(old(trace), old(log))
      ensures ok ==> MayOpen(disk) && Backup !in disk
      ensures failures >= old(failures)
      ensures failures == old(failures) ==> ok
      ensures failures == old(failures) && Live !in old(disk) && Backup in old(disk) ==> Live in disk
      ensures ok && Live !in old(disk) && Backup in old(disk) ==>
        Live in disk && disk[Live] == old(disk)[Backup] && At(disk, LiveWal) == At(old(disk), LiveWal)
      ensures ok && Backup in old(disk) ==> synced
      ensures ok && Live !in old(disk) && Backup in old(disk) ==>
        Work !in disk && (failures == old(failures) ==> WorkWal !in disk)
      ensures Live in old(disk) ==> disk == old(disk) || disk == old(disk) - {Backup}
      ensures Live !in old(disk) && Backup !in old(disk) ==> ok && disk == old(disk)
      ensures old(past).content == past.content && old(past).lost == past.lost
      ensures Live in old(disk) ==> past == old(past)
      ensures if Live in disk then Rows(read, disk) == Held(read, old(disk)) else disk == old(disk)
    {
      if Live !in disk && Backup in disk {
        ok := Try(Restore);
        if !ok {
          return;
        }
        ok := Sync();
        if !ok {
          return;
        }
        ok := RemoveIfThere(Work);
        if !ok {
          return;
        }
        var removed := RemoveIfThere(WorkWal);
        return true;
      }
      if Live in disk && Backup in disk {
        ok := Try(Remove(Backup));
        if ok {
          ok := Sync();
        }
        return;
      }
      return true;
    }

    // Connect, and whatever is written until the database is closed
    method OpenPath() returns (ok: bool)
      requires Valid()
      modifies this
      ensures Continues(old(trace), old(log)) && failures >= old(failures)
      ensures ok ==>
        && Live in disk && past.content == Rows(read, disk) && (Backup in disk <==> Backup in old(disk))
        && past.lost == (old(past).lost || Rows(read, old(disk)) != old(past).content)
    {
      var db: Bytes, wal: Option<Bytes> := *, *;
      ok := Try(Open(db, wal));
    }

    // The start of OpenMigratedStore, and of every opening by the tenant store
    // manager: the swap is recovered first. Nothing is lost unless the rows the
    // swap left, at the path or in the backup, were not the last ones.
    method OpenRecovered() returns (ok: bool)
      requires Valid()
      modifies this
      ensures Continues(old(trace), old(log)) && failures >= old(failures)
      ensures ok ==> Live in disk && Backup !in disk && past.content == Rows(read, disk)
      ensures ok ==> past.lost == (old(past).lost || Held(read, old(disk)) != old(past).content)
    {
      hide IsRun, NextDisk, NextPast;
      ok := RecoverSwap();
      if ok {
        ok := OpenPath();
      }
    }

    // OpenDefaultSplitControlStore connects first, and leaves the recovery of the
    // swap to OpenMigratedStore, which it may go on to. What counts is the path
    // alone, so a lone backup is lost whatever follows, and removed if it goes on.
    method OpenDefaultSplitControlStore() returns (ok: bool, reopened: bool)
      requires Valid()
      modifies this
      ensures Continues(old(trace), old(log))
      ensures ok ==> Live in disk && past.lost == (old(past).lost || Rows(read, old(disk)) != old(past).content)
      ensures ok && reopened ==> Backup !in disk
      ensures ok && old(past).content.Some? && !MayOpen(old(disk)) ==> past.lost
    {
      hide IsRun, NextDisk, NextPast;
      reopened := false;
      ok := OpenPath();
      var asItIs: bool := *; // recovered during Connect, or a legacy indexed control file
      if !ok || asItIs {
        return;
      }
      reopened := true;
      ok := OpenRecovered();
    }

    // measureReclaimableSpace opens the database, which replays its log.
    method MeasureSpace() returns (ok: bool, worthwhile: bool)
      requires Valid() && Live in disk
      modifies this
      ensures Continues(old(trace), old(log)) && Live in disk
      ensures disk == old(disk)[Live := disk[Live]] || disk == (old(disk) - {LiveWal})[Live := disk[Live]]
      ensures Rows(read, disk) == Rows(read, old(disk))
      ensures if ok then failures == old(failures) else failures == old(failures) + 1
      ensures worthwhile <==> PaysForItself(options, old(disk)[Live], At(old(disk), LiveWal))
    {
      var space := options.measure(disk[Live], At(disk, LiveWal));
      var reclaimable, freeRatio := 0, 0.0;
      if space.totalBlocks > 0 {
        reclaimable := space.freeBlocks * space.blockSize;
        freeRatio := space.freeBlocks as real / space.totalBlocks as real;
      }
      worthwhile := !(reclaimable < options.minReclaimableBytes || freeRatio < options.minFreeRatio);
      var db: Bytes := *;
      var checkpointed: bool := *;
      var wal := if checkpointed then None else At(disk, LiveWal);
      if read(db, wal) != read(disk[Live], At(disk, LiveWal)) {
        db, wal := disk[Live], At(disk, LiveWal);
      }
      ok := Try(Measure(db, wal));
    }

    // rewriteDatabaseFile, as far as its files go; the copy itself is CatalogCopy.
    method Rewrite() returns (ok: bool)
      requires Valid() && Live in disk && Work !in disk
      modifies this
      ensures Continues(old(trace), old(log))
      ensures disk == Put(Put(old(disk), Work, At(disk, Work)), WorkWal, At(disk, WorkWal))
      ensures ok ==> past.rewritten && Work in disk && WorkWal !in disk
      ensures past.published == old(past).published && past.content == old(past).content
      ensures if ok then failures == old(failures) else failures == old(failures) + 1
      ensures Rows(read, disk) == Rows(read, old(disk)) && (ok ==> Some(read(disk[Work], None)) == Rows(read, disk))
    {
      var work: Option<Bytes>, wal: Option<Bytes> := *, *;
      ok := Try(WriteWork(work, wal));
      if !ok {
        return;
      }
      var db: Bytes := *;
      if read(db, None) != read(disk[Live], At(disk, LiveWal)) {
        failures := failures + 1; // the copy failed
        return false;
      }
      ok := Try(FinishRewrite(db));
    }

    // The swap: the original moves aside, the rewrite takes its path.
    method Swap() returns (r: Compaction)
      requires Valid() && Live in disk && Work in disk && past.rewritten
      requires Some(read(disk[Work], None)) == Rows(read, disk)
      modifies this
      ensures Continues(old(trace), old(log))
      ensures StillThere(read, World(disk, past), read(old(disk)[Work], None))
      ensures r == Compacted ==> Live in disk && disk[Live] == old(disk)[Work]
      ensures r != Skipped && failures >= old(failures)
      ensures failures == old(failures) ==> r == Compacted && Backup !in disk && LiveWal !in disk
      ensures r == Failed && failures == old(failures) + 1 && Live in disk ==>
        Work !in disk && At(disk, WorkWal) == At(old(disk), WorkWal)
    {
      hide IsRun;
      ghost var rows := read(disk[Work], None);
      var ok := Try(MoveAside);
      if !ok {
        ok := RemoveIfThere(Work);
        return Failed;
      }
      ok := Sync();
      if !ok {
        return Failed;
      }
      r := PublishRewrite(rows);
    }

    // The second rename. When it fails the first is undone.
    method PublishRewrite(ghost rows: Content) returns (r: Compaction)
      requires Valid() && past.rewritten && !past.published && synced
      requires Live !in disk && Backup in disk && Work in disk
      requires read(disk[Backup], At(disk, LiveWal)) == rows == read(disk[Work], None)
      modifies this
      ensures Continues(old(trace), old(log))
      ensures StillThere(read, World(disk, past), rows)
      ensures r == Compacted ==> Live in disk && disk[Live] == old(disk)[Work]
      ensures r != Skipped && failures >= old(failures)
      ensures failures == old(failures) ==> r == Compacted && Backup !in disk && LiveWal !in disk
      ensures Live !in disk ==> failures >= old(failures) + 2
      ensures r == Failed && failures == old(failures) + 1 ==>
        Work !in disk && At(disk, WorkWal) == At(old(disk), WorkWal)
    {
      hide IsRun;
      var ok := Try(Publish);
      if !ok {
        ok := Try(Restore);
        if ok {
          ok := RemoveIfThere(Work);
        }
        return Failed;
      }
      ok := Sync();
      if !ok {
        return Failed;
      }
      CleanUp();
      return Compacted;
    }

    // A backup or an old log that cannot be removed is only a warning.
    method CleanUp()
      requires Valid() && Live in disk && past.published && synced
      modifies this
      ensures Continues(old(trace), old(log)) && Live in disk && disk[Live] == old(disk)[Live] && past == old(past)
      ensures failures >= old(failures)
      ensures failures == old(failures) ==> Backup !in disk && LiveWal !in disk
    {
      hide IsRun, NextDisk, NextPast, Rows;
      var ok := RemoveIfThere(Backup);
      ok := RemoveIfThere(LiveWal);
    }

    // MaybeCompactDatabase
    method MaybeCompact() returns (r: Compaction)
      requires Valid()
      modifies this
      ensures Continues(old(trace), old(log))
      ensures r == Compacted ==> Live in disk && Some(read(disk[Live], None)) == Held(read, old(disk))
      ensures Held(read, old(disk)).Some? ==> StillThere(read, World(disk, past), Held(read, old(disk)).value)
      ensures Live !in old(disk) && Backup !in old(disk) ==> r == Skipped && disk == old(disk)
      ensures failures == old(failures) && (Live in old(disk) || Backup in old(disk)) ==> Live in disk
      ensures Live in old(disk) || Backup in old(disk) ==>
        var db, wal := old(disk)[if Live in old(disk) then Live else Backup], At(old(disk), LiveWal);
        && (r == Compacted ==> PaysForItself(options, db, wal))
        && (r == Skipped ==> !PaysForItself(options, db, wal))
        && (failures == old(failures) ==> r != Failed)
    {
      hide IsRun, NextDisk, NextPast, PaysForItself;
      var ok := RecoverSwap();
      if !ok {
        return Failed;
      }
      if Live !in disk {
        return Skipped;
      }
      ok := RemoveStale();
      if !ok {
        return Failed;
      }
      r := CompactLive();
    }

    // Artifacts of an earlier compaction
    method RemoveStale() returns (ok: bool)
      requires Valid() && Live in disk
      modifies this
      ensures Continues(old(trace), old(log)) && Live in disk && failures >= old(failures)
      ensures ok ==> disk == old(disk) - {Work, WorkWal, Backup}
      ensures failures == old(failures) ==> ok
      ensures Rows(read, disk) == Rows(read, old(disk))
      ensures past.content == old(past).content
    {
      hide IsRun, NextDisk, NextPast;
      ok := RemoveIfThere(Work);
      if !ok {
        return;
      }
      ok := RemoveIfThere(WorkWal);
      if !ok {
        return;
      }
      ok := RemoveIfThere(Backup);
    }

    // The measurement, and the rewrite and the swap if they are worth it
    method CompactLive() returns (r: Compaction)
      requires Valid() && Live in disk && Work !in disk && WorkWal !in disk
      modifies this
      ensures Continues(old(trace), old(log)) && failures >= old(failures)
      ensures failures == old(failures) ==> r != Failed
      ensures r == Failed && failures == old(failures) + 1 && Live in disk ==> Work !in disk && WorkWal !in disk
      ensures r == Compacted ==> Live in disk && Some(read(disk[Live], None)) == Rows(read, old(disk))
      ensures StillThere(read, World(disk, past), Rows(read, old(disk)).value)
      ensures failures == old(failures) ==> Live in disk
      ensures r == Compacted ==> PaysForItself(options, old(disk)[Live], At(old(disk), LiveWal))
      ensures r == Skipped ==> !PaysForItself(options, old(disk)[Live], At(old(disk), LiveWal))
    {
      hide IsRun, NextDisk, NextPast, PaysForItself;
      var ok, worthwhile := MeasureSpace();
      if !ok {
        return Failed;
      }
      if !worthwhile {
        return Skipped;
      }
      ok := Rewrite();
      if !ok {
        ok := RemoveIfThere(Work);
        ok := RemoveIfThere(WorkWal);
        return Failed;
      }
      r := Swap();
    }
  }
}
