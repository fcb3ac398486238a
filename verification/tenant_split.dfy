// The default-tenant split of database/split_default_tenant.go as a protocol
// over files: the shared file, its pre-compaction backup, the tenant file and
// the two work files. One event is one durable step; a crash is a run that ends.
module TenantSplit {
  import opened Wrappers
  import Runs
  import opened Relational
  import opened SplitRows
  import opened ForeignKeyOrder

  // A shared database file with its two data_migrations markers
  datatype SharedFile = SharedFile(rows: Database, split: bool, compacted: bool)

  datatype Disk = Disk(
    shared: Option<SharedFile>,
    backup: Option<SharedFile>,       // .pre-compact
    controlWork: Option<SharedFile>,  // .compacting
    tenant: Option<Database>,
    tenantWork: Option<Database>,     // .split-work
    strays: seq<Database>)

  // What the running process has established; a new process has nothing.
  datatype Known = Known(
    tenantThere: bool,   // the tenant file is published
    tenantReady: bool,   // the tenant work file is complete
    controlReady: bool)  // the control work file is complete

  datatype World = World(disk: Disk, known: Known)

  const Nothing := Known(false, false, false)

  // The fixed part of a run: the two schemas, the default tenant, and the rows
  // of the shared database before the split.
  datatype Setting = Setting(schema: Schema, defaultTenant: int, original: Database)

  datatype Event =
    | Start
    | LoseTenant                              // the tenant directory was not persistent
    | RestoreBackup
    | SeeTenant
    | Stray
    | WriteTenantWork(rows: Option<Database>)
    | FinishTenantWork(tenantRows: Database)
    | PublishTenant
    | WriteControlWork(work: Option<SharedFile>)
    | FinishControlWork(control: SharedFile)
    | RemoveBackup
    | MoveSharedAside
    | PublishControl
    | MarkCompacted

  ghost predicate Enabled(s: Setting, w: World, e: Event) {
    var d, k := w.disk, w.known;
    var unsplit := d.shared.Some? && !d.shared.value.split;
    match e
    case Start => true
    case LoseTenant => d.backup.Some? && !d.backup.value.split
    case RestoreBackup => d.backup.Some? && (d.shared.None? || (d.shared.value.split && d.tenant.None?))
    case SeeTenant => d.shared.Some? && d.shared.value.split && d.tenant.Some?
    case Stray => unsplit && d.tenant.Some?
    case WriteTenantWork(_) => true
    case FinishTenantWork(t) => unsplit && IsTenantPart(s.schema, d.shared.value.rows, s.defaultTenant, t)
    case PublishTenant => unsplit && k.tenantReady && d.tenant.None?
    case WriteControlWork(_) => true
    case FinishControlWork(c) =>
      && k.tenantThere && d.shared.Some? && !d.shared.value.compacted
      && c.split && !c.compacted && IsControlPart(s.schema, d.shared.value.rows, s.defaultTenant, c.rows)
    case RemoveBackup => k.tenantThere && d.shared.Some?
    case MoveSharedAside => k.controlReady && d.shared.Some?
    case PublishControl => k.controlReady && d.shared.None?
    case MarkCompacted => k.tenantThere && !k.controlReady && d.backup.None? && d.shared.Some? && d.shared.value.split
  }

  function NextDisk(d: Disk, e: Event): Disk {
    match e
    case LoseTenant => d.(tenant := None)
    case RestoreBackup => d.(shared := d.backup, backup := None)
    case Stray => if d.tenant.Some? then d.(strays := d.strays + [d.tenant.value], tenant := None) else d
    case WriteTenantWork(rows) => d.(tenantWork := rows)
    case FinishTenantWork(rows) => d.(tenantWork := Some(rows))
    case PublishTenant => d.(tenant := d.tenantWork, tenantWork := None)
    case WriteControlWork(work) => d.(controlWork := work)
    case FinishControlWork(control) => d.(controlWork := Some(control))
    case RemoveBackup => d.(backup := None)
    case MoveSharedAside => d.(backup := d.shared, shared := None)
    case PublishControl => d.(shared := d.controlWork, controlWork := None)
    case MarkCompacted => if d.shared.Some? then d.(shared := Some(d.shared.value.(compacted := true))) else d
    case _ => d
  }

  function NextKnown(k: Known, e: Event): Known {
    match e
    case Start => Nothing
    case LoseTenant => Nothing
    case SeeTenant => k.(tenantThere := true)
    case Stray => Nothing
    case WriteTenantWork(_) => k.(tenantReady := false)
    case FinishTenantWork(_) => k.(tenantReady := true)
    case PublishTenant => k.(tenantThere := true, tenantReady := false)
    case WriteControlWork(_) => k.(controlReady := false)
    case FinishControlWork(_) => k.(controlReady := true)
    case PublishControl => k.(controlReady := false, tenantReady := false)
    case _ => k
  }

  function Next(w: World, e: Event): World {
    World(NextDisk(w.disk, e), NextKnown(w.known, e))
  }

  ghost function Steps(s: Setting): Runs.Protocol<World, Event> {
    Runs.Protocol((w, e) => Enabled(s, w, e), (w, e) => Next(w, e))
  }

  ghost predicate IsRun(s: Setting, trace: seq<World>, log: seq<Event>) {
    Runs.IsRun(Steps(s), trace, log)
  }

  // --------------------------------------------------------------- invariant

  ghost predicate Whole(s: Setting, f: SharedFile) {
    !f.split && !f.compacted && f.rows == s.original
  }

  ghost predicate Control(s: Setting, f: SharedFile) {
    f.split && IsControlPart(s.schema, s.original, s.defaultTenant, f.rows)
  }

  ghost predicate TenantHolds(s: Setting, tenant: Option<Database>) {
    tenant.Some? && IsTenantPart(s.schema, s.original, s.defaultTenant, tenant.value)
  }

  ghost predicate BackupWhole(s: Setting, d: Disk) {
    d.backup.Some? && Whole(s, d.backup.value)
  }

  ghost predicate FilesSound(s: Setting, d: Disk) {
    match d.shared
    case None =>
      || BackupWhole(s, d)
      || (d.backup.Some? && Control(s, d.backup.value) && !d.backup.value.compacted && TenantHolds(s, d.tenant))
    case Some(f) =>
      if !f.split then Whole(s, f)
      else
        && Control(s, f)
        && (if d.tenant.Some? then TenantHolds(s, d.tenant) else BackupWhole(s, d))
        && (f.compacted ==> d.backup.None? && d.tenant.Some?)
  }

  ghost predicate KnownSound(s: Setting, w: World) {
    var d, k := w.disk, w.known;
    && (k.tenantThere ==> TenantHolds(s, d.tenant))
    && (k.tenantReady ==> TenantHolds(s, d.tenantWork))
    && (k.controlReady ==>
         && k.tenantThere && d.controlWork.Some? && Control(s, d.controlWork.value) && !d.controlWork.value.compacted
         && (d.shared.Some? ==> !d.shared.value.compacted))
    && (d.backup.Some? && !d.backup.value.split ==> BackupWhole(s, d))
  }

  ghost predicate Inv(s: Setting, w: World) {
    FilesSound(s, w.disk) && KnownSound(s, w)
  }

  lemma StepKeepsInv(s: Setting, w: World, e: Event)
    requires Usual(s.schema) && Enabled(s, w, e) && Inv(s, w)
    ensures Inv(s, Next(w, e))
  {
    hide IsTenantPart, IsControlPart, Usual;
    if e.FinishControlWork? && w.disk.shared.value.split {
      RewritingAgain(s.schema, s.original, s.defaultTenant, w.disk.shared.value.rows, e.control.rows);
    }
  }

  lemma RunsKeepInv(s: Setting, trace: seq<World>, log: seq<Event>, i: nat)
    requires Usual(s.schema) && IsRun(s, trace, log) && Inv(s, trace[0]) && i < |trace|
    ensures Inv(s, trace[i])
  {
    forall w, e | Enabled(s, w, e) && Inv(s, w) ensures Inv(s, Next(w, e)) {
      StepKeepsInv(s, w, e);
    }
    Runs.Keeps(Steps(s), w => Inv(s, w), trace, log, i);
  }

  // ------------------------------------------------------------ conservation

  // Where the rows are is decided by which files exist and their markers alone.
  datatype Place =
    | AllIn(rows: Database)
    | InTwo(control: Database, tenant: Database)
    | Lost

  function Authority(d: Disk): Place {
    match d.shared
    case Some(f) =>
      if !f.split then AllIn(f.rows)
      else if d.tenant.Some? then InTwo(f.rows, d.tenant.value)
      else if d.backup.Some? then AllIn(d.backup.value.rows)
      else Lost
    case None =>
      if d.backup.None? then Lost
      else if !d.backup.value.split then AllIn(d.backup.value.rows)
      else if d.tenant.Some? then InTwo(d.backup.value.rows, d.tenant.value)
      else Lost
  }

  ghost predicate Unsplit(s: Setting, w: World) {
    && w.disk.shared.Some? && Whole(s, w.disk.shared.value) && w.disk.backup.None? && w.known == Nothing
  }

  // Whatever happened before, crashes and the loss of the tenant directory in
  // the window the backup covers included: the original rows are all in one
  // file, or the control and the tenant file have their part each.
  lemma SplitLosesNothing(s: Setting, trace: seq<World>, log: seq<Event>, i: nat)
    requires Usual(s.schema) && IsRun(s, trace, log) && Unsplit(s, trace[0]) && i < |trace|
    ensures match Authority(trace[i].disk)
            case AllIn(rows) => rows == s.original
            case InTwo(control, tenant) =>
              && IsControlPart(s.schema, s.original, s.defaultTenant, control)
              && IsTenantPart(s.schema, s.original, s.defaultTenant, tenant)
              && ControlRows(s.schema, s.original, s.defaultTenant, control)
              && TenantRows(s.schema, s.original, s.defaultTenant, tenant)
            case Lost => false
  {
    RunsKeepInv(s, trace, log, i);
    match Authority(trace[i].disk)
    case InTwo(control, tenant) =>
      ControlPartMeans(s.schema, s.original, s.defaultTenant, control);
      TenantPartMeans(s.schema, s.original, s.defaultTenant, tenant);
    case _ =>
  }

  // When the second marker is set the backup is gone. Every shared table but the
  // three that keep the books then has its rows in the two files, each as often as
  // it was, exactly where the schemas agree on site_id or nothing moves; and all of
  // them in the control file if no tenant file has the table.
  lemma CompletedSplitConserves(s: Setting, trace: seq<World>, log: seq<Event>, i: nat, t: Table)
    requires Usual(s.schema) && IsRun(s, trace, log) && Unsplit(s, trace[0]) && i < |trace|
    requires trace[i].disk.shared.Some? && trace[i].disk.shared.value.compacted
    requires t in s.schema.shared && t !in {"migrations", "data_migrations", "hitkeep_migration_checkpoints"}
    requires t in s.schema.tenant && t != "sites" && "site_id" in s.schema.tenant[t] ==>
      "site_id" in s.schema.shared[t]
    ensures trace[i].disk.backup.None? && trace[i].disk.tenant.Some?
    ensures var d := trace[i].disk;
            Conserved(s.schema, s.original, s.defaultTenant, d.shared.value.rows, d.tenant.value, t) <==>
              || t !in s.schema.tenant || t == "sites"
              || "site_id" !in s.schema.shared[t] || "site_id" in s.schema.tenant[t]
              || forall row :: row in Rows(s.original, t) ==>
                !Moves(s.original, s.defaultTenant, row) || Siteless(s.original, t, row)
    ensures t !in s.schema.tenant && t !in {"site_activity_summary", "site_activity_hourly_counts"} ==>
      Rows(trace[i].disk.shared.value.rows, t) == Rows(s.original, t)
    ensures ControlRows(s.schema, s.original, s.defaultTenant, trace[i].disk.shared.value.rows)
    ensures TenantRows(s.schema, s.original, s.defaultTenant, trace[i].disk.tenant.value)
    ensures ScopedRowsGone(s.schema, trace[i].disk.shared.value.rows, s.defaultTenant)
  {
    RunsKeepInv(s, trace, log, i);
    var d := trace[i].disk;
    SplitConserves(s.schema, s.original, s.defaultTenant, d.shared.value.rows, d.tenant.value, t);
    ControlPartMeans(s.schema, s.original, s.defaultTenant, d.shared.value.rows);
    TenantPartMeans(s.schema, s.original, s.defaultTenant, d.tenant.value);
    if t !in s.schema.tenant && t !in {"site_activity_summary", "site_activity_hourly_counts"} {
      forall row ensures Rows(d.shared.value.rows, t)[row] == Rows(s.original, t)[row] {
      }
    }
    VerificationPasses(s.schema, s.original, s.defaultTenant, d.shared.value.rows);
  }

  // No tenant file that a split finds is destroyed. From any durable state of a
  // run to any later one its file is still the tenant file or is a stray, unless
  // the tenant directory went away in between.
  lemma {:induction false} TenantFilesAreKept(s: Setting, trace: seq<World>, log: seq<Event>, i: nat, j: nat)
    requires IsRun(s, trace, log) && i <= j < |trace| && trace[i].disk.tenant.Some?
    requires forall k :: i <= k < j ==> !log[k].LoseTenant?
    ensures trace[i].disk.strays <= trace[j].disk.strays
    ensures trace[j].disk.tenant == trace[i].disk.tenant || trace[i].disk.tenant.value in trace[j].disk.strays
  {
    if i < j {
      hide Enabled, Next;
      TenantFilesAreKept(s, trace, log, i, j - 1);
      var w, e := trace[j - 1], log[j - 1];
      assert Enabled(s, w, e) && trace[j] == Next(w, e);
      TenantFileStays(s, w, e);
    }
  }

  lemma TenantFileStays(s: Setting, w: World, e: Event)
    requires Enabled(s, w, e) && !e.LoseTenant?
    ensures w.disk.strays <= Next(w, e).disk.strays
    ensures w.disk.tenant.Some? ==>
      Next(w, e).disk.tenant == w.disk.tenant || w.disk.tenant.value in Next(w, e).disk.strays
  {
  }

  // -------------------------------------------------------------- the program

  // What no operation can make up for
  ghost predicate Splittable(schema: Schema) {
    var tables := schema.shared.Keys - {"migrations", "data_migrations", "hitkeep_migration_checkpoints"};
    && (forall t :: t in tables ==> t in schema.rebuilt && schema.rebuilt[t] == schema.shared[t])
    && Acyclic(tables, schema.sharedEdges)
    && Acyclic(SplitTables(schema), schema.tenantEdges)
    && forall t :: t in schema.shared && t in schema.tenant && t !in {"migrations", "sites"} ==>
         "site_id" in schema.tenant[t] ==> "site_id" in schema.shared[t]
  }

  ghost predicate Renames(e: Event) {
    e.RestoreBackup? || e.Stray? || e.PublishTenant? || e.MoveSharedAside? || e.PublishControl?
  }

  class DefaultTenantSplit {
    const schema: Schema
    const defaultTenant: Option<int>
    ghost const original: Database
    var disk: Disk
    var failures: nat
    ghost var known: Known
    ghost var trace: seq<World>
    ghost var log: seq<Event>
    ghost var synced: bool   // the directory was synced after the running call's last rename

    ghost function TheSetting(): Setting {
      Setting(schema, if defaultTenant.Some? then defaultTenant.value else 0, original)
    }

    ghost predicate Valid()
      reads this
    {
      && Usual(schema)
      && IsRun(TheSetting(), trace, log) && trace[|log|] == World(disk, known) && Inv(TheSetting(), World(disk, known))
    }

    ghost predicate Continues(before: seq<World>, beforeLog: seq<Event>)
      reads this
    {
      Valid() && before <= trace && beforeLog <= log
    }

    // A process starts on what an earlier one left.
    constructor (schema: Schema, defaultTenant: Option<int>, disk: Disk, ghost original: Database, ghost known: Known)
      requires Usual(schema)
      requires
        var id := if defaultTenant.Some? then defaultTenant.value else 0;
        Inv(Setting(schema, id, original), World(disk, known))
      ensures Valid() && this.schema == schema && this.defaultTenant == defaultTenant && this.original == original
      ensures this.disk == disk && trace[0] == World(disk, known) && failures == 0 && synced
    {
      this.schema, this.defaultTenant, this.original := schema, defaultTenant, original;
      this.disk, this.failures, this.known := disk, 0, Nothing;
      trace := [World(disk, known), World(disk, Nothing)];
      log, synced := [Start], true;
    }

    // One durable step; a step that fails has no effect.
    method Try(e: Event) returns (ok: bool)
      requires Valid() && Enabled(TheSetting(), World(disk, known), e)
      requires e.PublishControl? || e.RemoveBackup? ==> synced
      modifies this
      ensures Continues(old(trace), old(log))
      ensures ok ==> disk == NextDisk(old(disk), e) && known == NextKnown(old(known), e) && failures == old(failures)
      ensures !ok ==> disk == old(disk) && known == old(known) && failures == old(failures) + 1
      ensures synced == (old(synced) && (!ok || !Renames(e)))
    {
      hide Enabled, NextDisk, NextKnown, Inv, Usual;
      ok := *;
      if !ok {
        failures := failures + 1;
      } else {
        StepKeepsInv(TheSetting(), World(disk, known), e);
        disk := NextDisk(disk, e);
        known := NextKnown(known, e);
        trace, log := trace + [World(disk, known)], log + [e];
        synced := synced && !Renames(e);
      }
    }

    // syncParentDirectory
    method Sync() returns (ok: bool)
      modifies this`failures, this`synced
      ensures failures == old(failures) + if ok then 0 else 1
      ensures synced == (ok || old(synced))
    {
      ok := Attempt();
      synced := ok || synced;
    }

    // Space checks, opening files
    method Attempt() returns (ok: bool)
      modifies this`failures
      ensures failures == old(failures) + if ok then 0 else 1
    {
      ok := *;
      if !ok {
        failures := failures + 1;
      }
    }

    // recoverInterruptedSplitControlSwap, and with a split file that has lost its
    // tenant file, restoreSplitControlBackupForMissingTenantFile
    method RestoreControlBackup() returns (ok: bool)
      requires Valid() && Enabled(TheSetting(), World(disk, known), RestoreBackup)
      modifies this
      ensures Continues(old(trace), old(log)) && failures >= old(failures)
      ensures ok ==> disk == old(disk).(shared := old(disk).backup, backup := None) && synced
      ensures failures == old(failures) ==> ok
    {
      hide Inv, IsRun, Usual;
      ok := Try(RestoreBackup);
      if ok {
        ok := Sync();
      }
    }

    // prepareDefaultTenantFile
    method Prepare() returns (ok: bool)
      requires Valid() && defaultTenant.Some? && disk.shared.Some? && !disk.shared.value.split && synced
      modifies this
      ensures Continues(old(trace), old(log)) && failures >= old(failures)
      ensures disk.shared == old(disk).shared && disk.backup == old(disk).backup
      ensures ok ==> known.tenantThere && synced
      ensures old(disk).tenant.Some? ==> disk.tenant == old(disk).tenant || old(disk).tenant.value in disk.strays
      ensures failures == old(failures) && Splittable(schema) ==> ok
    {
      ok := SetStrayAside();
      if ok {
        ok := BuildAndPublish();
      }
    }

    // A tenant file without a marker is kept under another name.
    method SetStrayAside() returns (ok: bool)
      requires Valid() && disk.shared.Some? && !disk.shared.value.split && synced
      modifies this
      ensures Continues(old(trace), old(log)) && failures >= old(failures)
      ensures disk.shared == old(disk).shared && disk.backup == old(disk).backup
      ensures ok ==> disk.tenant.None? && synced
      ensures old(disk).tenant.Some? ==> disk.tenant == old(disk).tenant || old(disk).tenant.value in disk.strays
      ensures failures == old(failures) ==> ok
    {
      hide Inv, IsRun, Usual;
      ok := Try(WriteTenantWork(None));
      if ok && disk.tenant.Some? {
        ok := Try(Stray);
        if ok {
          assert disk.strays[|disk.strays| - 1] == old(disk).tenant.value;
          ok := Sync();
        }
      }
    }

    method BuildAndPublish() returns (ok: bool)
      requires Valid() && defaultTenant.Some? && disk.shared.Some? && !disk.shared.value.split && disk.tenant.None?
      modifies this
      ensures Continues(old(trace), old(log)) && failures >= old(failures)
      ensures disk.shared == old(disk).shared && disk.backup == old(disk).backup && disk.strays == old(disk).strays
      ensures ok ==> known.tenantThere && synced
      ensures failures == old(failures) && Splittable(schema) ==> ok
    {
      hide Inv, IsRun, Usual, IsTenantPart, TenantRows, Acyclic;
      ok := Attempt();
      if !ok {
        return;
      }
      var partial: Option<Database> := *;
      ok := Try(WriteTenantWork(partial));
      if !ok {
        return;
      }
      var rows: Database;
      ok, rows := BuildTenant(schema, disk.shared.value.rows, defaultTenant.value);
      if !ok {
        return;
      }
      ok := Try(FinishTenantWork(rows));
      if !ok {
        return;
      }
      ok := Try(PublishTenant);
      if ok {
        ok := Sync();
      }
    }

    // rewriteSplitControlDatabase
    method RewriteControl() returns (ok: bool)
      requires Valid() && defaultTenant.Some? && disk.shared.Some? && known.tenantThere && !disk.shared.value.compacted
      requires synced
      modifies this
      ensures Continues(old(trace), old(log)) && failures >= old(failures)
      ensures ok ==>
        && disk.shared.Some? && disk.shared.value.split && !disk.shared.value.compacted
        && disk.backup.None? && known.tenantThere && !known.controlReady
      ensures failures == old(failures) && Splittable(schema) ==> ok
    {
      hide Inv, IsRun, Usual, IsControlPart, Acyclic;
      ok := StageControl();
      if !ok {
        return;
      }
      ok := Try(MoveSharedAside);
      if !ok {
        return;
      }
      ok := Sync();
      if !ok {
        var restored := Try(RestoreBackup);
        return;
      }
      ok := Try(PublishControl);
      if !ok {
        var restored := Try(RestoreBackup);
        return;
      }
      ok := Sync();
      if !ok {
        return;
      }
      ok := Try(RemoveBackup);
    }

    // The work file, up to its split marker
    method StageControl() returns (ok: bool)
      requires Valid() && defaultTenant.Some? && disk.shared.Some? && known.tenantThere && !disk.shared.value.compacted
      requires synced
      modifies this
      ensures Continues(old(trace), old(log)) && failures >= old(failures)
      ensures disk.shared == old(disk).shared && known.tenantThere
      ensures ok ==>
        && known.controlReady && disk.controlWork.Some? && synced
        && disk.controlWork.value.split && !disk.controlWork.value.compacted
      ensures failures == old(failures) && Splittable(schema) ==> ok
      ensures ok ==> disk.backup.None?
    {
      hide Inv, IsRun, Usual, IsControlPart, Splittable;
      ok := Try(WriteControlWork(None));
      if !ok {
        return;
      }
      ok := Try(RemoveBackup);
      if !ok {
        return;
      }
      var partial: Option<SharedFile> := *;
      ok := Try(WriteControlWork(partial));
      if !ok {
        return;
      }
      ok := FillControl();
      if !ok {
        var removed := Try(WriteControlWork(None));
      }
    }

    // rewriteSplitControlWorkFile and the marker behind it
    method FillControl() returns (ok: bool)
      requires Valid() && defaultTenant.Some? && disk.shared.Some? && known.tenantThere && !disk.shared.value.compacted
      requires synced
      modifies this
      ensures Continues(old(trace), old(log)) && failures >= old(failures)
      ensures disk.shared == old(disk).shared && known.tenantThere
      ensures ok ==>
        && known.controlReady && disk.controlWork.Some? && synced
        && disk.controlWork.value.split && !disk.controlWork.value.compacted
      ensures failures == old(failures) && Splittable(schema) ==> ok
      ensures disk.backup == old(disk).backup
    {
      hide Inv, IsRun, Usual, IsControlPart, ControlRows, Acyclic;
      var rows: Database;
      ok, rows := BuildControl(schema, disk.shared.value.rows, defaultTenant.value);
      if ok {
        ok := Try(FinishControlWork(SharedFile(rows, true, false)));
      }
    }

    // The second half of runDefaultTenantSplitWithFaults
    method FinishSplit() returns (ok: bool)
      requires Valid() && defaultTenant.Some? && disk.shared.Some? && known.tenantThere && synced
      modifies this
      ensures Continues(old(trace), old(log)) && failures >= old(failures)
      ensures ok ==> disk.shared.Some? && disk.shared.value.compacted && disk.shared.value.split
      ensures failures == old(failures) && Splittable(schema) ==> ok
    {
      hide IsRun, Usual, IsControlPart, IsTenantPart, Acyclic, Splittable;
      if disk.shared.value.compacted {
        return true;
      }
      ok := RewriteControl();
      if !ok {
        return;
      }
      var rows := disk.shared.value.rows;
      VerificationPasses(schema, original, defaultTenant.value, rows);
      ok := VerifyScopedRowsEmpty(schema, rows, defaultTenant.value);
      if ok {
        ok := Try(MarkCompacted);
      }
    }

    // runDefaultTenantSplitWithFaults. It succeeds with both markers set and the
    // rows where they belong, and it does succeed when no operation fails.
    method Run() returns (ok: bool)
      requires Valid()
      modifies this
      ensures Continues(old(trace), old(log)) && failures >= old(failures)
      ensures ok ==>
        && disk.shared.Some? && disk.shared.value.split && disk.shared.value.compacted
        && disk.backup.None? && disk.tenant.Some?
        && IsControlPart(schema, original, TheSetting().defaultTenant, disk.shared.value.rows)
        && IsTenantPart(schema, original, TheSetting().defaultTenant, disk.tenant.value)
        && ControlRows(schema, original, TheSetting().defaultTenant, disk.shared.value.rows)
        && TenantRows(schema, original, TheSetting().defaultTenant, disk.tenant.value)
      ensures failures == old(failures) && defaultTenant.Some? && Splittable(schema) ==> ok
      decreases if disk.backup.Some? then 1 else 0
    {
      hide IsRun, Usual, IsControlPart, IsTenantPart, ControlRows, TenantRows, Acyclic, Splittable;
      synced := true;
      if disk.shared.None? && disk.backup.Some? {
        ok := RestoreControlBackup();
        if !ok {
          return;
        }
      }
      ok := Attempt();
      if !ok || defaultTenant.None? {
        return false;
      }
      if disk.shared.None? {
        return false;
      }
      if !disk.shared.value.split {
        ok := Prepare();
      } else if disk.tenant.Some? {
        ok := Try(SeeTenant);
      } else {
        if disk.backup.None? {
          return false;
        }
        ok := RestoreControlBackup();
        if ok {
          ok := Run();
        }
        return;
      }
      if ok {
        ok := FinishSplit();
      }
      if ok {
        ControlPartMeans(schema, original, TheSetting().defaultTenant, disk.shared.value.rows);
        TenantPartMeans(schema, original, TheSetting().defaultTenant, disk.tenant.value);
      }
    }
  }
}
