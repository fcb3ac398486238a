// database/recovery.go and Store.Connect of database/store.go: the recovery of
// a database whose write-ahead log cannot be replayed, and of one whose indexes
// are damaged. Everything a crash keeps is in a Disk; each rename, removal, JSON
// write, bundle activation and CHECKPOINT is one event, so a crash between any
// two of them is a run that ends there and another that starts there.
module WalRecovery {
  import opened Wrappers
  import Runs
  import Text

  type Bytes = seq<int>
  type Hash = seq<int>
  type Stamp = nat
  type BundleId = nat

  // What the outside computes: SHA-256; the rows of the checkpoint-token table in
  // a database file opened without its log; the secondary indexes that are not
  // unique, with their tables, of a database and its log; and whether the two open.
  datatype Env = Env(
    hash: Bytes -> Hash, tokens: Bytes -> seq<string>,
    indexes: (Option<Bytes>, Option<Bytes>) -> seq<(string, string)>,
    opens: (Option<Bytes>, Option<Bytes>) -> Opened)

  // A log that cannot be replayed is told apart.
  datatype Opened = Opened | ReplayFailure | OtherFailure

  datatype Bundle = Bundle(db: Option<Bytes>, wal: Option<Bytes>, completed: bool)

  datatype Guard = Guard(scope: string, pending: seq<string>, token: string, dbHash: Option<Hash>)

  datatype Phase = Blank | AwaitingOperator | MoveWal | CheckpointWithoutWal | CleanupWal | UnknownPhase

  datatype IndexPhase = DropUnsafe | CheckpointIndexes | UnknownIndexPhase

  // The stamp of a WAL marker names the path its WAL is moved to.
  datatype Marker =
    | WalBypass(phase: Phase, bundle: Option<BundleId>, stamp: Stamp, migrationWal: bool, token: string,
        dbHash: Option<Hash>)
    | RemoveIndexes(step: IndexPhase, bundle: Option<BundleId>, table: string, indexes: seq<string>, removed: nat)
    | UnknownKind

  datatype Disk = Disk(
    db: Option<Bytes>, wal: Option<Bytes>, asides: map<Stamp, Bytes>,
    marker: Option<Marker>, guard: Option<Guard>, bundles: map<BundleId, Bundle>)

  // ----------------------------------------------------------------- history

  // A moved-aside WAL that was deleted, with the database file and the guard when
  // its marker was created, and the file that was last checkpointed without it.
  datatype Discard = Discard(
    wal: Bytes, markedDb: Option<Bytes>, guard: Option<Guard>, checkpointedDb: Option<Bytes>)

  // Facts about a run that the properties speak of; the program keeps none.
  // The second group is about the current marker.
  datatype Past = Past(
    autoEver: bool,              // a run had automatic WAL recovery enabled
    discarded: seq<Discard>,
    markedDb: Option<Bytes>,     // the files when the marker was created
    markedWal: Option<Bytes>,
    markedGuard: Option<Guard>,
    checkpointed: bool,          // the database was checkpointed without the WAL
    checkpointedDb: Option<Bytes>,  // from this file
    operatorRemoved: bool)       // an operator removed the live WAL

  datatype World = World(disk: Disk, past: Past)

  datatype Event =
    | Configure(auto: bool)
    | MakeBundle(id: BundleId)
    | CreateMarker(marker: Marker)
    | RewriteMarker(marker: Marker)
    | RemoveMarker
    | MoveAside
    | MoveBack
    | Checkpoint(db: Bytes)
    | RemoveAside
    | WriteResult
    | DropIndex(name: string, newDb: Option<Bytes>, newWal: Option<Bytes>)
    | ClearGuard
    | OperatorRemovesWal
    | Work(newDb: Option<Bytes>, newWal: Option<Bytes>, newGuard: Option<Guard>)

  predicate Bypassing(d: Disk, phase: Phase) {
    d.marker.Some? && d.marker.value.WalBypass? && d.marker.value.phase == phase
  }

  predicate Moving(d: Disk) {
    Bypassing(d, MoveWal) || Bypassing(d, Blank)
  }

  // verifyMigrationCheckpoint, or the checksum of a checksum-guarded migration
  predicate Verified(env: Env, db: Option<Bytes>, m: Marker)
    requires m.WalBypass?
  {
    && db.Some?
    && if m.dbHash.Some? then env.hash(db.value) == m.dbHash.value
       else m.token != "" && env.tokens(db.value) == [m.token]
  }

  predicate Matches(env: Env, d: Disk) {
    d.guard.Some? && d.guard.value.dbHash.Some? && d.db.Some? && env.hash(d.db.value) == d.guard.value.dbHash.value
  }

  // The bundle is on disk and holds these files.
  predicate BundleHolds(d: Disk, bundle: Option<BundleId>, db: Option<Bytes>, wal: Option<Bytes>) {
    bundle.Some? && bundle.value in d.bundles && d.bundles[bundle.value].db == db && d.bundles[bundle.value].wal == wal
  }

  // The marker written when a WAL bypass begins.
  function FirstMarker(guard: Option<Guard>, bundle: Option<BundleId>, stamp: Stamp): Marker {
    WalBypass(AwaitingOperator, bundle, stamp, guard.Some?,
      if guard.Some? then guard.value.token else "", if guard.Some? then guard.value.dbHash else None)
  }

  function Rejected(m: Marker): Marker
    requires m.WalBypass?
  {
    m.(migrationWal := false, token := "", phase := AwaitingOperator)
  }

  function Unguarded(m: Marker): Marker
    requires m.WalBypass?
  {
    m.(migrationWal := false, token := "", dbHash := None)
  }

  // The phase moves of a marker, and what each waits for.
  ghost predicate PhaseMove(w: World, m: Marker, m': Marker) {
    var d := w.disk;
    match m
    case WalBypass(phase, _, stamp, migrationWal, _, _) =>
      || (phase == AwaitingOperator && (migrationWal || w.past.autoEver) && m' == m.(phase := MoveWal))
      || (phase in {MoveWal, Blank} && stamp in d.asides && m' == m.(phase := CheckpointWithoutWal))
      || (phase == CheckpointWithoutWal && migrationWal && w.past.autoEver && m' == Unguarded(m))
      || (phase == CheckpointWithoutWal && migrationWal && stamp !in d.asides && m' == Rejected(m))
      || (&& phase == CheckpointWithoutWal && stamp in d.asides && w.past.checkpointed
          && m' == m.(phase := CleanupWal))
    case RemoveIndexes(step, _, _, _, _) =>
      || (step == DropUnsafe && m'.RemoveIndexes? && m' == m.(indexes := m'.indexes, removed := m'.removed))
      || (step == DropUnsafe && m' == m.(step := CheckpointIndexes))
    case UnknownKind => false
  }

  ghost predicate Enabled(env: Env, w: World, e: Event) {
    var d := w.disk;
    match e
    case Configure(_) => true
    case MakeBundle(id) => id !in d.bundles && (d.db.Some? || d.wal.Some?)
    case CreateMarker(m) =>
      && d.marker.None?
      && (match m
          case WalBypass(_, bundle, stamp, _, _, _) =>
            && d.wal.Some? && m == FirstMarker(d.guard, bundle, stamp)
            && if bundle.None? then Matches(env, d) else BundleHolds(d, bundle, d.db, d.wal)
          case RemoveIndexes(step, bundle, _, indexes, removed) =>
            step == DropUnsafe && indexes == [] && removed == 0 && BundleHolds(d, bundle, d.db, d.wal)
          case UnknownKind => false)
    case RewriteMarker(m') => d.marker.Some? && PhaseMove(w, d.marker.value, m')
    case RemoveMarker =>
      || (Bypassing(d, CleanupWal) && d.marker.value.stamp !in d.asides)
      || (Bypassing(d, AwaitingOperator) && d.wal.None?)
      || (d.marker.Some? && d.marker.value.RemoveIndexes? && d.marker.value.step == CheckpointIndexes
          && d.marker.value.removed > 0)
    case MoveAside => Moving(d) && d.wal.Some? && d.marker.value.stamp !in d.asides
    case MoveBack =>
      Bypassing(d, CheckpointWithoutWal) && d.marker.value.migrationWal && d.marker.value.stamp in d.asides
        && d.wal.None?
    case Checkpoint(_) =>
      || d.marker.None?
      || (Bypassing(d, CheckpointWithoutWal) && d.marker.value.stamp in d.asides
          && (d.marker.value.migrationWal ==> Verified(env, d.db, d.marker.value)))
      || (d.marker.value.RemoveIndexes? && d.marker.value.step == CheckpointIndexes)
    case RemoveAside => Bypassing(d, CleanupWal) && d.marker.value.stamp in d.asides
    case WriteResult =>
      d.marker.Some? && !d.marker.value.UnknownKind? && d.marker.value.bundle.Some?
        && d.marker.value.bundle.value in d.bundles
    case DropIndex(name, _, _) =>
      d.marker.Some? && d.marker.value.RemoveIndexes? && d.marker.value.step == DropUnsafe
        && name in d.marker.value.indexes
    case ClearGuard => d.marker.None? && d.guard.Some? && d.wal.None?
    case OperatorRemovesWal => d.marker.Some? && d.marker.value.WalBypass? && d.wal.Some?
    case Work(_, _, _) => d.marker.None?
  }

  function NextDisk(d: Disk, e: Event): Disk {
    var bypass := d.marker.Some? && d.marker.value.WalBypass?;
    match e
    case MakeBundle(id) => d.(bundles := d.bundles[id := Bundle(d.db, d.wal, false)])
    case CreateMarker(m) => d.(marker := Some(m))
    case RewriteMarker(m) => d.(marker := Some(m))
    case RemoveMarker => d.(marker := None)
    case MoveAside =>
      if bypass && d.wal.Some? then d.(asides := d.asides[d.marker.value.stamp := d.wal.value], wal := None) else d
    case MoveBack =>
      if bypass && d.marker.value.stamp in d.asides then
        d.(wal := Some(d.asides[d.marker.value.stamp]), asides := d.asides - {d.marker.value.stamp})
      else d
    case Checkpoint(db) => d.(db := Some(db), wal := None)
    case RemoveAside => if bypass then d.(asides := d.asides - {d.marker.value.stamp}) else d
    case WriteResult =>
      if d.marker.Some? && !d.marker.value.UnknownKind? && d.marker.value.bundle.Some?
         && d.marker.value.bundle.value in d.bundles then
        var b := d.marker.value.bundle.value;
        d.(bundles := d.bundles[b := d.bundles[b].(completed := true)])
      else d
    case DropIndex(_, db, wal) => d.(db := db, wal := wal)
    case ClearGuard => d.(guard := None)
    case OperatorRemovesWal => d.(wal := None)
    case Work(db, wal, guard) => d.(db := db, wal := wal, guard := guard)
    case _ => d
  }

  function NextPast(d: Disk, p: Past, e: Event): Past {
    match e
    case Configure(auto) => p.(autoEver := p.autoEver || auto)
    case CreateMarker(m) =>
      p.(markedDb := d.db, markedWal := d.wal, markedGuard := d.guard, checkpointed := false, operatorRemoved := false)
    case Checkpoint(_) => p.(checkpointed := true, checkpointedDb := d.db)
    case RemoveAside =>
      if d.marker.Some? && d.marker.value.WalBypass? && d.marker.value.stamp in d.asides then
        p.(discarded := p.discarded
             + [Discard(d.asides[d.marker.value.stamp], p.markedDb, p.markedGuard, p.checkpointedDb)])
      else p
    case OperatorRemovesWal => p.(operatorRemoved := true)
    case _ => p
  }

  function Next(w: World, e: Event): World {
    World(NextDisk(w.disk, e), NextPast(w.disk, w.past, e))
  }

  // A run over any number of processes: states and the events between them.
  ghost function Steps(env: Env): Runs.Protocol<World, Event> {
    Runs.Protocol((w, e) => Enabled(env, w, e), (w, e) => Next(w, e))
  }

  ghost predicate IsRun(env: Env, trace: seq<World>, log: seq<Event>) {
    Runs.IsRun(Steps(env), trace, log)
  }

  // --------------------------------------------------------------- invariant

  // Where the captured WAL is in each phase.
  ghost predicate WalPlaced(w: World, m: Marker)
    requires m.WalBypass?
  {
    var d, wal := w.disk, w.past.markedWal;
    var live := d.wal == wal && d.asides == map[];
    var aside := wal.Some? && d.wal.None? && d.asides == map[m.stamp := wal.value];
    var removed := w.past.operatorRemoved && d.wal.None? && d.asides == map[];
    match m.phase
    case AwaitingOperator => live || removed
    case CleanupWal => aside || (d.wal.None? && d.asides == map[])
    case _ => live || aside || removed
  }

  ghost predicate Permitted(env: Env, w: World, m: Marker)
    requires m.WalBypass?
  {
    && (m.phase in {Blank, MoveWal, CheckpointWithoutWal, CleanupWal} ==> m.migrationWal || w.past.autoEver)
    && (m.phase == CleanupWal ==> w.past.checkpointed)
    && (m.migrationWal && w.past.checkpointed ==> Verified(env, w.past.checkpointedDb, m))
  }

  // The database file hashes to the checksum in the guard.
  ghost predicate HashesTo(env: Env, db: Option<Bytes>, guard: Option<Guard>) {
    && guard.Some? && guard.value.dbHash.Some? && db.Some? && env.hash(db.value) == guard.value.dbHash.value
  }

  // It is the one the guard was written for, by checksum or by its single token.
  ghost predicate Identified(env: Env, db: Option<Bytes>, guard: Option<Guard>) {
    && guard.Some? && db.Some?
    && if guard.value.dbHash.Some? then env.hash(db.value) == guard.value.dbHash.value
       else guard.value.token != "" && env.tokens(db.value) == [guard.value.token]
  }

  // A copy of the WAL is in a bundle, or the database hashed to the checksum
  // taken before the migrations that wrote it; and the database that was
  // checkpointed without it was the one the guard was written for, or automatic
  // WAL recovery was enabled in some run.
  ghost predicate Justified(env: Env, w: World, discard: Discard) {
    && (HashesTo(env, discard.markedDb, discard.guard)
        || exists b :: b in w.disk.bundles && w.disk.bundles[b].wal == Some(discard.wal))
    && (Identified(env, discard.checkpointedDb, discard.guard) || w.past.autoEver)
  }

  ghost predicate MarkerSound(env: Env, w: World) {
    match w.disk.marker
    case None => w.disk.asides == map[]
    case Some(m) =>
      match m
      case RemoveIndexes(_, bundle, _, _, _) =>
        w.disk.asides == map[] && BundleHolds(w.disk, bundle, w.past.markedDb, w.past.markedWal)
      case UnknownKind => false
      case WalBypass(_, bundle, _, migrationWal, token, dbHash) =>
        && w.past.markedWal.Some? && WalPlaced(w, m) && Permitted(env, w, m)
        && (migrationWal ==>
             && w.past.markedGuard.Some?
             && token == w.past.markedGuard.value.token && dbHash == w.past.markedGuard.value.dbHash)
        && if bundle.None? then HashesTo(env, w.past.markedDb, w.past.markedGuard)
           else BundleHolds(w.disk, bundle, w.past.markedDb, w.past.markedWal)
  }

  ghost predicate Inv(env: Env, w: World) {
    MarkerSound(env, w) && forall discard :: discard in w.past.discarded ==> Justified(env, w, discard)
  }

  lemma BundlesGrow(w: World, e: Event, env: Env)
    requires Enabled(env, w, e)
    ensures forall b :: b in w.disk.bundles ==>
      b in Next(w, e).disk.bundles
        && Next(w, e).disk.bundles[b].(completed := true) == w.disk.bundles[b].(completed := true)
  {
  }

  lemma JustifiedStays(env: Env, w: World, e: Event, discard: Discard)
    requires Enabled(env, w, e) && Justified(env, w, discard)
    ensures Justified(env, Next(w, e), discard)
  {
    BundlesGrow(w, e, env);
    if b :| b in w.disk.bundles && w.disk.bundles[b].wal == Some(discard.wal) {
      assert b in Next(w, e).disk.bundles && Next(w, e).disk.bundles[b].wal == Some(discard.wal);
    }
  }

  lemma MovesKeepMarker(env: Env, w: World, e: Event)
    requires Enabled(env, w, e) && MarkerSound(env, w)
    requires (e.MoveAside? || e.MoveBack? || e.RemoveAside? || e.OperatorRemovesWal?)
    ensures MarkerSound(env, Next(w, e))
  {
    hide Permitted, Verified, Matches;
    var m := w.disk.marker.value;
    assert Permitted(env, w, m) ==> Permitted(env, Next(w, e), m) by { PermittedStays(env, w, Next(w, e), m); }
  }

  lemma PermittedStays(env: Env, w: World, w': World, m: Marker)
    requires m.WalBypass? && w.past.checkpointed == w'.past.checkpointed
    requires w.past.autoEver == w'.past.autoEver && w.past.checkpointedDb == w'.past.checkpointedDb
    ensures Permitted(env, w, m) <==> Permitted(env, w', m)
  {
  }

  lemma RewritesKeepMarker(env: Env, w: World, e: Event)
    requires Enabled(env, w, e) && MarkerSound(env, w) && e.RewriteMarker?
    ensures MarkerSound(env, Next(w, e))
  {
  }

  lemma BeginningsAndEndsKeepMarker(env: Env, w: World, e: Event)
    requires Enabled(env, w, e) && MarkerSound(env, w) && (e.CreateMarker? || e.RemoveMarker?)
    ensures MarkerSound(env, Next(w, e))
  {
    hide Verified;
  }

  lemma MarkerStaysSound(env: Env, w: World, e: Event)
    requires Enabled(env, w, e) && MarkerSound(env, w)
    ensures MarkerSound(env, Next(w, e))
  {
    if e.MoveAside? || e.MoveBack? || e.RemoveAside? || e.OperatorRemovesWal? {
      MovesKeepMarker(env, w, e);
    } else if e.RewriteMarker? {
      RewritesKeepMarker(env, w, e);
    } else if e.CreateMarker? || e.RemoveMarker? {
      BeginningsAndEndsKeepMarker(env, w, e);
    } else {
      hide Verified, Matches;
      BundlesGrow(w, e, env);
    }
  }

  lemma DiscardIsJustified(env: Env, w: World, e: Event)
    requires Enabled(env, w, e) && e.RemoveAside? && MarkerSound(env, w)
    ensures w.past.markedWal.Some?
    ensures var p := w.past;
            var discard := Discard(p.markedWal.value, p.markedDb, p.markedGuard, p.checkpointedDb);
            Next(w, e).past.discarded == p.discarded + [discard] && Justified(env, Next(w, e), discard)
  {
  }

  lemma StepKeepsInv(env: Env, w: World, e: Event)
    requires Enabled(env, w, e) && Inv(env, w)
    ensures Inv(env, Next(w, e))
  {
    MarkerStaysSound(env, w, e);
    if e.RemoveAside? { DiscardIsJustified(env, w, e); }
    forall discard | discard in Next(w, e).past.discarded ensures Justified(env, Next(w, e), discard) {
      if discard in w.past.discarded { JustifiedStays(env, w, e, discard); }
    }
  }

  // ---------------------------------------------------------- whole runs

  // Before the first recovery: no marker, nothing aside.
  ghost predicate Fresh(w: World) {
    w.disk.marker.None? && w.disk.asides == map[] && w.past.discarded == []
  }

  lemma RunsKeepInv(env: Env, trace: seq<World>, log: seq<Event>, i: nat)
    requires IsRun(env, trace, log) && Inv(env, trace[0]) && i < |trace|
    ensures Inv(env, trace[i])
  {
    forall w, e | Enabled(env, w, e) && Inv(env, w) ensures Inv(env, Next(w, e)) {
      StepKeepsInv(env, w, e);
    }
    Runs.Keeps(Steps(env), w => Inv(env, w), trace, log, i);
  }

  // Recovery never destroys the only copy. In every durable state of every run:
  // each deleted WAL is in a bundle, or the database hashed to the checksum in the
  // guard when its marker was created; and no WAL was deleted, unless automatic
  // recovery was enabled in some run, but after a CHECKPOINT of a database with
  // the guard's checksum or its single token. The WAL a marker stands for is still
  // on disk until the phase that follows that CHECKPOINT, unless an operator
  // removed it. While indexes are being dropped, a bundle holds both files as they
  // were before.
  lemma NeverTheOnlyCopy(env: Env, trace: seq<World>, log: seq<Event>, i: nat)
    requires IsRun(env, trace, log) && Fresh(trace[0]) && i < |trace|
    ensures var d, p := trace[i].disk, trace[i].past;
            forall x :: x in p.discarded ==>
              && ((exists b :: b in d.bundles && d.bundles[b].wal == Some(x.wal))
                  || (&& x.guard.Some? && x.guard.value.dbHash.Some? && x.markedDb.Some?
                      && env.hash(x.markedDb.value) == x.guard.value.dbHash.value))
              && (p.autoEver
                  || (&& x.guard.Some? && x.checkpointedDb.Some?
                      && if x.guard.value.dbHash.Some?
                         then env.hash(x.checkpointedDb.value) == x.guard.value.dbHash.value
                         else x.guard.value.token != "" && env.tokens(x.checkpointedDb.value) == [x.guard.value.token]))
    ensures var d, p := trace[i].disk, trace[i].past;
            d.marker.Some? && d.marker.value.WalBypass? ==>
              var m := d.marker.value;
              && p.markedWal.Some?
              && (if m.bundle.None?
                then && p.markedGuard.Some? && p.markedGuard.value.dbHash.Some? && p.markedDb.Some?
                     && env.hash(p.markedDb.value) == p.markedGuard.value.dbHash.value
                else && m.bundle.value in d.bundles
                     && d.bundles[m.bundle.value].db == p.markedDb && d.bundles[m.bundle.value].wal == p.markedWal)
              && (m.phase == CleanupWal || p.operatorRemoved || d.wal == p.markedWal
                  || (m.stamp in d.asides && d.asides[m.stamp] == p.markedWal.value))
    ensures var d, p := trace[i].disk, trace[i].past;
            d.marker.Some? && d.marker.value.RemoveIndexes? ==>
              var bundle := d.marker.value.bundle;
              && bundle.Some? && bundle.value in d.bundles
              && d.bundles[bundle.value].db == p.markedDb && d.bundles[bundle.value].wal == p.markedWal
    ensures trace[i].disk.marker.None? ==> trace[i].disk.asides == map[]
  {
    RunsKeepInv(env, trace, log, i);
  }

  function PhaseRank(phase: Phase): nat {
    match phase
    case AwaitingOperator => 3
    case MoveWal => 2
    case Blank => 2
    case CheckpointWithoutWal => 1
    case _ => 0
  }

  function Rank(m: Marker): nat
    requires m.WalBypass?
  {
    PhaseRank(m.phase) + if m.migrationWal then 4 else 0
  }

  // Every rewriting of a WAL marker comes closer to the end; the one that goes
  // back to waiting for the operator gives up the migration guard.
  lemma RewritesDescend(env: Env, w: World, m': Marker)
    requires Enabled(env, w, RewriteMarker(m')) && w.disk.marker.value.WalBypass?
    ensures m'.WalBypass? && Rank(m') < Rank(w.disk.marker.value) && m'.stamp == w.disk.marker.value.stamp
    ensures PhaseRank(m'.phase) > PhaseRank(w.disk.marker.value.phase) ==>
      w.disk.marker.value.migrationWal && !m'.migrationWal && m'.phase == AwaitingOperator
  {
  }

  lemma MarkerStays(w: World, e: Event)
    requires !e.CreateMarker? && !e.RewriteMarker? && !e.RemoveMarker?
    ensures Next(w, e).disk.marker == w.disk.marker
  {
  }

  // All states of the trace carry a WAL marker, and none is a new one.
  ghost predicate OneMarker(trace: seq<World>, log: seq<Event>) {
    && (forall i :: 0 <= i < |trace| ==> trace[i].disk.marker.Some? && trace[i].disk.marker.value.WalBypass?)
    && (forall i :: 0 <= i < |log| ==> !log[i].CreateMarker?)
  }

  function Rewrites(log: seq<Event>): nat {
    if log == [] then 0 else Rewrites(log[..|log| - 1]) + if log[|log| - 1].RewriteMarker? then 1 else 0
  }

  ghost function Returns(trace: seq<World>, log: seq<Event>): nat
    requires |trace| == |log| + 1 && OneMarker(trace, log)
    decreases |log|
  {
    if log == [] then 0
    else
      var n := |log| - 1;
      Returns(trace[..n + 1], log[..n])
      + if PhaseRank(trace[n + 1].disk.marker.value.phase) > PhaseRank(trace[n].disk.marker.value.phase) then 1 else 0
  }

  // However many processes work on one marker, it is rewritten at most seven
  // times and goes back at most once.
  lemma {:induction false} MarkerIsRewrittenSeldom(env: Env, trace: seq<World>, log: seq<Event>)
    requires IsRun(env, trace, log) && OneMarker(trace, log)
    ensures Rewrites(log) + Rank(trace[|log|].disk.marker.value) <= Rank(trace[0].disk.marker.value) <= 7
    ensures Returns(trace, log) + (if trace[|log|].disk.marker.value.migrationWal then 1 else 0)
         <= if trace[0].disk.marker.value.migrationWal then 1 else 0
  {
    if log != [] {
      hide Enabled, NextPast;
      var n := |log| - 1;
      MarkerIsRewrittenSeldom(env, trace[..n + 1], log[..n]);
      if log[n].RewriteMarker? {
        RewritesDescend(env, trace[n], log[n].marker);
      } else {
        MarkerStays(trace[n], log[n]);
      }
    }
  }

  // -------------------------------------------------------------- the program

  predicate BundleThere(m: Marker, d: Disk) {
    !m.UnknownKind? && (m.bundle.Some? ==> m.bundle.value in d.bundles)
  }

  predicate MayCheckpoint(env: Env, auto: bool, m: Marker, db: Option<Bytes>)
    requires m.WalBypass?
  {
    m.migrationWal ==> auto || Verified(env, db, m)
  }

  // strings.EqualFold on ASCII; no table means every table.
  predicate OnTable(table: string, index: (string, string)) {
    var target := Text.TrimSpace(table);
    target == "" || Text.Lower(index.0) == Text.Lower(target)
  }

  // The names are those listed for the table, or all if no table is named.
  ghost predicate OnTables(listed: seq<(string, string)>, table: string, indexes: seq<string>) {
    forall name :: name in indexes <==>
      exists k :: 0 <= k < |listed| && listed[k].1 == name
        && (Text.TrimSpace(table) == "" || Text.Lower(listed[k].0) == Text.Lower(Text.TrimSpace(table)))
  }

  function Repairable(listed: seq<(string, string)>, table: string): seq<string> {
    if listed == [] then []
    else
      var n := |listed| - 1;
      Repairable(listed[..n], table) + if OnTable(table, listed[n]) then [listed[n].1] else []
  }

  lemma {:induction false} RepairableMeans(listed: seq<(string, string)>, table: string)
    ensures OnTables(listed, table, Repairable(listed, table))
  {
    if listed != [] {
      var n := |listed| - 1;
      var init := listed[..n];
      RepairableMeans(init, table);
      hide OnTables, Repairable;
      RepairableStep(init, listed[n], table);
      assert listed == init + [listed[n]];
    }
  }

  lemma RepairableStep(init: seq<(string, string)>, last: (string, string), table: string)
    requires OnTables(init, table, Repairable(init, table))
    ensures OnTables(init + [last], table, Repairable(init + [last], table))
  {
    var listed := init + [last];
    assert listed[..|init|] == init;
    assert forall k :: 0 <= k < |init| ==> init[k] == listed[k];
    hide Text.Lower, Text.TrimSpace;
  }

  // From some step on each of the indexes was dropped.
  ghost predicate DroppedIn(log: seq<Event>, first: nat, names: seq<string>) {
    forall name :: name in names ==> exists k :: first <= k < |log| && log[k].DropIndex? && log[k].name == name
  }

  // From some step on there was a CHECKPOINT.
  ghost predicate CheckpointedIn(log: seq<Event>, first: nat) {
    exists k :: first <= k < |log| && log[k].Checkpoint?
  }

  lemma StaysInLog(log: seq<Event>, longer: seq<Event>, first: nat, earlier: nat, names: seq<string>)
    requires log <= longer && earlier <= first
    ensures DroppedIn(log, first, names) ==> DroppedIn(longer, earlier, names)
    ensures CheckpointedIn(log, first) ==> CheckpointedIn(longer, earlier)
  {
    forall k | 0 <= k < |log| ensures longer[k] == log[k] {
    }
    if CheckpointedIn(log, first) {
      var k :| first <= k < |log| && log[k].Checkpoint?;
      assert longer[k].Checkpoint?;
    }
    if DroppedIn(log, first, names) {
      forall name | name in names
        ensures exists k :: earlier <= k < |longer| && longer[k].DropIndex? && longer[k].name == name
      {
        var k :| first <= k < |log| && log[k].DropIndex? && log[k].name == name;
        assert longer[k] == log[k];
      }
    }
  }

  lemma DroppedNothing(log: seq<Event>)
    ensures DroppedIn(log, |log|, [])
  {
  }

  lemma DroppedOneMore(log: seq<Event>, first: nat, names: seq<string>, e: Event)
    requires DroppedIn(log, first, names) && e.DropIndex? && first <= |log|
    ensures DroppedIn(log + [e], first, names + [e.name])
  {
    StaysInLog(log, log + [e], first, first, names);
    assert (log + [e])[|log|] == e;
  }

  // The index repair gets to the end when no operation fails.
  predicate CanRepair(env: Env, d: Disk, m: Marker)
    requires m.RemoveIndexes?
  {
    && BundleThere(m, d)
    && match m.step
       case DropUnsafe => m.removed > 0 || (m.indexes == [] && Repairable(env.indexes(d.db, d.wal), m.table) != [])
       case CheckpointIndexes => m.removed > 0
       case UnknownIndexPhase => false
  }

  // The recovery gets to the end when no operation fails.
  predicate CanFinish(env: Env, auto: bool, d: Disk, m: Marker)
    requires m.WalBypass?
  {
    && BundleThere(m, d)
    && match m.phase
       case AwaitingOperator =>
         d.wal.None? || ((m.migrationWal || auto) && m.stamp !in d.asides && MayCheckpoint(env, auto, m, d.db))
       case CleanupWal => true
       case UnknownPhase => false
       case CheckpointWithoutWal => m.stamp in d.asides && MayCheckpoint(env, auto, m, d.db)
       case _ => (d.wal.Some? <==> m.stamp !in d.asides) && MayCheckpoint(env, auto, m, d.db)
  }

  // databaseRecovery with its store
  class DatabaseRecovery {
    const env: Env
    const auto: bool            // automaticWALRecovery
    const indexRepair: bool     // enabled
    const preserveGuard: bool   // preserveMigrationGuardOnConnect
    var disk: Disk
    var failures: nat           // operations that returned an error
    ghost var past: Past
    ghost var trace: seq<World>
    ghost var log: seq<Event>

    ghost predicate Valid()
      reads this
    {
      && IsRun(env, trace, log) && trace[|log|] == Now()
      && (auto ==> past.autoEver)
    }

    ghost function Now(): World
      reads this
    {
      World(disk, past)
    }

    // A process starts on what the last one left on disk.
    constructor (env: Env, disk: Disk, ghost past: Past, auto: bool, indexRepair: bool, preserveGuard: bool)
      ensures Valid() && trace[0] == World(disk, past) && this.disk == disk && failures == 0
      ensures this.env == env && this.auto == auto && this.indexRepair == indexRepair
      ensures this.preserveGuard == preserveGuard
    {
      this.env, this.auto, this.indexRepair, this.preserveGuard := env, auto, indexRepair, preserveGuard;
      this.disk, failures := disk, 0;
      this.past := Next(World(disk, past), Configure(auto)).past;
      trace := [World(disk, past), Next(World(disk, past), Configure(auto))];
      log := [Configure(auto)];
    }

    ghost predicate Continues(before: seq<World>, beforeLog: seq<Event>)
      reads this
    {
      Valid() && before <= trace && beforeLog <= log
    }

    // One operation on the disk. It may fail, with or without its effect.
    method Try(e: Event) returns (ok: bool)
      requires Valid() && Enabled(env, Now(), e)
      modifies this
      ensures Continues(old(trace), old(log))
      ensures ok ==> Now() == Next(old(Now()), e) && failures == old(failures) && log == old(log) + [e]
      ensures !ok ==> (Now() == old(Now()) || Now() == Next(old(Now()), e)) && failures == old(failures) + 1
    {
      hide Enabled, NextDisk;
      var effective: bool := *;
      ok := *;
      if !ok {
        failures := failures + 1;
      }
      if ok || effective {
        past := NextPast(disk, past, e);
        disk := NextDisk(disk, e);
        trace, log := trace + [Now()], log + [e];
      }
    }

    method OpenRaw() returns (ok: bool)
      modifies this`failures
      ensures ok ==> failures == old(failures)
      ensures !ok ==> failures == old(failures) + 1
    {
      ok := *;
      if !ok {
        failures := failures + 1;
      }
    }

    // createBundle: the files are compressed into a hidden directory that is
    // renamed last.
    method CreateBundle() returns (bundle: Option<BundleId>)
      requires Valid()
      modifies this
      ensures Continues(old(trace), old(log))
      ensures disk == old(disk).(bundles := disk.bundles)
      ensures bundle.Some? ==> BundleHolds(disk, bundle, disk.db, disk.wal)
      ensures failures >= old(failures)
      ensures failures == old(failures) ==> (bundle.Some? <==> disk.db.Some? || disk.wal.Some?)
    {
      if disk.db.None? && disk.wal.None? {
        return None;
      }
      var id: BundleId := *;
      if id in disk.bundles {
        failures := failures + 1;
        return None;
      }
      var ok := Try(MakeBundle(id));
      bundle := if ok then Some(id) else None;
    }

    // complete
    method Complete(m: Marker) returns (ok: bool)
      requires Valid() && disk.marker == Some(m) && !m.UnknownKind?
      requires Enabled(env, Now(), RemoveMarker)
      modifies this
      ensures Continues(old(trace), old(log))
      ensures disk == old(disk).(bundles := disk.bundles, marker := disk.marker)
      ensures ok ==> disk.marker.None?
      ensures failures >= old(failures)
      ensures failures == old(failures) ==> (ok <==> BundleThere(m, old(disk)))
    {
      if m.bundle.Some? {
        if m.bundle.value !in disk.bundles {
          return false;
        }
        ok := Try(WriteResult);
        if !ok {
          return false;
        }
      }
      ok := Try(RemoveMarker);
    }

    // case "awaiting_operator", with the live WAL still there
    method LeaveWaiting(m: Marker) returns (ok: bool, m': Marker)
      requires Valid() && disk.marker == Some(m) && m.WalBypass? && m.phase == AwaitingOperator
      modifies this
      ensures Continues(old(trace), old(log))
      ensures disk == old(disk).(marker := disk.marker)
      ensures ok ==> m' == m.(phase := MoveWal) && disk.marker == Some(m')
      ensures !m.migrationWal && !auto ==> !ok && disk == old(disk) && failures == old(failures)
      ensures failures >= old(failures)
      ensures failures == old(failures) ==> (ok <==> m.migrationWal || auto)
    {
      m' := m;
      if !m.migrationWal && !auto {
        return false, m;
      }
      m' := m.(phase := MoveWal);
      ok := Try(RewriteMarker(m'));
    }

    // case "move_wal"
    method MoveWalAside(m: Marker) returns (ok: bool, m': Marker)
      requires Valid() && disk.marker == Some(m) && m.WalBypass? && m.phase in {MoveWal, Blank}
      modifies this
      ensures Continues(old(trace), old(log))
      ensures disk == old(disk).(marker := disk.marker, wal := disk.wal, asides := disk.asides)
      ensures ok ==>
        m' == m.(phase := CheckpointWithoutWal) && disk.marker == Some(m') && m.stamp in disk.asides && disk.wal.None?
      ensures failures >= old(failures)
      ensures failures == old(failures) ==> (ok <==> (old(disk).wal.Some? <==> m.stamp !in old(disk).asides))
    {
      m' := m;
      if disk.wal.Some? && m.stamp in disk.asides {
        return false, m;
      }
      if disk.wal.Some? {
        ok := Try(MoveAside);
        if !ok {
          return false, m;
        }
      }
      if m.stamp !in disk.asides {
        return false, m;
      }
      m' := m.(phase := CheckpointWithoutWal);
      ok := Try(RewriteMarker(m'));
    }

    // The verification of a migration WAL; an unreadable file fails it.
    method VerifyMigration(m: Marker) returns (verified: bool)
      requires Valid() && disk.marker == Some(m) && Bypassing(disk, CheckpointWithoutWal) && m.migrationWal
      modifies this
      ensures Continues(old(trace), old(log)) && disk == old(disk) && past == old(past)
      ensures failures >= old(failures)
      ensures var identified :=
                && disk.db.Some?
                && if m.dbHash.Some? then env.hash(disk.db.value) == m.dbHash.value
                   else m.token != "" && env.tokens(disk.db.value) == [m.token];
              (verified ==> identified) && (failures == old(failures) ==> (verified <==> identified))
    {
      verified := OpenRaw();
      verified := verified && Verified(env, disk.db, m);
    }

    // restoreUnverifiedMigrationWAL, which always reports an error
    method RestoreUnverifiedWal(m: Marker)
      requires Valid() && disk.marker == Some(m) && Bypassing(disk, CheckpointWithoutWal)
      requires m.migrationWal && m.stamp in disk.asides
      modifies this
      ensures Continues(old(trace), old(log))
      ensures disk == old(disk).(marker := disk.marker, wal := disk.wal, asides := disk.asides)
      ensures failures >= old(failures)
      ensures failures == old(failures) && old(disk).wal.None? ==>
        && disk.wal == Some(old(disk).asides[m.stamp]) && m.stamp !in disk.asides
        && disk.marker == Some(m.(migrationWal := false, token := "", phase := AwaitingOperator))
      ensures old(disk).wal.Some? ==> disk == old(disk)
    {
      if disk.wal.Some? {
        return;
      }
      var ok := Try(MoveBack);
      if !ok {
        return;
      }
      ok := Try(RewriteMarker(Rejected(m)));
    }

    // case "checkpoint_without_wal"
    method CheckpointWithoutIt(m: Marker) returns (ok: bool, m': Marker)
      requires Valid() && disk.marker == Some(m) && m.WalBypass? && m.phase == CheckpointWithoutWal
      modifies this
      ensures Continues(old(trace), old(log))
      ensures disk.guard == old(disk).guard && disk.bundles == old(disk).bundles
      ensures ok ==> m'.WalBypass? && m'.phase == CleanupWal && m'.stamp == m.stamp && m'.bundle == m.bundle
      ensures ok ==> disk.marker == Some(m') && m.stamp in disk.asides
      ensures m.stamp !in old(disk).asides ==> !ok && disk == old(disk)
      ensures m.stamp in old(disk).asides && m.migrationWal && !auto && !Verified(env, old(disk).db, m) ==> !ok
      ensures
        && m.stamp in old(disk).asides && m.migrationWal && !auto && !Verified(env, old(disk).db, m)
        && old(disk).wal.None? && failures == old(failures) ==>
        && disk.wal == Some(old(disk).asides[m.stamp]) && disk.db == old(disk).db
        && disk.marker == Some(m.(migrationWal := false, token := "", phase := AwaitingOperator))
      ensures failures >= old(failures)
      ensures failures == old(failures) ==>
        (ok <==> m.stamp in old(disk).asides && MayCheckpoint(env, auto, m, old(disk).db))
    {
      hide IsRun, Verified;
      m' := m;
      if m.stamp !in disk.asides {
        return false, m;
      }
      ok := OpenRaw();
      if !ok {
        return false, m;
      }
      ok, m' := AcceptMigration(m);
      if !ok {
        return;
      }
      ok := CheckpointAside(m');
      if ok {
        m' := m'.(phase := CleanupWal);
        ok := Try(RewriteMarker(m'));
      }
    }

    // A migration WAL is bypassed when it verifies, or, its guard given up, when
    // any WAL may be; otherwise it goes back to where it was.
    method AcceptMigration(m: Marker) returns (ok: bool, m': Marker)
      requires Valid() && disk.marker == Some(m) && m.WalBypass? && m.phase == CheckpointWithoutWal
      requires m.stamp in disk.asides
      modifies this
      ensures Continues(old(trace), old(log))
      ensures disk == old(disk).(marker := disk.marker, wal := disk.wal, asides := disk.asides)
      ensures ok ==> disk == old(disk).(marker := Some(m'))
      ensures ok && Verified(env, disk.db, m) && failures == old(failures) ==> m' == m
      ensures ok && m' != m ==> auto && m' == m.(migrationWal := false, token := "", dbHash := None)
      ensures ok && m'.migrationWal ==> Verified(env, disk.db, m')
      ensures m.migrationWal && !auto && !Verified(env, old(disk).db, m) ==> !ok
      ensures
        && m.migrationWal && !auto && !Verified(env, old(disk).db, m)
        && old(disk).wal.None? && failures == old(failures) ==>
        && disk.wal == Some(old(disk).asides[m.stamp])
        && disk.marker == Some(m.(migrationWal := false, token := "", phase := AwaitingOperator))
      ensures failures >= old(failures)
      ensures failures == old(failures) ==> (ok <==> MayCheckpoint(env, auto, m, old(disk).db))
    {
      hide IsRun;
      if !m.migrationWal {
        return true, m;
      }
      var verified := VerifyMigration(m);
      if verified {
        return true, m;
      }
      if !auto {
        RestoreUnverifiedWal(m);
        return false, m;
      }
      m' := Unguarded(m);
      ok := Try(RewriteMarker(m'));
      if ok {
        ok := OpenRaw();
      }
    }

    // CHECKPOINT; what it makes of the database file is not ours to say.
    method CheckpointAside(m: Marker) returns (ok: bool)
      requires Valid() && disk.marker == Some(m) && Enabled(env, Now(), Checkpoint([]))
      modifies this
      ensures Continues(old(trace), old(log))
      ensures disk == old(disk).(db := disk.db, wal := disk.wal)
      ensures past == old(past).(checkpointed := past.checkpointed, checkpointedDb := past.checkpointedDb)
      ensures ok ==> past.checkpointed && past.checkpointedDb == old(disk).db
      ensures ok ==> disk.wal.None? && failures == old(failures) && CheckpointedIn(log, |old(log)|)
      ensures !ok ==> failures == old(failures) + 1
    {
      var db: Bytes := *;
      ok := Try(Checkpoint(db));
      assert ok ==> log[|old(log)|].Checkpoint?;
    }

    // case "cleanup_wal"; a WAL that is already gone is not an error
    method CleanUp(m: Marker) returns (ok: bool)
      requires Valid() && disk.marker == Some(m) && m.WalBypass? && m.phase == CleanupWal
      modifies this
      ensures Continues(old(trace), old(log))
      ensures disk == old(disk).(asides := disk.asides)
      ensures ok ==> m.stamp !in disk.asides && failures == old(failures)
      ensures !ok ==> failures == old(failures) + 1
    {
      ok := true;
      if m.stamp in disk.asides {
        ok := Try(RemoveAside);
      }
    }

    // The phases fall through, each into the next.
    method FromCleanUp(m: Marker) returns (ok: bool)
      requires Valid() && disk.marker == Some(m) && m.WalBypass? && m.phase == CleanupWal
      modifies this
      ensures Continues(old(trace), old(log)) && disk.guard == old(disk).guard
      ensures ok ==> disk.marker.None?
      ensures failures >= old(failures)
      ensures failures == old(failures) ==> (ok <==> CanFinish(env, auto, old(disk), m))
    {
      ok := CleanUp(m);
      if ok {
        ok := Complete(m);
      }
    }

    method FromCheckpoint(m: Marker) returns (ok: bool)
      requires Valid() && disk.marker == Some(m) && m.WalBypass? && m.phase == CheckpointWithoutWal
      modifies this
      ensures Continues(old(trace), old(log)) && disk.guard == old(disk).guard
      ensures ok ==> disk.marker.None?
      ensures failures >= old(failures)
      ensures failures == old(failures) ==> (ok <==> CanFinish(env, auto, old(disk), m))
    {
      hide IsRun, Enabled;
      var m': Marker;
      ok, m' := CheckpointWithoutIt(m);
      if ok {
        ok := FromCleanUp(m');
      }
    }

    method FromMove(m: Marker) returns (ok: bool)
      requires Valid() && disk.marker == Some(m) && m.WalBypass? && m.phase in {MoveWal, Blank}
      modifies this
      ensures Continues(old(trace), old(log)) && disk.guard == old(disk).guard
      ensures ok ==> disk.marker.None?
      ensures failures >= old(failures)
      ensures failures == old(failures) ==> (ok <==> CanFinish(env, auto, old(disk), m))
    {
      hide IsRun, Enabled;
      var m': Marker;
      ok, m' := MoveWalAside(m);
      if ok {
        ok := FromCheckpoint(m');
      }
    }

    // applyWALRecovery
    method ApplyWalRecovery(m: Marker) returns (ok: bool)
      requires Valid() && disk.marker == Some(m) && m.WalBypass?
      modifies this
      ensures Continues(old(trace), old(log)) && disk.guard == old(disk).guard
      ensures ok ==> disk.marker.None?
      ensures failures >= old(failures)
      ensures failures == old(failures) ==> (ok <==> CanFinish(env, auto, old(disk), m))
    {
      var m := m;
      match m.phase
      case AwaitingOperator =>
        if disk.wal.None? {
          ok := Complete(m);
        } else {
          ok, m := LeaveWaiting(m);
          if ok {
            ok := FromMove(m);
          }
        }
      case Blank => ok := FromMove(m);
      case MoveWal => ok := FromMove(m);
      case CheckpointWithoutWal => ok := FromCheckpoint(m);
      case CleanupWal => ok := FromCleanUp(m);
      case UnknownPhase => ok := false;
    }

    // recoverWALWithPolicy, for an error that is a known replay failure. The
    // guard was read when the connection began and is still the one on disk.
    method RecoverWal(guard: Option<Guard>) returns (ok: bool)
      requires Valid() && disk.marker.None? && guard == disk.guard
      modifies this
      ensures Continues(old(trace), old(log)) && disk.guard == old(disk).guard
      ensures ok ==> disk.marker.None?
      ensures failures >= old(failures)
      ensures
        || old(disk).wal.None?
        || (guard.Some? && guard.value.dbHash.Some?
            && (old(disk).db.None? || env.hash(old(disk).db.value) != guard.value.dbHash.value)) ==>
        !ok && disk == old(disk)
      ensures failures == old(failures) && old(disk).asides == map[] ==>
        (ok <==>
          && old(disk).wal.Some?
          && (guard.None? ==> auto)
          && (guard.Some? && guard.value.dbHash.Some? ==>
               old(disk).db.Some? && env.hash(old(disk).db.value) == guard.value.dbHash.value)
          && (guard.Some? && guard.value.dbHash.None? && !auto ==>
               old(disk).db.Some? && guard.value.token != "" && env.tokens(old(disk).db.value) == [guard.value.token]))
    {
      hide IsRun;
      if disk.wal.None? {
        return false;
      }
      var bundle: Option<BundleId> := None;
      if guard.Some? && guard.value.dbHash.Some? {
        if !Matches(env, disk) {
          return false;
        }
      } else {
        bundle := CreateBundle();
        if bundle.None? {
          return false;
        }
      }
      var stamp: Stamp := *;
      var marker := FirstMarker(guard, bundle, stamp);
      ok := Try(CreateMarker(marker));
      if ok {
        ok := ApplyWalRecovery(marker);
      }
    }

    // listRepairableIndexes
    method ListIndexes(table: string) returns (ok: bool, indexes: seq<string>)
      modifies this`failures
      ensures failures == old(failures) + if ok then 0 else 1
      ensures ok ==> indexes == Repairable(env.indexes(disk.db, disk.wal), table)
      ensures ok ==> OnTables(env.indexes(disk.db, disk.wal), table, indexes)
    {
      indexes := [];
      ok := OpenRaw();
      if !ok {
        return;
      }
      var listed := env.indexes(disk.db, disk.wal);
      for i := 0 to |listed|
        invariant indexes == Repairable(listed[..i], table)
      {
        assert listed[..i + 1][..i] == listed[..i];
        if OnTable(table, listed[i]) {
          indexes := indexes + [listed[i].1];
        }
      }
      assert listed[..|listed|] == listed;
      RepairableMeans(listed, table);
    }

    // The loop over the recorded indexes
    method DropIndexes(m: Marker) returns (ok: bool)
      requires Valid() && disk.marker == Some(m) && m.RemoveIndexes? && m.step == DropUnsafe
      modifies this
      ensures Continues(old(trace), old(log))
      ensures disk == old(disk).(db := disk.db, wal := disk.wal) && failures >= old(failures)
      ensures failures == old(failures) ==> ok
      ensures ok ==> DroppedIn(log, |old(log)|, m.indexes)
    {
      hide DroppedIn;
      DroppedNothing(log);
      for i := 0 to |m.indexes|
        invariant Continues(old(trace), old(log))
        invariant disk == old(disk).(db := disk.db, wal := disk.wal) && failures >= old(failures)
        invariant DroppedIn(log, |old(log)|, m.indexes[..i])
      {
        ghost var log' := log;
        var db: Option<Bytes>, wal: Option<Bytes> := *, *;
        ok := Try(DropIndex(m.indexes[i], db, wal));
        if !ok {
          return;
        }
        DroppedOneMore(log', |old(log)|, m.indexes[..i], log[|log| - 1]);
        assert m.indexes[..i + 1] == m.indexes[..i] + [m.indexes[i]];
      }
      assert m.indexes[..|m.indexes|] == m.indexes;
      return true;
    }

    // case "drop_unsafe_indexes"
    method DropUnsafeIndexes(m: Marker) returns (ok: bool, m': Marker)
      requires Valid() && disk.marker == Some(m) && m.RemoveIndexes? && m.step == DropUnsafe
      modifies this
      ensures Continues(old(trace), old(log))
      ensures disk.guard == old(disk).guard && disk.bundles == old(disk).bundles && failures >= old(failures)
      ensures ok ==>
        && m'.RemoveIndexes? && m'.step == CheckpointIndexes && m'.bundle == m.bundle && disk.marker == Some(m')
        && DroppedIn(log, |old(log)|, m'.indexes)
      ensures var listed := Repairable(env.indexes(old(disk).db, old(disk).wal), m.table);
              && (ok && m.indexes == [] && listed != [] ==>
                   m'.indexes == listed && m'.removed == if m.removed < |listed| then |listed| else m.removed)
              && (ok && (m.indexes != [] || listed == []) ==> m'.indexes == m.indexes && m'.removed == m.removed)
              && (failures == old(failures) ==> (ok <==> m.indexes != [] || m.removed > 0 || listed != []))
    {
      hide IsRun, Repairable, DroppedIn;
      m' := m;
      if m.indexes == [] {
        var indexes: seq<string>;
        ok, indexes := ListIndexes(m.table);
        if !ok || (indexes == [] && m.removed == 0) {
          return false, m;
        }
        if indexes != [] {
          m' := m.(indexes := indexes, removed := if m.removed < |indexes| then |indexes| else m.removed);
        }
      }
      ok := Try(RewriteMarker(m'));
      if !ok {
        return;
      }
      ghost var log1 := log;
      ok := DropIndexes(m');
      if !ok {
        return;
      }
      ghost var log2 := log;
      m' := m'.(step := CheckpointIndexes);
      ok := Try(RewriteMarker(m'));
      StaysInLog(log2, log, |log1|, |old(log)|, m'.indexes);
    }

    // applyIndexRepair
    method ApplyIndexRepair(m: Marker) returns (ok: bool)
      requires Valid() && disk.marker == Some(m) && m.RemoveIndexes?
      modifies this
      ensures Continues(old(trace), old(log)) && disk.guard == old(disk).guard && failures >= old(failures)
      ensures ok ==> disk.marker.None? && CheckpointedIn(log, |old(log)|)
      ensures ok && m.step == DropUnsafe ==>
        DroppedIn(log, |old(log)|,
          if m.indexes != [] then m.indexes else Repairable(env.indexes(old(disk).db, old(disk).wal), m.table))
      ensures failures == old(failures) ==> (ok <==> CanRepair(env, old(disk), m))
    {
      hide IsRun, Repairable, DroppedIn, CheckpointedIn;
      ghost var names :=
        if m.indexes != [] then m.indexes else Repairable(env.indexes(disk.db, disk.wal), m.table);
      ok := OpenRaw();
      if !ok || m.step == UnknownIndexPhase {
        return false;
      }
      var m := m;
      if m.step == DropUnsafe {
        ok, m := DropUnsafeIndexes(m);
        if !ok {
          return;
        }
      }
      if m.removed == 0 {
        return false;
      }
      ghost var log1 := log;
      ok := FinishIndexRepair(m);
      StaysInLog(log1, log, |old(log)|, |old(log)|, names);
      StaysInLog(log, log, |log1|, |old(log)|, []);
    }

    // case "checkpoint_indexes"
    method FinishIndexRepair(m: Marker) returns (ok: bool)
      requires Valid() && disk.marker == Some(m) && m.RemoveIndexes? && m.step == CheckpointIndexes && m.removed > 0
      modifies this
      ensures Continues(old(trace), old(log)) && disk.guard == old(disk).guard && failures >= old(failures)
      ensures ok ==> disk.marker.None? && CheckpointedIn(log, |old(log)|)
      ensures failures == old(failures) ==> (ok <==> BundleThere(m, old(disk)))
    {
      hide IsRun, CheckpointedIn, DroppedIn;
      ok := CheckpointAside(m);
      if ok {
        ghost var log1 := log;
        ok := Complete(m);
        StaysInLog(log1, log, |old(log)|, |old(log)|, []);
      }
    }

    // repairIndexes
    method RepairIndexes(table: string) returns (ok: bool)
      requires Valid() && disk.marker.None?
      modifies this
      ensures Continues(old(trace), old(log)) && disk.guard == old(disk).guard && failures >= old(failures)
      ensures ok ==> disk.marker.None?
      ensures ok && indexRepair ==>
        && DroppedIn(log, |old(log)|, Repairable(env.indexes(old(disk).db, old(disk).wal), table))
        && CheckpointedIn(log, |old(log)|)
      ensures !indexRepair ==> ok && disk == old(disk)
      ensures indexRepair && failures == old(failures) ==>
        (ok <==>
          && (old(disk).db.Some? || old(disk).wal.Some?)
          && Repairable(env.indexes(old(disk).db, old(disk).wal), table) != [])
    {
      hide IsRun, Repairable, DroppedIn, CheckpointedIn;
      if !indexRepair {
        return true;
      }
      var bundle := CreateBundle();
      if bundle.None? {
        return false;
      }
      var marker := RemoveIndexes(DropUnsafe, bundle, table, [], 0);
      ok := Try(CreateMarker(marker));
      if ok {
        ghost var log1 := log;
        ok := ApplyIndexRepair(marker);
        StaysInLog(log, log, |log1|, |old(log)|, Repairable(env.indexes(old(disk).db, old(disk).wal), table));
      }
    }

    // recoverStartup
    method RecoverStartup() returns (ok: bool)
      requires Valid()
      modifies this
      ensures Continues(old(trace), old(log)) && disk.guard == old(disk).guard && failures >= old(failures)
      ensures ok ==> disk.marker.None?
      ensures old(disk).marker.None? ==> ok && disk == old(disk)
      ensures failures == old(failures) && old(disk).marker.Some? && old(disk).marker.value.WalBypass? ==>
        (ok <==> CanFinish(env, auto, old(disk), old(disk).marker.value))
      ensures failures == old(failures) && old(disk).marker.Some? && old(disk).marker.value.RemoveIndexes? ==>
        (ok <==> CanRepair(env, old(disk), old(disk).marker.value))
    {
      if disk.marker.None? {
        return true;
      }
      match disk.marker.value
      case RemoveIndexes(_, _, _, _, _) => ok := ApplyIndexRepair(disk.marker.value);
      case WalBypass(_, _, _, _, _, _) => ok := ApplyWalRecovery(disk.marker.value);
      case UnknownKind => ok := false;
    }

    // recoverInvalidation: index corruption is repaired once, from a bundle.
    method RecoverInvalidation(indexCorruption: bool, table: string) returns (ok: bool)
      requires Valid()
      modifies this
      ensures Continues(old(trace), old(log)) && disk.guard == old(disk).guard
      ensures ok ==> disk.marker.None?
      ensures old(disk).marker.None? && (!indexCorruption || !indexRepair) ==>
        ok == !indexCorruption && disk == old(disk)
    {
      if disk.marker.Some? {
        ok := RecoverStartup();
        return;
      }
      if !indexCorruption {
        return true;
      }
      if !indexRepair {
        return false;
      }
      ok := RepairIndexes(table);
    }

    // openReconnectingDB
    method Open() returns (r: Opened)
      modifies this`failures
      ensures failures >= old(failures)
      ensures failures == old(failures) ==> r == env.opens(disk.db, disk.wal)
    {
      var ok := OpenRaw();
      r := if ok then env.opens(disk.db, disk.wal) else OtherFailure;
    }

    // checkpointMigrationGuard
    method CheckpointGuard(clear: bool) returns (ok: bool)
      requires Valid() && disk.marker.None? && disk.guard.Some?
      modifies this
      ensures Continues(old(trace), old(log)) && disk.marker.None?
      ensures ok ==> disk.wal.None? && disk.guard == if clear then None else old(disk).guard
      ensures failures >= old(failures) && (failures == old(failures) ==> ok)
    {
      var db: Bytes := *;
      ok := Try(Checkpoint(db));
      if ok && clear {
        ok := Try(ClearGuard);
      }
    }

    // Store.Connect. Success leaves no marker, and no guard unless it is kept on
    // purpose; then the log of the guarded migrations is in the database.
    method Connect() returns (ok: bool)
      requires Valid()
      modifies this
      ensures Continues(old(trace), old(log))
      ensures ok ==> disk.marker.None?
      ensures ok && old(disk).guard.Some? ==> disk.wal.None?
      ensures ok ==> disk.guard == if preserveGuard then old(disk).guard else None
      ensures var guard := old(disk).guard;
              guard.Some? && (guard.value.scope == "" || guard.value.pending == []
                || (guard.value.token == "" && guard.value.dbHash.None?)) ==>
                !ok && disk == old(disk)
      ensures failures >= old(failures)
      ensures var guard := old(disk).guard;
              failures == old(failures) && old(disk).marker.None?
              && (guard.None? || (&& guard.value.scope != "" && guard.value.pending != []
                                  && (guard.value.token != "" || guard.value.dbHash.Some?))) ==>
                match env.opens(old(disk).db, old(disk).wal)
                case Opened => ok
                case OtherFailure => !ok
                case ReplayFailure => old(disk).wal.None? ==> !ok
    {
      hide IsRun;
      var guard := disk.guard;
      if guard.Some? && !GuardComplete(guard.value) {
        return false;
      }
      ok := RecoverStartup();
      if !ok {
        return;
      }
      var outcome := Open();
      if outcome == ReplayFailure {
        ok := RecoverWal(guard);
        if !ok {
          return;
        }
        outcome := Open();
      }
      if outcome != Opened {
        return false;
      }
      if guard.Some? {
        ok := CheckpointGuard(!preserveGuard);
      }
    }
  }

  // What loadMigrationGuard accepts.
  predicate GuardComplete(guard: Guard) {
    guard.scope != "" && guard.pending != [] && (guard.token != "" || guard.dbHash.Some?)
  }

  // Every state that a process leaves, from a fresh database and through any
  // number of crashes, keeps the captured WAL: the trace of a process is a run,
  // so what holds of runs holds of it.
  lemma ProcessesAreSafe(r: DatabaseRecovery, earlier: seq<World>, earlierLog: seq<Event>, crash: nat)
    requires r.Valid()
    requires IsRun(r.env, earlier, earlierLog) && crash < |earlier| && Fresh(earlier[0]) && r.trace[0] == earlier[crash]
    ensures forall i :: 0 <= i < |r.trace| ==> Inv(r.env, r.trace[i])
    ensures IsRun(r.env, earlier[..crash] + r.trace, earlierLog[..crash] + r.log)
  {
    Runs.RestartIsRun(Steps(r.env), earlier, earlierLog, crash, r.trace, r.log);
    forall i | 0 <= i < |r.trace| ensures Inv(r.env, r.trace[i]) {
      RunsKeepInv(r.env, earlier, earlierLog, crash);
      RunsKeepInv(r.env, r.trace, r.log, i);
    }
  }
}
