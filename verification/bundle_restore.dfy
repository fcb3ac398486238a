// createBundle of database/recovery.go and the bundle restore of
// cmd/recover.go: a bundle is made of a database and its log, and restoring it
// puts both back, or leaves what was there.
module BundleRestore {
  import opened Wrappers
  import opened Text

  type Bytes = seq<int>

  // zstd and SHA-256
  datatype Codec = Codec(compress: Bytes -> Bytes, decompress: Bytes -> Option<Bytes>, sha256: Bytes -> string)

  ghost predicate Lossless(codec: Codec) {
    && (forall b: Bytes :: codec.decompress(codec.compress(b)) == Some(b))
    && (forall b: Bytes :: |codec.sha256(b)| == 64 && TrimSpace(codec.sha256(b)) == codec.sha256(b))
  }

  // strings.EqualFold on ASCII
  predicate EqualFold(a: string, b: string) {
    Lower(a) == Lower(b)
  }

  datatype Artifact = Artifact(name: string, size: int, sha256: string)

  // A finished bundle directory
  datatype Bundle = Bundle(version: int, artifacts: seq<Artifact>, files: map<string, Bytes>)

  const DatabaseName := "database.zst"
  const WalName := "wal.zst"

  datatype Path = Target | TargetWal | Temp | TempWal | Aside | AsideWal

  type Files = map<Path, Bytes>

  function At(files: Files, p: Path): Option<Bytes> {
    if p in files then Some(files[p]) else None
  }

  // ------------------------------------------------------------ making bundles

  function ArtifactOf(codec: Codec, name: string, file: Bytes): Artifact {
    Artifact(name, |file|, codec.sha256(file))
  }

  // createBundle and compressRecoveryArtifact: what exists is compressed.
  method CreateBundle(codec: Codec, db: Option<Bytes>, wal: Option<Bytes>) returns (bundle: Option<Bundle>)
    ensures bundle.Some? <==> db.Some? || wal.Some?
    ensures bundle.Some? ==> Holds(codec, bundle.value, db, wal) && bundle.value.version == 1
  {
    var artifacts: seq<Artifact>, files: map<string, Bytes> := [], map[];
    var paths := [(db, DatabaseName), (wal, WalName)];
    for i := 0 to |paths|
      invariant i >= 1 ==> artifacts == (if db.Some? then [ArtifactOf(codec, DatabaseName, db.value)] else [])
                                      + (if i == 2 && wal.Some? then [ArtifactOf(codec, WalName, wal.value)] else [])
      invariant i == 0 ==> artifacts == []
      invariant i >= 1 && db.Some? ==> DatabaseName in files && files[DatabaseName] == codec.compress(db.value)
      invariant i == 2 && wal.Some? ==> WalName in files && files[WalName] == codec.compress(wal.value)
    {
      var (source, name) := paths[i];
      if source.None? {
        continue;
      }
      files := files[name := codec.compress(source.value)];
      artifacts := artifacts + [ArtifactOf(codec, name, source.value)];
    }
    if artifacts == [] {
      return None;
    }
    bundle := Some(Bundle(1, artifacts, files));
  }

  // The bundle of these two files
  ghost predicate Holds(codec: Codec, bundle: Bundle, db: Option<Bytes>, wal: Option<Bytes>) {
    && bundle.artifacts == (if db.Some? then [ArtifactOf(codec, DatabaseName, db.value)] else [])
                         + (if wal.Some? then [ArtifactOf(codec, WalName, wal.value)] else [])
    && (db.Some? ==> DatabaseName in bundle.files && bundle.files[DatabaseName] == codec.compress(db.value))
    && (wal.Some? ==> WalName in bundle.files && bundle.files[WalName] == codec.compress(wal.value))
  }

  // ----------------------------------------------------------- reading bundles

  predicate ArtifactAllowed(a: Artifact) {
    a.name in [DatabaseName, WalName] && a.size >= 0 && |TrimSpace(a.sha256)| == 64
  }

  ghost predicate Acceptable(bundle: Bundle) {
    && bundle.version == 1
    && (forall a :: a in bundle.artifacts ==>
         (a.name == "database.zst" || a.name == "wal.zst") && a.size >= 0 && |TrimSpace(a.sha256)| == 64)
    && (exists a :: a in bundle.artifacts && a.name == "database.zst")
  }

  // readDatabaseRecoveryBundle
  method ReadBundle(bundle: Bundle) returns (ok: bool)
    ensures ok <==> Acceptable(bundle)
  {
    if bundle.version != 1 || bundle.artifacts == [] {
      return false;
    }
    var hasDatabase := false;
    for i := 0 to |bundle.artifacts|
      invariant forall j :: 0 <= j < i ==> ArtifactAllowed(bundle.artifacts[j])
      invariant hasDatabase <==> exists j :: 0 <= j < i && bundle.artifacts[j].name == DatabaseName
    {
      var a := bundle.artifacts[i];
      if !ArtifactAllowed(a) {
        return false;
      }
      if a.name == DatabaseName {
        hasDatabase := true;
      }
    }
    return hasDatabase;
  }

  // What an artifact decompresses to, when its size and checksum are right
  function Decode(codec: Codec, bundle: Bundle, a: Artifact): Option<Bytes> {
    if a.name !in bundle.files then None
    else
      match codec.decompress(bundle.files[a.name])
      case None => None
      case Some(b) => if |b| == a.size && EqualFold(codec.sha256(b), a.sha256) then Some(b) else None
  }

  // A file came out of the bundle under this name.
  ghost predicate CameFrom(codec: Codec, bundle: Bundle, name: string, file: Bytes) {
    exists a :: a in bundle.artifacts && a.name == name && Decode(codec, bundle, a) == Some(file)
  }

  ghost predicate Lists(bundle: Bundle, name: string) {
    exists a :: a in bundle.artifacts && a.name == name
  }

  // Both files are what the bundle has for them; a log the bundle does not list
  // is not there.
  ghost predicate Restored(codec: Codec, bundle: Bundle, db: Option<Bytes>, wal: Option<Bytes>) {
    && db.Some? && CameFrom(codec, bundle, DatabaseName, db.value)
    && (wal.Some? <==> Lists(bundle, WalName))
    && (wal.Some? ==> CameFrom(codec, bundle, WalName, wal.value))
  }

  // A bundle is accepted exactly when it was made with a database in it.
  lemma OwnBundleIsAcceptable(codec: Codec, bundle: Bundle, db: Option<Bytes>, wal: Option<Bytes>)
    requires Lossless(codec) && bundle.version == 1 && Holds(codec, bundle, db, wal)
    ensures Acceptable(bundle) <==> db.Some?
    ensures forall a :: a in bundle.artifacts ==> Decode(codec, bundle, a).Some?
  {
    if db.Some? { assert bundle.artifacts[0].name == DatabaseName; }
  }

  // Create, then restore: the database and the log are byte for byte what they
  // were, and there is a log exactly when there was one.
  lemma RestoreInvertsCreate(
    codec: Codec, bundle: Bundle, db: Option<Bytes>, wal: Option<Bytes>, db': Option<Bytes>, wal': Option<Bytes>)
    requires Lossless(codec) && Holds(codec, bundle, db, wal) && Restored(codec, bundle, db', wal')
    ensures db' == db && wal' == wal
  {
    var a :| a in bundle.artifacts && a.name == DatabaseName && Decode(codec, bundle, a) == Some(db'.value);
    assert db.Some? && a == ArtifactOf(codec, DatabaseName, db.value);
    if wal'.Some? {
      var l :| l in bundle.artifacts && l.name == WalName && Decode(codec, bundle, l) == Some(wal'.value);
      assert l == ArtifactOf(codec, WalName, wal.value);
    }
    if wal.Some? { assert bundle.artifacts[1].name == WalName; }
  }

  // Damage to the compressed files does not go unseen: whatever they hold when
  // the restore succeeds, there is a log exactly if there was one, and each restored
  // file has the size and digest of the original: it is the original, or the two are
  // a collision of SHA-256.
  lemma DamageIsDetected(
    codec: Codec, made: Bundle, found: Bundle, db: Option<Bytes>, wal: Option<Bytes>, db': Option<Bytes>,
    wal': Option<Bytes>)
    requires Holds(codec, made, db, wal)
    requires found.artifacts == made.artifacts && Restored(codec, found, db', wal')
    ensures
      && db.Some? && db'.Some? && |db'.value| == |db.value|
      && Lower(codec.sha256(db'.value)) == Lower(codec.sha256(db.value))
    ensures wal'.Some? <==> wal.Some?
    ensures wal.Some? ==>
      |wal'.value| == |wal.value| && Lower(codec.sha256(wal'.value)) == Lower(codec.sha256(wal.value))
  {
    var a :| a in found.artifacts && a.name == DatabaseName && Decode(codec, found, a) == Some(db'.value);
    assert db.Some? && a == ArtifactOf(codec, DatabaseName, db.value);
    if wal'.Some? {
      var l :| l in found.artifacts && l.name == WalName && Decode(codec, found, l) == Some(wal'.value);
      assert l == ArtifactOf(codec, WalName, wal.value);
    }
    if wal.Some? { assert found.artifacts[1].name == WalName; }
  }

  // ------------------------------------------------------------- the restore

  // The directory of the target database. The temporary and the backup path
  // carry the time in nanoseconds.
  class TargetDirectory {
    const codec: Codec
    var files: Files
    var failures: nat
    var rollbackFailures: nat

    constructor (codec: Codec, files: Files)
      ensures this.codec == codec && this.files == files && failures == 0 && rollbackFailures == 0
    {
      this.codec, this.files, failures, rollbackFailures := codec, files, 0, 0;
    }

    // Any operation that has no effect on contents: chmod, sync
    method Touch() returns (ok: bool)
      modifies this`failures
      ensures failures == old(failures) + if ok then 0 else 1
    {
      ok := *;
      if !ok {
        failures := failures + 1;
      }
    }

    method Rename(from: Path, to: Path) returns (ok: bool)
      requires from in files && from != to
      modifies this`files, this`failures
      ensures ok ==> files == old(files)[to := old(files)[from]] - {from} && failures == old(failures)
      ensures !ok ==> files == old(files) && failures == old(failures) + 1
    {
      ok := Touch();
      if ok {
        files := files[to := files[from]] - {from};
      }
    }

    // _ = os.Remove(path) on a rollback path
    method RollBackRemove(p: Path)
      modifies this`files, this`failures, this`rollbackFailures
      ensures failures >= old(failures) && rollbackFailures >= old(rollbackFailures)
      ensures files == old(files) - {p} || (files == old(files) && rollbackFailures > old(rollbackFailures))
    {
      if p !in files {
        assert files - {p} == files;
        return;
      }
      var ok := Touch();
      if ok {
        files := files - {p};
      } else {
        rollbackFailures := rollbackFailures + 1;
      }
    }

    method RollBackRename(from: Path, to: Path)
      requires from != to
      modifies this`files, this`failures, this`rollbackFailures
      ensures failures >= old(failures) && rollbackFailures >= old(rollbackFailures)
      ensures from !in old(files) ==> files == old(files) && rollbackFailures == old(rollbackFailures)
      ensures from in old(files) ==>
        || files == old(files)[to := old(files)[from]] - {from}
        || (files == old(files) && rollbackFailures > old(rollbackFailures))
    {
      if from in files {
        var ok := Rename(from, to);
        if !ok {
          rollbackFailures := rollbackFailures + 1;
        }
      }
    }

    // restoreMovedDatabaseBackup
    method RestoreMoved()
      modifies this`files, this`failures, this`rollbackFailures
      ensures failures >= old(failures) && rollbackFailures >= old(rollbackFailures)
      ensures rollbackFailures == old(rollbackFailures) ==>
        && Aside !in files && AsideWal !in files
        && At(files, Target) == (if Aside in old(files) then At(old(files), Aside) else At(old(files), Target))
        && At(files, TargetWal) == (if AsideWal in old(files) then At(old(files), AsideWal)
          else At(old(files), TargetWal))
    {
      RollBackRename(Aside, Target);
      RollBackRename(AsideWal, TargetWal);
    }

    // moveExistingDatabaseAside
    method MoveAside() returns (ok: bool)
      requires Aside !in files && AsideWal !in files
      modifies this`files, this`failures, this`rollbackFailures
      ensures failures >= old(failures) && rollbackFailures >= old(rollbackFailures)
      ensures failures == old(failures) ==> ok
      ensures ok ==>
        && Target !in files && TargetWal !in files
        && At(files, Aside) == At(old(files), Target) && At(files, AsideWal) == At(old(files), TargetWal)
        && At(files, Temp) == At(old(files), Temp) && At(files, TempWal) == At(old(files), TempWal)
      ensures ok ==> rollbackFailures == old(rollbackFailures)
      ensures !ok && rollbackFailures == old(rollbackFailures) ==>
        At(files, Target) == At(old(files), Target) && At(files, TargetWal) == At(old(files), TargetWal)
    {
      ok := true;
      if Target in files {
        ok := Rename(Target, Aside);
        if !ok {
          return;
        }
      }
      if TargetWal in files {
        ok := Rename(TargetWal, AsideWal);
        if !ok {
          RestoreMoved();
        }
      }
    }

    // decompressRecoveryBundleArtifact; a failure may leave part of the file.
    method Decompress(bundle: Bundle, a: Artifact, to: Path) returns (ok: bool)
      modifies this`files, this`failures
      ensures failures >= old(failures)
      ensures files == old(files) || (to !in old(files) && to in files && files == old(files)[to := files[to]])
      ensures ok ==> to !in old(files) && Decode(codec, bundle, a) == At(files, to) && to in files
      ensures failures == old(failures) && to !in old(files) && Decode(codec, bundle, a).Some? ==> ok
    {
      if a.name !in bundle.files || to in files {
        return false;
      }
      ok := Touch();
      if !ok {
        return;
      }
      match codec.decompress(bundle.files[a.name])
      case None =>
        var partial: Bytes := *;
        files := files[to := partial];
        return false;
      case Some(b) =>
        files := files[to := b];
        if |b| != a.size || !EqualFold(codec.sha256(b), a.sha256) {
          return false;
        }
        ok := Touch();
    }

    // The loop over the artifacts of the manifest
    method DecompressAll(bundle: Bundle) returns (ok: bool)
      requires Acceptable(bundle) && Temp !in files && TempWal !in files
      modifies this`files, this`failures
      ensures failures >= old(failures)
      ensures OnlyTemporary(old(files), files)
      ensures ok ==> Restored(codec, bundle, At(files, Temp), At(files, TempWal))
      ensures failures == old(failures) && Readable(codec, bundle) ==> ok
    {
      hide Decode;
      for i := 0 to |bundle.artifacts|
        invariant OnlyTemporary(old(files), files) && failures >= old(failures)
        invariant Temp in files <==> ListsIn(bundle.artifacts[..i], DatabaseName)
        invariant TempWal in files <==> ListsIn(bundle.artifacts[..i], WalName)
        invariant Temp in files ==> CameFrom(codec, bundle, DatabaseName, files[Temp])
        invariant TempWal in files ==> CameFrom(codec, bundle, WalName, files[TempWal])
      {
        var a := bundle.artifacts[i];
        assert bundle.artifacts[..i + 1] == bundle.artifacts[..i] + [a];
        assert ArtifactAllowed(a) && DatabaseName != WalName;
        var to := if a.name == WalName then TempWal else Temp;
        if Readable(codec, bundle) {
          NotListedYet(bundle, i);
        }
        ok := Decompress(bundle, a, to);
        if !ok {
          return;
        }
      }
      assert bundle.artifacts[..|bundle.artifacts|] == bundle.artifacts;
      ok := true;
    }

    // activateRestoredDatabase; on an error the moved files come back.
    method Activate() returns (ok: bool)
      requires Temp in files && Target !in files && TargetWal !in files
      modifies this`files, this`failures, this`rollbackFailures
      ensures failures >= old(failures) && rollbackFailures >= old(rollbackFailures)
      ensures failures == old(failures) ==> ok
      ensures ok ==>
        && At(files, Target) == At(old(files), Temp) && At(files, TargetWal) == At(old(files), TempWal)
        && At(files, Aside) == At(old(files), Aside) && At(files, AsideWal) == At(old(files), AsideWal)
      ensures !ok && rollbackFailures == old(rollbackFailures) ==>
        At(files, Target) == At(old(files), Aside) && At(files, TargetWal) == At(old(files), AsideWal)
    {
      ok := MoveIn();
      if !ok {
        RollBackRemove(Target);
        RollBackRemove(TargetWal);
        RestoreMoved();
      }
    }

    method MoveIn() returns (ok: bool)
      requires Temp in files && Target !in files && TargetWal !in files
      modifies this`files, this`failures
      ensures failures >= old(failures)
      ensures failures == old(failures) ==> ok
      ensures ok ==> At(files, Target) == At(old(files), Temp) && At(files, TargetWal) == At(old(files), TempWal)
      ensures At(files, Aside) == At(old(files), Aside) && At(files, AsideWal) == At(old(files), AsideWal)
    {
      ok := Rename(Temp, Target);
      if !ok {
        return;
      }
      if TempWal in files {
        ok := Rename(TempWal, TargetWal);
        if !ok {
          return;
        }
      }
      ok := Touch();
      if ok && TargetWal in files {
        ok := Touch();
      }
    }

    // restoreDatabaseRecoveryBundle
    method Restore(bundle: Bundle) returns (ok: bool)
      requires Acceptable(bundle)
      requires Temp !in files && TempWal !in files && Aside !in files && AsideWal !in files
      modifies this`files, this`failures, this`rollbackFailures
      ensures ok ==> Restored(codec, bundle, At(files, Target), At(files, TargetWal))
      ensures ok ==> At(files, Aside) == At(old(files), Target) && At(files, AsideWal) == At(old(files), TargetWal)
      ensures !ok && rollbackFailures == old(rollbackFailures) ==>
        At(files, Target) == At(old(files), Target) && At(files, TargetWal) == At(old(files), TargetWal)
      ensures failures == old(failures) && Readable(codec, bundle) ==> ok
      ensures rollbackFailures == old(rollbackFailures) ==> Temp !in files && TempWal !in files
    {
      hide Restored, Acceptable, Readable;
      ok := RestoreOver(bundle);
      // The deferred removal of what is left of the temporary files
      RollBackRemove(Temp);
      RollBackRemove(TempWal);
    }

    method RestoreOver(bundle: Bundle) returns (ok: bool)
      requires Acceptable(bundle)
      requires Temp !in files && TempWal !in files && Aside !in files && AsideWal !in files
      modifies this`files, this`failures, this`rollbackFailures
      ensures failures >= old(failures) && rollbackFailures >= old(rollbackFailures)
      ensures ok ==> Restored(codec, bundle, At(files, Target), At(files, TargetWal))
      ensures ok ==> At(files, Aside) == At(old(files), Target) && At(files, AsideWal) == At(old(files), TargetWal)
      ensures !ok && rollbackFailures == old(rollbackFailures) ==>
        At(files, Target) == At(old(files), Target) && At(files, TargetWal) == At(old(files), TargetWal)
      ensures failures == old(failures) && Readable(codec, bundle) ==> ok
    {
      hide Restored, Acceptable, Readable;
      ok := DecompressAll(bundle);
      if !ok {
        return;
      }
      assert At(files, Temp).Some? by { RestoredHasDatabase(codec, bundle, At(files, Temp), At(files, TempWal)); }
      assert At(files, Aside).None? && At(files, AsideWal).None?;
      assert At(files, Target) == At(old(files), Target) && At(files, TargetWal) == At(old(files), TargetWal);
      ok := MoveAside();
      if ok {
        ok := Activate();
      }
    }
  }

  lemma RestoredHasDatabase(codec: Codec, bundle: Bundle, db: Option<Bytes>, wal: Option<Bytes>)
    requires Restored(codec, bundle, db, wal)
    ensures db.Some?
  {
  }

  ghost predicate ListsIn(artifacts: seq<Artifact>, name: string) {
    exists a :: a in artifacts && a.name == name
  }

  // Nothing but the two temporary files differs.
  ghost predicate OnlyTemporary(before: Files, after: Files) {
    forall p :: p != Temp && p != TempWal ==> At(after, p) == At(before, p)
  }

  // No name twice, and every artifact decodes.
  ghost predicate Readable(codec: Codec, bundle: Bundle) {
    && (forall i, j :: 0 <= i < j < |bundle.artifacts| ==> bundle.artifacts[i].name != bundle.artifacts[j].name)
    && (forall a :: a in bundle.artifacts ==> Decode(codec, bundle, a).Some?)
  }

  lemma NotListedYet(bundle: Bundle, i: nat)
    requires i < |bundle.artifacts|
    requires forall i, j :: 0 <= i < j < |bundle.artifacts| ==> bundle.artifacts[i].name != bundle.artifacts[j].name
    ensures !ListsIn(bundle.artifacts[..i], bundle.artifacts[i].name)
  {
  }

  // Every bundle the program makes can be read back.
  lemma OwnBundleIsReadable(codec: Codec, bundle: Bundle, db: Option<Bytes>, wal: Option<Bytes>)
    requires Lossless(codec) && bundle.version == 1 && Holds(codec, bundle, db, wal)
    ensures Readable(codec, bundle)
  {
    OwnBundleIsAcceptable(codec, bundle, db, wal);
    assert DatabaseName[0] != WalName[0];
  }
}
