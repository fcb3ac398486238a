# HitKeep: models and proofs of its database layer

HitKeep keeps web analytics in DuckDB files. This project models the parts of it
that can lose or mix up data when they are wrong, and proves what they do.

* **Foreign-key planning and the plans it drives.** A children-first order over
  the live schema, the delete plan for one site or tenant, the exact copy of a
  compaction, the import of a retention archive, the copy of one site into
  another store. Tables are multisets of rows, a row is a map from column to
  value (an absent column is NULL), and plans are executed on that store.
* **Restartable file protocols.** WAL recovery with `Connect`, guarded
  migrations, the compaction swap, the default-tenant split, the restore of a
  recovery bundle. What a crash keeps is a `Disk`; each rename, removal, JSON
  write, commit or CHECKPOINT is one event with a guard (`Enabled`) and an effect
  (`Next`), and a protocol's runs are sequences of them (`Runs`). The classes do their work through those events and keep the trace of
  durable states in ghost fields, so every trace is a run; invariants are proved
  for every state of every run. A crash is a run that ends, and the next process
  starts from the state it left. File operations may fail at any time.
* **The reconnecting connector.** One event per locked section of the mutex, so
  that a run is any interleaving of any number of goroutines.
* **The bot classifier compiled to SQL**, with the LIKE predicate of section 8.5
  of ISO/IEC 9075-2 and the character string literals of section 5.3 of the same,
  and the normal form and the merging of the agent list behind it.
* **The batched activity upsert** against upserting every entry by itself.

Files: `text`, `wrappers`, `runs` (strings, stock types, runs of a protocol); `fk_order`, `relational`,
`scoped_delete`, `catalog_copy`, `archive_import`, `site_copy`; `wal_recovery`,
`migration_runner`, `compaction_swap`, `bundle_restore`, `split_rows`,
`tenant_split`; `connector`; `agents`, `agent_merge`, `sql_text`, `classifier`;
`activity`.

`dafny verify dfyconfig.toml` checks everything.

## Where the code does less than its comments say

* `RecordHitActivity` is said to mirror the per-hit upsert
  (`database/store_activity.go:46-48`). It does for times, counters and tracker
  fields. The labels (hostname, event name, automatic event name) may differ in
  two ways. A batch whose last named hostname is older than the stored time,
  followed by a current hit without one, replaces the stored hostname
  (`StaleLabelHappens`). And the batch compares nanoseconds where the columns
  hold microseconds, so of two entries within one microsecond the batch keeps
  the newer and single upserts the later written (`SameMicrosecondHappens`).
  `BatchRefinesSingleRecords` says exactly when the two ways of writing agree,
  and `NeverDiffers` gives plain conditions under which they do.
* The compaction swap removes a stale log only after it has published the
  rewritten file (`database/compact.go:139-142`), and the recovery of an
  interrupted swap does not look at the log. In between the database is exposed.
  `StaleLogIsReplayed` gives, for every disk with a log and every rewrite, a run
  in which the next opening loses rows.
* The recovery of an interrupted swap is to put the original back before any
  caller can create an empty file at its path (`database/compact.go:154-157`). The
  server (`cmd/hitkeep.go:259-276`) and the seeder (`cmd/seed/main.go:87`) open the
  control file with `OpenDefaultSplitControlStore`, which connects first
  (`database/migrate.go:61-65`) and recovers the swap only when it goes on to
  `OpenMigratedStore`. After a death between the two renames the first connection
  leaves an empty file beside the backup, and the recovery, which then sees both
  files (`database/compact.go:184-188`), removes the backup. `LoneBackupIsRemoved`
  gives this run for every disk with a database and every new file.

  `SwapLosesNothing` says that nothing is lost in any run that keeps clear of the
  two: no opening while only the backup is there, no use of an exposed database.
  `OpeningLoses` has the exact condition at an opening.

## Conditions on schemas

Two results hold under conditions that the shipped migrations meet, since no
declared or registered foreign key joins two tables that are copied between
stores, and the shared and tenant schemas agree on every `site_id`. They say what
a new table or key would have to mind.

* The copy of a site replaces each table's rows wholesale, parents first
  (`database/tenant_store_manager.go:816-824`). Its statements keep every foreign
  key exactly when no destination row depends on old rows of the site alone
  (`CopySite`). With a key between two copied tables a second copy of the same
  site would not meet that (`CopyingAgainBreaks`, and `SecondCopyFails` for goals
  and their steps).
* The default-tenant split filters a table out of the control file by the columns
  of the shared schema and copies it by those of the tenant schema
  (`database/split_default_tenant.go:594-600,899-902`). If the two disagreed on
  `site_id`, the scoped rows would be in neither file; `SplitConserves` has the
  exact condition and `DivergentTableLoses` an instance.

## Model

| member | source | states |
|---|---|---|
| ForeignKeyOrder.OrderChildrenFirst | database/fk_cleanup.go:394-452 | Succeeds exactly when the members have no cycle of length two or more; the order is then the lexicographically least with every child before its parents; otherwise the error lists the largest set of tables each of which has a child in the set, sorted. |
| ForeignKeyOrder.CountChildren | database/fk_cleanup.go:397-416 | The counters are the numbers of parallel edges from member children, self-edges and foreign tables ignored, and the parent lists repeat a parent once per edge. |
| ForeignKeyOrder.Release | database/fk_cleanup.go:431-438 | After releasing a table the counters count the edges from tables not yet ordered, and exactly the parents whose count reached zero became ready. |
| ForeignKeyOrder.GreedyIsLeast | database/fk_cleanup.go:418-440 | Always taking the least ready table gives the least of all children-first orders. |
| ForeignKeyOrder.LeastOrderIsUnique | database/fk_cleanup.go:418-440 | There is one least order, so edge order and map iteration order do not matter. |
| ForeignKeyOrder.OrderExcludesCycles | database/fk_cleanup.go:441-450 | A children-first order rules out every cycle of two or more tables. |
| ForeignKeyOrder.StuckHasCycle | database/fk_cleanup.go:441-450 | A non-empty remainder in which every table has a child contains a cycle, which is constructed. |
| ForeignKeyOrder.StuckIsLargest | database/fk_cleanup.go:441-450 | What Kahn's loop leaves over contains every stuck set and proves that there is a cycle. |
| ForeignKeyOrder.BackwardIsParentsFirst | database/fk_cleanup.go:374-375 | Reversing a children-first order puts every parent before its children. |
| ScopedDelete.BuildScopedDeletePlan | database/fk_cleanup.go:145-270 | A plan exactly when all identifiers are safe, every table that references the root has a scope column or a policy, and the members are acyclic; the error otherwise names the cause; the steps are the derived predicates of all members, children first, and one step for the scope column of each scoped table. |
| ScopedDelete.AppendExistingExtraEdges | database/fk_cleanup.go:378-392 | Fails exactly on an unsafe identifier, and puts exactly the extra edges whose two tables exist behind the foreign keys, in their order. |
| ScopedDelete.ScopeMeans | database/fk_cleanup.go:118-180 | Said with the catalog and the request alone: a base table other than the root is scoped exactly when it has one of the scope columns, and by the first one listed; the relationships are the foreign keys and the extra edges between existing tables. |
| ScopedDelete.CheckScope | database/fk_cleanup.go:185-212 | Distinguishes unsafe identifiers from a child of the root that no scope column or policy covers. |
| ScopedDelete.Saturate | database/fk_cleanup.go:221-248 | The bounded membership loop gives predicates only to real members, and all derivable ones exactly when derivation does not run in a cycle. |
| ScopedDelete.SaturationFinishes | database/fk_cleanup.go:223-248 | As many rounds as there are tables reach the fixpoint, by induction on the length of derivation chains. |
| ScopedDelete.CycleIsInexhaustible | database/fk_cleanup.go:223-248 | On a derivation cycle no finite set of predicates is closed, so the bound cuts it off. |
| ScopedDelete.ShallowDerivation | database/fk_cleanup.go:223-248 | Every member has a derivation with fewer subqueries than there are tables, so the loop finds every member even on cycles. |
| ScopedDelete.PlanHasNoFeedCycle | database/fk_cleanup.go:254-257 | A plan whose members are ordered has no derivation cycle, given no self-edge. |
| ScopedDelete.WriteSteps | database/fk_cleanup.go:259-269 | The steps are sound, exhaustive and in the table order. |
| ScopedDelete.Engine.Run | database/site_cleanup.go:90-94 | Running the steps is the fold of single DELETE statements over the store. |
| ScopedDelete.Engine.DeleteScoped | database/site_cleanup.go:85-96 | Said with catalog, request and rows alone: a table with scope columns loses exactly the rows with the id in the first of them; a table without, unless policy code has it, loses exactly the rows that reference a lost row; the root and all others stay as they are, and every kept row is as often there as before. A refused plan changes nothing. |
| ScopedDelete.SelfReferencingIsSelfFed | database/fk_cleanup.go:223-248 | The one exception to that, a table fed by itself, is a table with neither scope column nor policy that references itself. |
| ScopedDelete.PlanRemovesExactlyOwned | database/site_cleanup.go:85-96 | Ownership is reachability through foreign keys, defined without the planner; the executed plan removes the owned rows and nothing else. |
| ScopedDelete.RowsAfter | database/fk_cleanup.go:259-269 | After any number of steps a row is left exactly if no step so far selects it in the original store, although the steps read tables already changed. |
| ScopedDelete.ReadsLater | database/fk_cleanup.go:259-269 | What a step's subqueries read is only deleted from by later steps. |
| ScopedDelete.PlanKeepsForeignKeys | database/fk_cleanup.go:196-212 | Every foreign key with a child that is not left to policy holds after each single step. |
| ScopedDelete.ChildGoesFirst | database/fk_cleanup.go:394-395 | A row that references a deleted row has been deleted by an earlier step. |
| ScopedDelete.PlanFreesRoot | database/fk_cleanup.go:196-212 | After the plan no row of a non-policy table references the root row. |
| CatalogCopy.Rewrite.RewriteDatabaseFile | database/compact.go:261-338 | Succeeds exactly when both catalogs have a migrations table, no migration of the target is certainly missing in the source (as NOT IN has it), the target has all tables with the same columns and there is an order, and the error otherwise tells which of these fails; every table but migrations is then equal to the source as a multiset, seed rows cleared, and no statement on the way violates a target foreign key. |
| CatalogCopy.ClearingStep | database/compact.go:302-309 | Clearing the next table children first keeps all foreign keys. |
| CatalogCopy.FillingStep | database/compact.go:312-338 | Filling the next table parents first keeps all foreign keys. |
| ArchiveImport.TenantStore.ImportArchiveTable | database/retention_archive_import.go:135-218 | One table: the guarded EXCEPT ALL insert, its error case, and imported plus skipped equal to the table's rows in the archive. |
| ArchiveImport.TenantStore.ImportRetentionArchiveFile | database/retention_archive_import.go:98-133 | Fails exactly on a foreign file, a cycle or a table without common site columns, and then has merged exactly the tables before that one in a parents-first order. Otherwise every table of catalog and archive keeps its rows and gains rows on the shared columns, so that it has each as often as it had it or as the archive offers it among the rows whose site and parents are there, whichever is more; other tables are as they were; imported and skipped add up to the archive rows. |
| ArchiveImport.MergedImports | database/retention_archive_import.go:135-207 | The effect in terms of guards and projections is the one told by site ids, parents and shared columns. |
| ArchiveImport.MergeIsMaximum | database/retention_archive_import.go:193-207 | Inserting what EXCEPT ALL leaves makes the projection the pointwise multiset maximum of both sides. |
| ArchiveImport.GuardsAreStable | database/retention_archive_import.go:156-181 | Later inserts do not change which rows of an earlier table pass its guards, because parents go first. |
| ArchiveImport.ImportMerges | database/retention_archive_import.go:120-131 | The whole file has that effect, stated about the final rows alone. |
| ArchiveImport.ImportIsIdempotent | database/retention_archive_import.go:194-207 | Importing the same file again changes nothing. |
| ArchiveImport.ImportKeepsForeignKeys | database/retention_archive_import.go:156-176 | Foreign keys between different tables still hold. |
| SiteCopy.ListScopedCopyTables | database/fk_cleanup.go:296-376 | A plan exactly when names are safe, no copied table references one that is neither copied, the root, nor a tenants table the source lacks, and there is an order; the plan is then the base tables other than the root with the scope column on both sides, each once and parents first; a refusal names the edge. |
| SiteCopy.AnalyticsStore.CopySite | database/tenant_store_manager.go:791-814 | Afterwards, row by row, every copied table has the site's rows as the source has them and all other rows as they were; no statement on the way violates a foreign key exactly when no destination row depends on old rows of the site alone. |
| SiteCopy.AnalyticsStore.CopyTable | database/tenant_store_manager.go:816-884 | One table is replaced wholesale, a statement for the DELETE and one per row. |
| SiteCopy.IntactMeansIndependent | database/tenant_store_manager.go:807-811 | If no statement violates a key, nothing depended on the site's old rows. |
| SiteCopy.AnalyticsStore.DeleteSiteAnalytics | database/site_cleanup.go:98-131 | Afterwards the site's rows are gone from the planned tables and nothing else is; no statement violates a foreign key exactly when whatever references those rows is deleted with them or references another row too. |
| SiteCopy.TransferConserves | database/tenant_store_manager.go:472-483 | Copy and clean-up together move the site's rows, and leave those of other sites on both sides as they were. |
| SiteCopy.CopyingAgainBreaks | database/tenant_store_manager.go:817-824 | Repeating the copy of a site with a row that references another copied row violates that key. |
| SiteCopy.SecondCopyFails | database/tenant_store_manager.go:817-824 | Two tables and one row of each for which the first copy may be made and the second may not. |
| WalRecovery.NeverTheOnlyCopy | database/recovery.go:302-513 | In every durable state of every run, checksums and tokens written out: a deleted WAL is in a bundle, or the database hashed to the guard's checksum when the marker was created; and it was deleted, unless automatic recovery was enabled in some run, only after the CHECKPOINT of a database with the guard's checksum or its single token; until the phase after that CHECKPOINT the WAL is on disk, unless an operator removed it; index repair has both files in a bundle first. |
| WalRecovery.StepKeepsInv | database/recovery.go:302-649 | Every durable step keeps the invariant: where the WAL is in each phase, what backs it, and what permits its removal. |
| WalRecovery.RewritesDescend | database/recovery.go:376-490 | Every rewriting of a WAL marker lowers its rank; the one backward move, to awaiting_operator, gives up the migration guard. |
| WalRecovery.MarkerIsRewrittenSeldom | database/recovery.go:363-513 | Over any number of processes one marker is rewritten at most seven times and goes back at most once. |
| WalRecovery.ProcessesAreSafe | database/store.go:245-302 | The trace of any process that starts from such a state keeps the invariant throughout. |
| WalRecovery.DatabaseRecovery.Connect | database/store.go:245-302 | Success leaves no marker, and no guard unless it is kept on purpose; with a guard the log is then in the database. An incomplete guard fails without touching the disk; with a complete one or none, no marker and no failing operation it succeeds if the database opens. |
| WalRecovery.DatabaseRecovery.RecoverStartup | database/recovery.go:92-112 | Without a marker nothing happens; with one of either kind it succeeds, operations permitting, exactly when the state can be finished. |
| WalRecovery.DatabaseRecovery.RecoverInvalidation | database/recovery.go:114-133 | Only index corruption is repaired, and only if enabled; otherwise the disk is untouched. |
| WalRecovery.DatabaseRecovery.RecoverWal | database/recovery.go:302-361 | Refuses without touching the disk when there is no log or the database does not hash to the guard's checksum. When no operation fails it succeeds exactly if there is a log and: without a guard, automatic recovery is on; with a checksum, it matches; with a token only, automatic recovery is on or the database has that single token. |
| WalRecovery.DatabaseRecovery.ApplyWalRecovery | database/recovery.go:363-490 | If no operation fails it succeeds exactly in the states that can be finished (both or neither WAL file, a missing bundle, a refused operator decision and a failed verification are not), and then clears the marker. |
| WalRecovery.DatabaseRecovery.LeaveWaiting | database/recovery.go:386-396 | Without a migration guard and without automatic recovery nothing is written. |
| WalRecovery.DatabaseRecovery.MoveWalAside | database/recovery.go:398-420 | Proceeds exactly when one of the live and the aside file exists, with the WAL then aside and no live WAL. |
| WalRecovery.DatabaseRecovery.AcceptMigration | database/recovery.go:430-460 | An unverified migration WAL is bypassed only with automatic recovery; otherwise it is put back unchanged and the marker waits for the operator. |
| WalRecovery.DatabaseRecovery.VerifyMigration | database/recovery.go:431-440 | Passes, when the file can be read, exactly if the database hashes to the recorded checksum, or without one has just the recorded token. |
| WalRecovery.DatabaseRecovery.RestoreUnverifiedWal | database/recovery.go:492-513 | The aside WAL is live again and the marker rejected, unless a live WAL exists, which is left alone. |
| WalRecovery.DatabaseRecovery.CleanUp | database/recovery.go:473-480 | The aside WAL is gone; one already gone is no error. |
| WalRecovery.DatabaseRecovery.Complete | database/recovery.go:626-649 | The result goes into the bundle before the marker is removed; a missing bundle keeps the marker. |
| WalRecovery.DatabaseRecovery.CreateBundle | database/recovery.go:515-585 | A bundle holds both files as they are, and is refused when neither exists. |
| WalRecovery.DatabaseRecovery.RepairIndexes | database/recovery.go:154-183 | When repair is disabled nothing is touched. If no operation fails it succeeds exactly when there is a file to bundle and a matching secondary index; success means that every matching index was dropped, a CHECKPOINT was made and no marker is left. |
| WalRecovery.DatabaseRecovery.ApplyIndexRepair | database/recovery.go:185-257 | If no operation fails it succeeds exactly in the states that can be repaired: the bundle is there and indexes are recorded as removed or can be listed. Success means that the recorded, or else the listed, indexes were dropped and a CHECKPOINT was made. |
| WalRecovery.DatabaseRecovery.DropUnsafeIndexes | database/recovery.go:203-230 | Recorded indexes are kept as recorded, a new list is the matching non-unique indexes and is counted, the count never falls, and each of them has been dropped. |
| WalRecovery.DatabaseRecovery.ListIndexes | database/recovery.go:259-289 | The listed indexes are those of the named table, letter case and surrounding spaces aside, or all if none is named. |
| MigrationRunner.MigratingStore.OpenMigrated | database/migrate.go:26-56 | It ends, if the log fails to replay finitely often, with everything that comes with the program recorded and no guard. If no log is dropped on the way, what was committed is, in ascending order, exactly what came with the program and was not recorded. The database is opened once, and again behind each of the eight migrations that rebuild a table, and behind no other. It succeeds if no operation fails and the log replays. Behind the first connection, however the call ends, no guard is given up before everything is in the database file with no log. |
| MigrationRunner.DropsMayRepeat | database/migrate.go:32-55 | For every n there is a run that commits the same migration and drops its log n times and is where it began, so no bound on the rounds is independent of replay failures. |
| MigrationRunner.MigratingStore.Migrate | database/migrate.go:100-225 | One round commits the sorted pending migrations up to the first heavy one, asks for another exactly when it ended with a heavy one, keeps the guard then and clears it otherwise. |
| MigrationRunner.MigratingStore.ApplyBatch | database/migrate_tenant.go:128-151 | The batch is committed in order and nothing else is recorded as applied. |
| MigrationRunner.MigratingStore.ApplyOne | database/migrate.go:194-208 | A migration that needs no reopening is checkpointed before the next. |
| MigrationRunner.MigratingStore.PrepareGuard | database/migration_guard.go:173-228 | A guard of the same scope is kept, one of another scope is an error; otherwise one is written that names everything pending, on a clean base by checksum, else by a checkpointed token. |
| MigrationRunner.MigratingStore.CompleteGuard | database/migration_guard.go:248-256 | The guard is cleared after the CHECKPOINT, with no log left. |
| MigrationRunner.MigratingStore.Connect | database/store.go:257-287 | The guard survives exactly if it is to be kept; applied migrations are unchanged unless a log was dropped. |
| MigrationRunner.TakeBatch | database/migrate.go:154-169 | The search for the end of the batch stops behind the first heavy migration. |
| MigrationRunner.GuardCoversTheLog | database/migration_guard.go:22-34 | In every durable state, guarded migrations that are only in the log have a guard that names them; and when a guard lets the log be dropped, the database file is the one with its checksum or token, no application write is in the log, and everything it loses is still named as pending. |
| MigrationRunner.BatchIsPrefix | database/migrate.go:154-169 | A batch is a prefix of the pending list and has a heavy migration at most at its end, which it has if anything is left. |
| MigrationRunner.HeavyMeans | database/migrate.go:336-350 | The heavy migrations are the eight that rebuild a table. |
| MigrationRunner.PendingMeans | database/migrate.go:126-134 | What is pending is what comes with the program, the embedding file and the shared bootstrap aside, and has no entry in database or log. |
| MigrationRunner.PendingAfter | database/migrate.go:126-134 | Once a prefix of the pending list is applied, the rest is what is pending, in the same order. |
| CompactionSwap.SwapLosesNothing | database/compact.go:77-193 | Over any number of compactions and crashes in which the path is not opened while only the backup is there and no exposed database is used: in every durable state the rows are at the path or in the backup, with the log that belongs to them; every program that opens the path finds the rows the last one left; a backup is removed only while the path holds them all. |
| CompactionSwap.ExposedSincePublication | database/compact.go:125-142 | A database is exposed only after its rewrite was published beside a log, and until it is opened or the log is removed. |
| CompactionSwap.OpeningLoses | database/compact.go:118-142 | An opening loses rows exactly when only the backup is there, or the database is exposed and the log says something beside the rewrite. |
| CompactionSwap.LoneBackupIsRemoved | database/migrate.go:61-91 | For every disk with a database and every different new file: a run, of which no state is exposed, in which the process dies between the renames, the path is opened, and the recovery and the next compaction leave nothing but the new file. |
| CompactionSwap.DatabaseFile.OpenDefaultSplitControlStore | database/migrate.go:61-91 | It loses rows exactly when the path, before any recovery of the swap, does not hold the last ones, as when only the backup is there, and when it goes on the backup is gone. |
| CompactionSwap.DatabaseFile.OpenRecovered | database/migrate.go:26-41 | It loses rows exactly when those the swap left, at the path or else in the backup, are not the last ones; no backup is left. |
| CompactionSwap.SwapIsWholeWithoutLog | database/compact.go:118-142 | If the process dies after publishing, the path holds the original rows for every way of reading them exactly when no log was there as the original moved aside or the rewrite changed nothing. |
| CompactionSwap.StaleLogIsReplayed | database/compact.go:139-142 | For every disk with a log and every rewrite that changes the file: a run and a way of reading in which the opening of the exposed database loses rows. |
| CompactionSwap.StepKeepsWhole | database/compact.go:94-193 | Every file operation but the use of an exposed database and an opening beside a lone backup keeps the database whole, at its path or in the backup. |
| CompactionSwap.DatabaseFile.RecoverSwap | database/compact.go:153-193 | Afterwards the path may be opened and no backup is left; a lone backup is back at the path, and a published file stays. |
| CompactionSwap.DatabaseFile.Swap | database/compact.go:118-150 | On success the work file is live, and without failures backup and log are gone; whatever fails, the rows are still at the path or in the backup. |
| CompactionSwap.DatabaseFile.MaybeCompact | database/compact.go:77-151 | Nothing is created where no database is. It compacts only a database whose free blocks reach both thresholds, skips only one whose do not, and fails only if an operation does. Success leaves a file with the rows the compaction started from; any other outcome leaves them at the path, read with its log or alone once published, or in the backup. |
| BundleRestore.CreateBundle | database/recovery.go:515-585 | The bundle lists exactly the files that exist, with their sizes and checksums, and is refused when there are none. |
| BundleRestore.ReadBundle | cmd/recover.go:357-389 | Accepts exactly the manifests of version 1 with known names, sizes, digests of the right length once trimmed, and a database. |
| BundleRestore.OwnBundleIsAcceptable | cmd/recover.go:385-387 | A bundle the program made is accepted exactly when it was made with a database. |
| BundleRestore.OwnBundleIsReadable | cmd/recover.go:424-455 | Every artifact of such a bundle decodes. |
| BundleRestore.RestoreInvertsCreate | cmd/recover.go:391-422 | Create, then restore: database and log byte for byte what they were, and a log exactly if there was one. |
| BundleRestore.DamageIsDetected | cmd/recover.go:445-450 | Whatever happened to the compressed files, after a restore that succeeds there is a log exactly if there was one, and each file is the recorded one or collides with it in size and digest. |
| BundleRestore.TargetDirectory.Restore | cmd/recover.go:391-422 | Success: both files come from the bundle, no old log stays beside the new database, the old pair is aside. Failure with a rollback that worked: the target pair is the original pair. Without failures a readable bundle is restored. |
| BundleRestore.TargetDirectory.MoveAside | cmd/recover.go:770-815 | Both files are aside, or both are where they were. |
| BundleRestore.TargetDirectory.Activate | cmd/recover.go:475-504 | Both new files are in place, or both moved files are back. |
| BundleRestore.TargetDirectory.RestoreMoved | cmd/recover.go:457-473 | What was moved aside is back at the target, each file by itself. |
| BundleRestore.TargetDirectory.DecompressAll | cmd/recover.go:403-415 | Only the temporary files change; on success they are what the bundle has. |
| SplitRows.BuildTenant | database/split_default_tenant.go:364-525 | Succeeds exactly when there is an order and every table of both schemas with a tenant site_id has a shared one. The target then has, of every such table, exactly the rows whose site has no tenant or the default one, with the value of every column both schemas have, and the sites themselves on three columns. |
| SplitRows.BuildControl | database/split_default_tenant.go:824-1004 | Succeeds exactly when the rebuilt file has every shared table but the three that keep the books, with the same columns, and there is an order. It then has all rows of those tables, as often as they were, but for those that move and activity rows without a site. |
| SplitRows.VerifyScopedRowsEmpty | database/split_default_tenant.go:1122-1192 | Passes exactly when no table of both schemas with a shared site_id has a row that should have moved. |
| SplitRows.SplitConserves | database/split_default_tenant.go:594-600 | Every shared table but the three that keep the books has each row that is read in one of the two files, as often as it was, exactly when the schemas agree on its site_id or none of its rows moves. |
| SplitRows.DivergentTableLoses | database/split_default_tenant.go:899-902 | A schema, a database and its two parts for which a table is not conserved. |
| SplitRows.RewritingAgain | database/split_default_tenant.go:748-1004 | Rewriting a rewritten control file gives the same control part. |
| SplitRows.VerificationPasses | database/split_default_tenant.go:118-120 | A correct control file never fails the verification. |
| SplitRows.ControlPartMeans | database/split_default_tenant.go:824-902 | A correct control file, said table by table and row by row with the names of the schemas. |
| SplitRows.TenantPartMeans | database/split_default_tenant.go:364-525 | A correct tenant file, said in the same way. |
| TenantSplit.SplitLosesNothing | database/split_default_tenant.go:60-213 | In every durable state existence and markers alone name one authoritative place, and it holds all original rows: the shared file, its backup, or control and tenant file, which row by row have what stays and what moves. |
| TenantSplit.CompletedSplitConserves | database/split_default_tenant.go:108-154 | With the second marker the backup is gone, the tenant file is there, no row that should have moved is left, and every shared table but the three that keep the books is conserved under the exact condition, in the control file alone if no tenant schema has it. |
| TenantSplit.TenantFilesAreKept | database/split_default_tenant.go:307-318 | Between any two durable states of a run a tenant file stays or becomes a stray, and strays stay, unless the tenant directory went away. |
| TenantSplit.StepKeepsInv | database/split_default_tenant.go:60-746 | Every durable step keeps the files sound. |
| TenantSplit.DefaultTenantSplit.Run | database/split_default_tenant.go:60-154 | From any state a crash can leave, success means both markers and every row in the file where it belongs; it does succeed when no operation fails; the second pass after a restored backup does not loop. |
| TenantSplit.DefaultTenantSplit.Prepare | database/split_default_tenant.go:298-554 | The tenant file is published complete, and an earlier one is a stray. |
| TenantSplit.DefaultTenantSplit.RewriteControl | database/split_default_tenant.go:675-746 | The control file is published with the first marker only, and the backup is gone. |
| Reconnect.RunsKeepInv | database/reconnect.go:133-256 | Every state of every interleaving: gate occupancy is open connections plus running Connects, openConns counts the unclosed wrappers, at most one native instance is open, a recovery runs alone, the trigger is the picked one. |
| Reconnect.StepKeepsInv | database/reconnect.go:133-256 | Every locked section keeps that invariant. |
| Reconnect.RecoveryRunsAlone | database/reconnect.go:145-160 | While recovery runs there is no other recovery, no connection, no native instance, and every other Connect is refused. |
| Reconnect.RecoveryGetsPickedTrigger | database/reconnect.go:213-225 | Recovery is handed the first trigger that names a table, else the first one seen. |
| Reconnect.FailedRecoveryStaysDead | database/reconnect.go:160-165 | After a failed recovery the connector is dead with the same trigger, and the next Connect recovers again. |
| Reconnect.RecoveryCanComplete | database/reconnect.go:143-188 | From every reachable state with a dead connector, no connection and room in the gate, a goroutine may connect, recover and leave with a connection on the new and only instance. |
| Reconnect.ReleaseFindsToken | database/reconnect.go:116-124 | A release never finds the gate empty. |
| Reconnect.ConnectionsAreLive | database/reconnect.go:240-256 | A connection in use belongs to the one open native instance. |
| Reconnect.ReconnectingConnector.ConnectEnter | database/reconnect.go:143-188 | The first locked section of Connect: refused while connections are open or a recovery runs, the dead instance closed and the trigger handed over otherwise, and on a live connector a connection opened; it equals the step of the interleaving model. |
| Reconnect.ReconnectingConnector.ConnectResume | database/reconnect.go:160-188 | The section after the callback: a failure keeps the connector dead and returns the token, a success revives it and opens a connection; it equals the model's step. |
| Reconnect.ReconnectingConnector.MarkInstanceDead | database/reconnect.go:213-232 | The first trigger is kept unless a later one is the first to name a table; it equals the model's step. |
| Reconnect.ReconnectingConnector.ConnectionClosed | database/reconnect.go:242-256 | A connection returns its token once, and the last one out closes a dead instance; it equals the model's step. |
| Reconnect.ReconnectingConnector.Close | database/reconnect.go:193-209 | Closing drops the instance and all recovery state; it equals the model's step. |
| Reconnect.ReconnectingConn.Close | database/reconnect.go:356-364 | Closing a connection twice gives it back once. |
| Reconnect.ConnectionGate.TryAcquire | database/reconnect.go:104-114 | A token is taken exactly while the limit is not reached. |
| SqlText.ReadLiteralInverts | aianalytics/sqlgen.go:129-131 | A written literal reads back to its text, whatever quotes are in it. |
| SqlText.EscapeParses | aianalytics/sqlgen.go:120-127 | The two replacements turn every character of a token into one literal pattern item. |
| SqlText.LikeIsContains | aianalytics/sqlgen.go:123-127 | LIKE with the escaped token between wildcards is substring containment. |
| Classifier.MacrosAgreeWithClassifier | aianalytics/sqlgen.go:36-57 | For every accepted list and every ASCII user agent, hk_ai_bot and hk_ai_bot_category, their texts and those of the macros they call read back, give the name and category ClassifyBot gives, and NULL for nil. |
| Classifier.StatementsReadBack | aianalytics/sqlgen.go:52-57 | The five statements about user agents read back: each outer macro defines its name and calls its CASE macro, and the arms are those written. |
| Classifier.StatementsAreSql | aianalytics/sqlgen.go:36-57 | The five statements letter by letter, around the arms. |
| Classifier.ArmsAreSql | aianalytics/sqlgen.go:43-46 | An arm letter by letter: LIKE with the escape character, or equality of names. |
| Classifier.ReadMacroInverts | aianalytics/sqlgen.go:39-50 | A macro's text parses to the arms it was written from. |
| Classifier.WriteMacros | aianalytics/sqlgen.go:36-57 | The five statements in order, with one arm per agent in matching order and one per name for the category from name. |
| Classifier.WriteFromNameArms | aianalytics/sqlgen.go:80-93 | Only the first entry of a name gets an arm. |
| Classifier.TrimKeepsTokens | aianalytics/detector.go:40-46 | The trim that only Go does cannot change whether a normal token is contained. |
| Classifier.ClassifyBotIsLongest | aianalytics/detector.go:39-53 | The result has the one contained token that is longest, and of those as long the lexicographically least, and is nil exactly if none is contained. |
| Classifier.ClassifyBotIgnoresOrder | aianalytics/sqlgen.go:10-23 | The order of the stored list does not matter. |
| Classifier.TokenClassifiesItself | aianalytics/detector.go:39-53 | Every accepted token, as a user agent, is classified as its own entry. |
| Classifier.FromNameIsFirst | aianalytics/sqlgen.go:73-93 | The category from name is that of the first entry with the name. |
| Classifier.CategoryFromNameIsExact | aianalytics/sqlgen.go:73-93 | Category from name composed with the name equals the direct category for every user agent exactly when no name carries two categories. |
| AgentList.AgentData.Normalize | aianalytics/agents_data.go:303-327 | Each non-blank token of the list, trimmed and lowered, once and ascending, with the fields of its first entry and the trimmed non-blank sources of all its entries, ascending. |
| AgentList.NormalFormMeans | aianalytics/agents_data.go:303-327 | The normal form in terms of groups of entries is that list. |
| AgentList.NormalFormIsUnique | aianalytics/agents_data.go:303-327 | There is one normal form of a list. |
| AgentList.NormalizeTwice | aianalytics/agents_data.go:303-327 | Normalising a normal form changes nothing. |
| AgentList.NormalFormIsNormal | aianalytics/agents_data.go:303-327 | A normal form has unique, trimmed, lower-case tokens. |
| AgentList.SortKeepsGroup | aianalytics/agents_data.go:312-314 | The stable sort leaves entries of one token in their order. |
| AgentList.NormalizeTokenList | aianalytics/agents_data.go:337-360 | The result is ascending without repetition and has exactly the trimmed, or trimmed and lowered, non-blank values. |
| AgentMerge.MergeAgentEntries | aianalytics/updater.go:133-162 | One entry per normal token, with the fields of the last entry that ranks better than what those before it have merged into, every source, and a URL if any entry has one, the winner's before others. |
| AgentMerge.WinnerIsFirstBest | aianalytics/updater.go:144-147 | With sources written without surrounding spaces that is the first entry of the best rank, although ranks change as sources are joined. |
| AgentMerge.RankOf | aianalytics/updater.go:164-172 | The place of the best listed source among the four ranked ones, or last. |
| Activity.BatchRefinesSingleRecords | database/store_activity.go:62-111 | One batch against one record per entry, from any store, with stored times in microseconds: the same counters, the same rows but for the labels, and the same rows altogether exactly when no site has a label for which the batch source and the single-upsert source differ. |
| Activity.BatchRefinesSingle | database/store_activity.go:212-303 | The same for the row of one site, automatic-event name included. |
| Activity.LatestAgree | database/store_activity.go:227-240 | For one stored time and label: the times agree always, the labels exactly under the condition on the last named entry to the nanosecond and to the microsecond. |
| Activity.InStepDiffersWhenStale | database/store_activity.go:87-92 | When no entry is older than an earlier one within the same microsecond, only a stale label differs. |
| Activity.WholeMicrosAreInStep | database/store_activity.go:87-92 | Times in whole microseconds are in step. |
| Activity.TouchAllMeans | database/store_activity.go:231-240 | Upserting one by one, in the time unit of the column, ends at the newest time, with the label of the last not older named entry if that reaches the stored time. |
| Activity.NeverDiffers | database/store_activity.go:46-48 | Entries in step leave the automatic name as single upserts do, and the label too when none is blank or none is older than the stored time. |
| Activity.StaleLabelHappens | database/store_activity.go:87-92 | A stored row and a batch, microseconds apart, for which the hostnames differ. |
| Activity.SameMicrosecondHappens | database/store_activity.go:182-192 | Two named events within one microsecond for which event name and automatic event name differ. |
| Activity.SinglyCounts | database/store_activity.go:306-329 | Over single records the hits counter or the events counter, by kind, grows by the number of entries in the bucket, from zero if there was none, and the other stays. |
| Activity.ActivityStore.RecordHitActivity | database/store_activity.go:62-111 | Fails exactly if a site of the batch has no known tenant, with some sites upserted whole and no counter changed. Otherwise, said of the batch itself: of each hour of each site the hits counter grows by its hits in that hour and the events counter stays; the first time is the oldest, the last time the newest in microseconds unless all are older than the stored one, the hostname that of the last hit naming one that is not older than those before it, source and version the last; sites and hours without hits stay as they were. |
| Activity.ActivityStore.RecordEventActivity | database/store_activity.go:166-210 | The same for events, with the events counter, the event names, and the automatic events among them by themselves. |
| Activity.ActivityStore.AddHit | database/store_activity.go:79-97 | The running aggregate is the oldest and newest time, the label of the last named entry not older than those before it, the last source and the last version. |
| Activity.ActivityStore.AddEvent | database/store_activity.go:178-196 | The same for events, the automatic fields following the newest automatic event. |

## Left out

- DuckDB itself, Parquet, zstd, SHA-256 and disk-space checks: results of reading, hashing and compressing are parameters; space checks are operations that may fail. Of fsync only the order is modelled, in the compaction swap and the split: no step that relies on a rename comes before the directory was synced.
- The fingerprint of the split is taken as equality of multisets; count, sum and xor alone do not imply it.
- Convergence after a crash between a CHECKPOINT and the next marker write, or between the rename and the marker write of a rejected migration WAL: only safety is claimed there, and the next run may refuse.
- WalRecovery.DatabaseRecovery.CheckpointAside: what a CHECKPOINT makes of the bytes of the database file is not determined.
- WalRecovery: bundles are never deleted, and a live WAL is removed by an operator only while a WAL marker exists; the older blank index-repair phase and status strings are not modelled.
- MigrationRunner.MigratingStore.OpenMigrated: the number of times a log fails to replay within one call is bounded by a parameter, since each such failure may put a dropped migration back (`DropsMayRepeat`); a failed replay without a guard is an error here, because WalRecovery has the automatic route.
- MigrationRunner: the SQL of the migrations, memory limits and what runs once the schema is current; a migration is one commit that records its name.
- CompactionSwap.DatabaseFile.Rewrite: the copy itself is CatalogCopy; that a detached rewrite leaves no log of its own is taken for granted.
- TenantSplit: logs beside the split's files, the staging Parquet files, and migrations the rewritten control file may still get; `migrations`, `data_migrations` and the checkpoint tokens are not conserved by design. Losing the tenant file is modelled in the window the backup covers and not after it. `RunDefaultTenantSplit` is taken as the first to look at the files after a crash: at start-up the control file is opened before it, which between the two renames of the rewrite can create an empty shared file and remove the only backup (see `LoneBackupIsRemoved`).
- SplitRows.BuildTenant: the order of the tables is modelled, the foreign keys of the tenant file while it is filled are not.
- ScopedDelete.PlanKeepsForeignKeys: self-referencing foreign keys are outside what the plan handles, since predicates on one table run in the order they were derived.
- SiteCopy.AnalyticsStore.CopySite: the columns of source and destination agree; keys from a table to itself are excluded. The deletion of the mirrored site row after the clean-up is not modelled.
- ArchiveImport.TenantStore.ImportRetentionArchiveFile: the sites table has no site_id column, as in the tenant schema, so it is not imported itself; file discovery and error texts.
- Reconnect: the gate is that of one connector, although tenant stores share one (`database/tenant_store_manager.go:673`); the drain watchdog; Close while a recovery callback runs, after which nothing is claimed.
- Classifier: user agents and tokens beyond ASCII, and the referrer macros; validation other than the token rules.
- AgentList: referrers, and the counts that the embedded list is checked for.
- AgentMerge.MergeAgentEntries: the result is a map, since the program returns its values in map order.
- Activity: truncation is by character rather than byte, `updated_at`, pruning and the conversion events of the first hit.
- Queries, HTTP, cookies, tokens, limits, dashboards and leader election, which would only add easy members.
