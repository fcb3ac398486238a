// importRetentionArchiveFile of database/retention_archive_import.go: each
// table of the archive is merged with a guarded EXCEPT ALL insert, parents first.
module ArchiveImport {
  import opened ForeignKeyOrder
  import opened Relational

  // The tenant catalog: the columns of every table and its foreign keys.
  datatype Catalog = Catalog(columns: map<Table, seq<Column>>, edges: seq<FkEdge>)

  // A parquet export: its columns, and its rows grouped by their _source value.
  datatype Archive = Archive(columns: seq<Column>, sources: map<Table, multiset<Row>>)

  datatype ImportError = NotAnArchive | ForeignKeyCycle | NoSharedColumns(table: Table)

  datatype Outcome = Done | Failed(error: ImportError)

  const SourceColumn: Column := "_source"
  const SiteColumn: Column := "site_id"
  const SitesTable: Table := "sites"
  const SitesKey: Column := "id"

  function Exported(archive: Archive, table: Table): multiset<Row> {
    if table in archive.sources then archive.sources[table] else multiset{}
  }

  function SharedColumns(catalog: Catalog, archive: Archive, table: Table): set<Column> {
    if table in catalog.columns then set c | c in catalog.columns[table] && c in archive.columns else {}
  }

  function ImportedTables(catalog: Catalog, archive: Archive): set<Table> {
    set t | t in archive.sources && t in catalog.columns
  }

  predicate SiteScoped(catalog: Catalog, archive: Archive, table: Table) {
    table in catalog.columns && SiteColumn in catalog.columns[table] && SiteColumn in archive.columns
  }

  // A foreign key is guarded when its column travels with the archive.
  predicate Guarded(catalog: Catalog, archive: Archive, table: Table, e: FkEdge) {
    e.table == table && e.referencedTable != table && e.column in SharedColumns(catalog, archive, table)
  }

  predicate SiteExists(db: Database, row: Row) {
    exists site :: site in Rows(db, SitesTable) && Matches(Cell(row, SiteColumn), Cell(site, SitesKey))
  }

  // The WHERE clause of the archive scan.
  predicate Passes(db: Database, catalog: Catalog, archive: Archive, table: Table, row: Row) {
    && (forall e :: e in catalog.edges && Guarded(catalog, archive, table, e) ==>
        Cell(row, e.column).Null? || HasParent(db, e, row))
    && SiteExists(db, row)
  }

  // The archive rows of table that pass the guards in db, on the shared columns.
  ghost function Admitted(db: Database, catalog: Catalog, archive: Archive, table: Table): multiset<Row> {
    ProjectAll(
      Select(Exported(archive, table), row => Passes(db, catalog, archive, table, row)),
      SharedColumns(catalog, archive, table))
  }

  ghost function Present(db: Database, catalog: Catalog, archive: Archive, table: Table): multiset<Row> {
    ProjectAll(Rows(db, table), SharedColumns(catalog, archive, table))
  }

  // SELECT guarded archive rows EXCEPT ALL SELECT existing rows
  ghost function Missing(db: Database, catalog: Catalog, archive: Archive, table: Table): multiset<Row> {
    Admitted(db, catalog, archive, table) - Present(db, catalog, archive, table)
  }

  ghost function AfterTable(db: Database, catalog: Catalog, archive: Archive, table: Table): Database {
    db[table := Rows(db, table) + Missing(db, catalog, archive, table)]
  }

  ghost function AfterTables(db: Database, catalog: Catalog, archive: Archive, tables: seq<Table>): Database {
    if tables == [] then db
    else AfterTable(AfterTables(db, catalog, archive, tables[..|tables| - 1]), catalog, archive, tables[|tables| - 1])
  }

  // --------------------------- what an import does, said with names and rows alone

  // The row has the values p on the columns that catalog and archive share.
  ghost predicate Shows(catalog: Catalog, archive: Archive, t: Table, row: Row, p: Row)
    requires t in catalog.columns
  {
    && (forall c :: c in p <==> c in row && c in catalog.columns[t] && c in archive.columns)
    && (forall c :: c in p ==> p[c] == row[c])
  }

  // The site of the archive row is there, and so is every parent it names in a
  // shared column.
  ghost predicate Welcome(db: Database, catalog: Catalog, archive: Archive, t: Table, a: Row)
    requires t in catalog.columns
  {
    && "site_id" in a
    && (exists s :: s in Rows(db, "sites") && "id" in s && s["id"] == a["site_id"])
    && forall e :: e in catalog.edges && Travels(catalog, archive, t, e) && e.column in a ==>
      exists parent ::
        parent in Rows(db, e.referencedTable) && e.referencedColumn in parent
          && parent[e.referencedColumn] == a[e.column]
  }

  // A foreign key to another table whose column is shared
  ghost predicate Travels(catalog: Catalog, archive: Archive, t: Table, e: FkEdge)
    requires t in catalog.columns
  {
    e.table == t && e.referencedTable != t && e.column in catalog.columns[t] && e.column in archive.columns
  }

  ghost function Held(rows: multiset<Row>, catalog: Catalog, archive: Archive, t: Table, p: Row): nat
    requires t in catalog.columns
  {
    |Select(rows, row => Shows(catalog, archive, t, row, p))|
  }

  ghost function Offered(db: Database, catalog: Catalog, archive: Archive, t: Table, p: Row): nat
    requires t in catalog.columns && t in archive.sources
  {
    |Select(archive.sources[t],
        a => Welcome(db, catalog, archive, t, a) && Shows(catalog, archive, t, a, p))|
  }

  // A table that is in the catalog and in the archive keeps its rows and gains
  // rows on the shared columns, so that it has each as often as it had it or as the
  // archive has it among its welcome rows, whichever is more; no other table changes.
  ghost predicate Imports(catalog: Catalog, archive: Archive, before: Database, after: Database) {
    forall t {:trigger Rows(after, t)} ::
      if t in catalog.columns && t in archive.sources then
        && Rows(before, t) <= Rows(after, t)
        && (forall row :: row in Rows(after, t) - Rows(before, t) ==>
             forall c :: c in row ==> c in catalog.columns[t] && c in archive.columns)
        && forall p {:trigger Held(Rows(after, t), catalog, archive, t, p)} ::
          var had, has := Held(Rows(before, t), catalog, archive, t, p), Offered(after, catalog, archive, t, p);
          Held(Rows(after, t), catalog, archive, t, p) == if had >= has then had else has
      else Rows(after, t) == Rows(before, t)
  }

  lemma ShowsIsProject(catalog: Catalog, archive: Archive, t: Table, row: Row, p: Row)
    requires t in catalog.columns
    ensures Shows(catalog, archive, t, row, p) <==> Project(row, SharedColumns(catalog, archive, t)) == p
  {
    if Shows(catalog, archive, t, row, p) {
      assert p.Keys == Project(row, SharedColumns(catalog, archive, t)).Keys;
    }
  }

  lemma HeldIsPresent(db: Database, catalog: Catalog, archive: Archive, t: Table, p: Row)
    requires t in catalog.columns
    ensures Held(Rows(db, t), catalog, archive, t, p) == Present(db, catalog, archive, t)[p]
  {
    hide Shows, Project;
    var columns := SharedColumns(catalog, archive, t);
    ProjectionCounts(Rows(db, t), columns, p);
    forall row ensures Shows(catalog, archive, t, row, p) <==> Project(row, columns) == p {
      ShowsIsProject(catalog, archive, t, row, p);
    }
    assert Select(Rows(db, t), row => Shows(catalog, archive, t, row, p))
        == Select(Rows(db, t), row => Project(row, columns) == p);
  }

  lemma WelcomeIsPasses(db: Database, catalog: Catalog, archive: Archive, t: Table, a: Row)
    requires t in catalog.columns
    ensures Welcome(db, catalog, archive, t, a) <==> Passes(db, catalog, archive, t, a)
  {
    if Welcome(db, catalog, archive, t, a) {
      forall e | e in catalog.edges && Guarded(catalog, archive, t, e) && Cell(a, e.column).Val?
        ensures HasParent(db, e, a)
      {
        var parent :| parent in Rows(db, e.referencedTable) && e.referencedColumn in parent
          && parent[e.referencedColumn] == a[e.column];
        assert Matches(Cell(a, e.column), Cell(parent, e.referencedColumn));
      }
    }
    if Passes(db, catalog, archive, t, a) {
      forall e | e in catalog.edges && Travels(catalog, archive, t, e) && e.column in a
        ensures exists parent ::
          parent in Rows(db, e.referencedTable) && e.referencedColumn in parent
            && parent[e.referencedColumn] == a[e.column]
      {
        assert Guarded(catalog, archive, t, e) && HasParent(db, e, a);
      }
    }
  }

  lemma OfferedIsAdmitted(db: Database, catalog: Catalog, archive: Archive, t: Table, p: Row)
    requires t in catalog.columns && t in archive.sources
    ensures Offered(db, catalog, archive, t, p) == Admitted(db, catalog, archive, t)[p]
  {
    hide Shows, Project, Welcome, Passes;
    var columns := SharedColumns(catalog, archive, t);
    var passing := Select(Exported(archive, t), row => Passes(db, catalog, archive, t, row));
    ProjectionCounts(passing, columns, p);
    forall row
      ensures Shows(catalog, archive, t, row, p) <==> Project(row, columns) == p
      ensures Welcome(db, catalog, archive, t, row) <==> Passes(db, catalog, archive, t, row)
    {
      ShowsIsProject(catalog, archive, t, row, p);
      WelcomeIsPasses(db, catalog, archive, t, row);
    }
    assert Select(archive.sources[t], a => Welcome(db, catalog, archive, t, a) && Shows(catalog, archive, t, a, p))
        == Select(passing, row => Project(row, columns) == p);
  }

  lemma MergedImports(catalog: Catalog, archive: Archive, before: Database, after: Database)
    requires Merged(before, after, catalog, archive)
    ensures Imports(catalog, archive, before, after)
  {
    hide Held, Offered, Present, Admitted;
    forall t, p | t in catalog.columns && t in archive.sources
      ensures Held(Rows(after, t), catalog, archive, t, p)
        == Maximum(Held(Rows(before, t), catalog, archive, t, p), Offered(after, catalog, archive, t, p))
    {
      assert t in ImportedTables(catalog, archive);
      HeldIsPresent(before, catalog, archive, t, p);
      HeldIsPresent(after, catalog, archive, t, p);
      OfferedIsAdmitted(after, catalog, archive, t, p);
    }
    forall t ensures t in ImportedTables(catalog, archive) <==> t in catalog.columns && t in archive.sources {
    }
  }

  // ------------------------------------------------------------------- one table

  lemma ProjectedRowsFit(bag: multiset<Row>, columns: set<Column>)
    ensures forall row :: row in ProjectAll(bag, columns) ==> row.Keys <= columns
  {
    forall row | row in ProjectAll(bag, columns) ensures row.Keys <= columns {
      var origin := ProjectionOrigin(bag, columns, row);
    }
  }

  // The projection of the merged table is the pointwise maximum of the two sides.
  lemma MergeIsMaximum(db: Database, catalog: Catalog, archive: Archive, table: Table)
    ensures var present := Present(db, catalog, archive, table);
            var admitted := Admitted(db, catalog, archive, table);
            forall row :: Present(AfterTable(db, catalog, archive, table), catalog, archive, table)[row]
                == if present[row] >= admitted[row] then present[row] else admitted[row]
  {
    var columns := SharedColumns(catalog, archive, table);
    var missing := Missing(db, catalog, archive, table);
    ProjectAllUnion(Rows(db, table), missing, columns);
    ProjectedRowsFit(Select(Exported(archive, table), row => Passes(db, catalog, archive, table, row)), columns);
    ProjectAllIdentity(missing, columns);
  }

  // Rows that were let in have their parents, so the insert satisfies every
  // foreign key from one table to another.
  lemma MergeKeepsForeignKeys(db: Database, catalog: Catalog, archive: Archive, table: Table, e: FkEdge)
    requires e in catalog.edges && e.table != e.referencedTable && Intact(db, e)
    requires e.table in catalog.columns && e.column in catalog.columns[e.table]
    ensures Intact(AfterTable(db, catalog, archive, table), e)
  {
    var after := AfterTable(db, catalog, archive, table);
    var columns := SharedColumns(catalog, archive, table);
    forall row | row in Rows(after, e.table) && Cell(row, e.column).Val? ensures HasParent(after, e, row) {
      if row in Rows(db, e.table) {
        assert HasParent(db, e, row);
      } else {
        assert e.table == table && row in Admitted(db, catalog, archive, table);
        var passing := Select(Exported(archive, table), r => Passes(db, catalog, archive, table, r));
        var origin := ProjectionOrigin(passing, columns, row);
        assert e.column in row && e.column in columns;
        assert Passes(db, catalog, archive, table, origin) && Guarded(catalog, archive, table, e);
        assert Cell(origin, e.column) == Cell(row, e.column);
        assert HasParent(db, e, origin);
      }
    }
  }

  // ------------------------------------------------------------------- one file

  lemma {:induction false} OtherTablesKeep(
    db: Database, catalog: Catalog, archive: Archive, tables: seq<Table>, i: nat, t: Table)
    requires i <= |tables| && forall k :: i <= k < |tables| ==> tables[k] != t
    ensures Rows(AfterTables(db, catalog, archive, tables), t)
      == Rows(AfterTables(db, catalog, archive, tables[..i]), t)
  {
    if i == |tables| {
      assert tables[..i] == tables;
    } else {
      var init := tables[..|tables| - 1];
      assert init[..i] == tables[..i];
      OtherTablesKeep(db, catalog, archive, init, i, t);
    }
  }

  // Later inserts cannot change which rows of an earlier table pass the guards.
  lemma GuardsAreStable(db: Database, catalog: Catalog, archive: Archive, tables: seq<Table>, i: nat)
    requires ParentsFirst(ImportedTables(catalog, archive), catalog.edges, tables) && i < |tables|
    requires SitesTable !in ImportedTables(catalog, archive)
    ensures Admitted(AfterTables(db, catalog, archive, tables), catalog, archive, tables[i])
         == Admitted(AfterTables(db, catalog, archive, tables[..i]), catalog, archive, tables[i])
  {
    var members, table := ImportedTables(catalog, archive), tables[i];
    var now, final := AfterTables(db, catalog, archive, tables[..i]), AfterTables(db, catalog, archive, tables);
    forall k | i <= k < |tables| ensures tables[k] in members { assert tables[k] in Elems(tables); }
    OtherTablesKeep(db, catalog, archive, tables, i, SitesTable);
    forall e | e in catalog.edges && Guarded(catalog, archive, table, e)
      ensures Rows(now, e.referencedTable) == Rows(final, e.referencedTable)
    {
      forall j | i <= j < |tables| ensures tables[j] != e.referencedTable {
        if tables[j] == e.referencedTable {
          assert Relevant(members, e);
          assert ChildOf(members, catalog.edges, tables[i], tables[j]);
        }
      }
      OtherTablesKeep(db, catalog, archive, tables, i, e.referencedTable);
    }
    SameVerdicts(now, final, catalog, archive, table);
  }

  lemma SameVerdicts(a: Database, b: Database, catalog: Catalog, archive: Archive, table: Table)
    requires Rows(a, SitesTable) == Rows(b, SitesTable)
    requires forall e :: e in catalog.edges && Guarded(catalog, archive, table, e) ==>
      Rows(a, e.referencedTable) == Rows(b, e.referencedTable)
    ensures Admitted(a, catalog, archive, table) == Admitted(b, catalog, archive, table)
  {
    forall row ensures Passes(a, catalog, archive, table, row) == Passes(b, catalog, archive, table, row) {
      forall e | e in catalog.edges && Guarded(catalog, archive, table, e)
        ensures HasParent(a, e, row) == HasParent(b, e, row)
      {
      }
    }
    assert Select(Exported(archive, table), row => Passes(a, catalog, archive, table, row))
        == Select(Exported(archive, table), row => Passes(b, catalog, archive, table, row));
  }

  // The whole effect of one file, said about the final rows alone: every
  // imported table is the maximum of what it was and of the archive rows whose
  // parents are there; every other table is as before.
  ghost predicate Merged(before: Database, after: Database, catalog: Catalog, archive: Archive) {
    && (forall t :: t !in ImportedTables(catalog, archive) ==> Rows(after, t) == Rows(before, t))
    && (forall t, row :: t in ImportedTables(catalog, archive) ==>
        Present(after, catalog, archive, t)[row]
          == Maximum(Present(before, catalog, archive, t)[row], Admitted(after, catalog, archive, t)[row]))
    && (forall t :: Rows(before, t) <= Rows(after, t))
    && (forall t, row :: t in ImportedTables(catalog, archive) && row in Rows(after, t) - Rows(before, t) ==>
        row.Keys <= SharedColumns(catalog, archive, t))
  }

  function Maximum(a: nat, b: nat): nat {
    if a >= b then a else b
  }

  lemma ImportMerges(db: Database, catalog: Catalog, archive: Archive, tables: seq<Table>)
    requires ParentsFirst(ImportedTables(catalog, archive), catalog.edges, tables)
    requires SitesTable !in ImportedTables(catalog, archive)
    ensures Merged(db, AfterTables(db, catalog, archive, tables), catalog, archive)
  {
    var after := AfterTables(db, catalog, archive, tables);
    assert tables[..0] == [];
    forall t | t !in Elems(tables) ensures Rows(after, t) == Rows(db, t) {
      OtherTablesKeep(db, catalog, archive, tables, 0, t);
    }
    forall t | t in Elems(tables)
      ensures Rows(db, t) <= Rows(after, t)
      ensures forall row :: row in Rows(after, t) - Rows(db, t) ==> row.Keys <= SharedColumns(catalog, archive, t)
      ensures forall row ::
        Present(after, catalog, archive, t)[row]
          == Maximum(Present(db, catalog, archive, t)[row], Admitted(after, catalog, archive, t)[row])
    {
      var i :| 0 <= i < |tables| && tables[i] == t;
      TableMerges(db, catalog, archive, tables, i);
    }
  }

  lemma TableMerges(db: Database, catalog: Catalog, archive: Archive, tables: seq<Table>, i: nat)
    requires ParentsFirst(ImportedTables(catalog, archive), catalog.edges, tables) && i < |tables|
    requires SitesTable !in ImportedTables(catalog, archive)
    ensures var after := AfterTables(db, catalog, archive, tables);
      && Rows(db, tables[i]) <= Rows(after, tables[i])
      && (forall row :: row in Rows(after, tables[i]) - Rows(db, tables[i]) ==>
           row.Keys <= SharedColumns(catalog, archive, tables[i]))
      && forall row :: Present(after, catalog, archive, tables[i])[row]
          == Maximum(Present(db, catalog, archive, tables[i])[row], Admitted(after, catalog, archive, tables[i])[row])
  {
    var now := AfterTables(db, catalog, archive, tables[..i]);
    TouchedOnce(db, catalog, archive, tables, i);
    GuardsAreStable(db, catalog, archive, tables, i);
    MergeIsMaximum(now, catalog, archive, tables[i]);
    ProjectedRowsFit(Select(Exported(archive, tables[i]), row => Passes(now, catalog, archive, tables[i], row)),
      SharedColumns(catalog, archive, tables[i]));
    assert Rows(AfterTable(now, catalog, archive, tables[i]), tables[i]) - Rows(now, tables[i])
        == Missing(now, catalog, archive, tables[i]);
  }

  lemma TouchedOnce(db: Database, catalog: Catalog, archive: Archive, tables: seq<Table>, i: nat)
    requires NoDup(tables) && i < |tables|
    ensures var now := AfterTables(db, catalog, archive, tables[..i]);
      && Rows(now, tables[i]) == Rows(db, tables[i])
      && Rows(AfterTables(db, catalog, archive, tables), tables[i])
        == Rows(AfterTable(now, catalog, archive, tables[i]), tables[i])
  {
    assert tables[..i + 1][..i] == tables[..i];
    OtherTablesKeep(db, catalog, archive, tables, i + 1, tables[i]);
    assert tables[..i][..0] == [];
    OtherTablesKeep(db, catalog, archive, tables[..i], 0, tables[i]);
  }

  lemma NothingMissing(before: Database, db: Database, catalog: Catalog, archive: Archive, t: Table)
    requires Merged(before, db, catalog, archive) && t in ImportedTables(catalog, archive) && t in db
    ensures AfterTable(db, catalog, archive, t) == db
  {
    forall row ensures Missing(db, catalog, archive, t)[row] == 0 {
      assert Present(db, catalog, archive, t)[row]
          == Maximum(Present(before, catalog, archive, t)[row], Admitted(db, catalog, archive, t)[row]);
    }
    assert Missing(db, catalog, archive, t) == multiset{};
    assert Rows(db, t) + multiset{} == db[t] && db[t := db[t]] == db;
  }

  // Importing the file again changes nothing.
  lemma {:induction false} ImportIsIdempotent(
    before: Database, db: Database, catalog: Catalog, archive: Archive, tables: seq<Table>)
    requires Merged(before, db, catalog, archive)
    requires forall k :: 0 <= k < |tables| ==> tables[k] in ImportedTables(catalog, archive) && tables[k] in db
    ensures AfterTables(db, catalog, archive, tables) == db
  {
    if tables != [] {
      ImportIsIdempotent(before, db, catalog, archive, tables[..|tables| - 1]);
      NothingMissing(before, db, catalog, archive, tables[|tables| - 1]);
    }
  }

  lemma {:induction false} ImportKeepsForeignKeys(
    db: Database, catalog: Catalog, archive: Archive, tables: seq<Table>, e: FkEdge)
    requires e in catalog.edges && e.table != e.referencedTable && Intact(db, e)
    requires e.table in catalog.columns && e.column in catalog.columns[e.table]
    ensures Intact(AfterTables(db, catalog, archive, tables), e)
  {
    if tables != [] {
      ImportKeepsForeignKeys(db, catalog, archive, tables[..|tables| - 1], e);
      var before := AfterTables(db, catalog, archive, tables[..|tables| - 1]);
      MergeKeepsForeignKeys(before, catalog, archive, tables[|tables| - 1], e);
    }
  }

  lemma NothingExported(db: Database, catalog: Catalog, archive: Archive, table: Table)
    requires |Exported(archive, table)| == 0 && table in db
    ensures AfterTable(db, catalog, archive, table) == db
  {
    var passing := Select(Exported(archive, table), row => Passes(db, catalog, archive, table, row));
    assert Exported(archive, table) == multiset{} && passing == multiset{};
    ProjectAllIdentity(passing, SharedColumns(catalog, archive, table));
    assert Missing(db, catalog, archive, table) == multiset{};
    assert Rows(db, table) + multiset{} == db[table] && db[table := db[table]] == db;
  }

  // ------------------------------------------------------------------ the import

  function Tally(m: map<Table, int>, t: Table): int {
    if t in m then m[t] else 0
  }

  // The rows together with the summary counters.
  datatype Ledger = Ledger(db: Database, imported: map<Table, int>, skipped: map<Table, int>)

  // The table grew by what the summary calls imported, and imported plus
  // skipped is the number of its rows in the archive.
  ghost predicate Accounted(before: Ledger, after: Ledger, archive: Archive, t: Table) {
    var imported := Tally(after.imported, t) - Tally(before.imported, t);
    var skipped := Tally(after.skipped, t) - Tally(before.skipped, t);
    && imported == |Rows(after.db, t)| - |Rows(before.db, t)|
    && imported + skipped == if t in archive.sources then |archive.sources[t]| else 0
  }

  ghost predicate Untouched(before: Ledger, after: Ledger, t: Table) {
    && Rows(after.db, t) == Rows(before.db, t)
    && Tally(after.imported, t) == Tally(before.imported, t)
    && Tally(after.skipped, t) == Tally(before.skipped, t)
  }

  // a -> b has dealt with done, and b -> c with one more table.
  ghost predicate Progress(before: Ledger, after: Ledger, archive: Archive, done: set<Table>) {
    && (forall t {:trigger Accounted(before, after, archive, t)} :: t in done ==> Accounted(before, after, archive, t))
    && (forall t {:trigger Untouched(before, after, t)} :: t !in done ==> Untouched(before, after, t))
  }

  lemma ProgressExtends(a: Ledger, b: Ledger, c: Ledger, archive: Archive, done: set<Table>, table: Table)
    requires Progress(a, b, archive, done) && table !in done
    requires Progress(b, c, archive, {table})
    ensures Progress(a, c, archive, done + {table})
  {
    forall t | t in done + {table} ensures Accounted(a, c, archive, t) {
      if t == table {
        assert Untouched(a, b, t) && Accounted(b, c, archive, t);
      } else {
        assert Accounted(a, b, archive, t) && Untouched(b, c, t);
      }
    }
    forall t | t !in done + {table} ensures Untouched(a, c, t) {
      assert Untouched(a, b, t) && Untouched(b, c, t);
    }
  }

  ghost function Posted(before: Ledger, table: Table, missing: multiset<Row>, total: nat): Ledger {
    Ledger(
      before.db[table := Rows(before.db, table) + missing],
      before.imported[table := Tally(before.imported, table) + |missing|],
      before.skipped[table := Tally(before.skipped, table) + total - |missing|])
  }

  lemma PostingProgresses(before: Ledger, archive: Archive, table: Table, missing: multiset<Row>)
    ensures Progress(before, Posted(before, table, missing, |Exported(archive, table)|), archive, {table})
  {
    var after := Posted(before, table, missing, |Exported(archive, table)|);
    forall t | t != table ensures Untouched(before, after, t) {
    }
  }

  lemma IdleProgresses(now: Ledger, archive: Archive, table: Table)
    requires |Exported(archive, table)| == 0
    ensures Progress(now, now, archive, {table})
  {
  }

  class TenantStore {
    var tables: Database
    var imported: map<Table, int>
    var skipped: map<Table, int>

    ghost function Now(): Ledger
      reads this
    {
      Ledger(tables, imported, skipped)
    }

    constructor (db: Database)
      ensures tables == db && imported == map[] && skipped == map[]
    {
      tables, imported, skipped := db, map[], map[];
    }

    // importArchiveTable
    method ImportArchiveTable(catalog: Catalog, archive: Archive, table: Table) returns (r: Outcome)
      requires table in catalog.columns && catalog.columns.Keys <= tables.Keys
      modifies this
      ensures r == if SiteScoped(catalog, archive, table) then Done else Failed(NoSharedColumns(table))
      ensures tables == if r.Done? then AfterTable(old(tables), catalog, archive, table) else old(tables)
      ensures r.Done? ==> Progress(old(Now()), Now(), archive, {table})
    {
      hide Progress, Missing, Admitted, Present, Exported;
      var copyColumns := SharedColumns(catalog, archive, table);
      if copyColumns == {} || SiteColumn !in catalog.columns[table] || SiteColumn !in archive.columns {
        assert SiteScoped(catalog, archive, table) ==> SiteColumn in copyColumns;
        return Failed(NoSharedColumns(table));
      }
      var db := tables;
      var total := |Exported(archive, table)|;
      if total == 0 {
        NothingExported(db, catalog, archive, table);
        IdleProgresses(Now(), archive, table);
        return Done;
      }
      var missing := GuardedExceptAll(db, catalog, archive, table);
      ghost var before := Now();
      PostingProgresses(before, archive, table, missing);
      tables := db[table := Rows(db, table) + missing];
      imported := imported[table := Tally(imported, table) + |missing|];
      skipped := skipped[table := Tally(skipped, table) + total - |missing|];
      assert Now() == Posted(before, table, missing, total);
      return Done;
    }

    // SELECT ... FROM read_parquet WHERE guards EXCEPT ALL SELECT ... FROM table
    method GuardedExceptAll(db: Database, catalog: Catalog, archive: Archive, table: Table)
      returns (missing: multiset<Row>)
      ensures missing == Missing(db, catalog, archive, table)
    {
      var copyColumns := SharedColumns(catalog, archive, table);
      var passing := FilterArchive(db, catalog, archive, table);
      var admitted := SelectColumns(passing, copyColumns);
      var present := SelectColumns(Rows(db, table), copyColumns);
      missing := admitted - present;
    }

    method FilterArchive(db: Database, catalog: Catalog, archive: Archive, table: Table)
      returns (passing: multiset<Row>)
      ensures passing == Select(Exported(archive, table), row => Passes(db, catalog, archive, table, row))
    {
      var rest := Exported(archive, table);
      passing := multiset{};
      while rest != multiset{}
        invariant forall row :: rest[row] == 0 || rest[row] == Exported(archive, table)[row]
        invariant forall row ::
          passing[row] ==
            if rest[row] == 0 && Passes(db, catalog, archive, table, row) then Exported(archive, table)[row] else 0
        decreases |rest|
      {
        var row :| row in rest;
        if Passes(db, catalog, archive, table, row) {
          passing := passing[row := rest[row]];
        }
        rest := rest[row := 0];
      }
    }

    method ImportRetentionArchiveFile(catalog: Catalog, archive: Archive)
      returns (r: Outcome, ghost parentsFirst: seq<Table>, ghost merged: seq<Table>)
      requires catalog.columns.Keys <= tables.Keys
      requires SitesTable in catalog.columns ==> SiteColumn !in catalog.columns[SitesTable]
      modifies this
      ensures var both := archive.sources.Keys * catalog.columns.Keys;
              r.Done? <==>
                && "_source" in archive.columns && Acyclic(both, catalog.edges)
                && forall t :: t in both ==> "site_id" in catalog.columns[t] && "site_id" in archive.columns
      ensures r.Done? ==> Imports(catalog, archive, old(tables), tables)
      ensures r.Done? ==> ParentsFirst(ImportedTables(catalog, archive), catalog.edges, parentsFirst)
      ensures tables == AfterTables(old(tables), catalog, archive, merged) && merged <= parentsFirst
      ensures r.Done? ==> merged == parentsFirst
      ensures r.Failed? && !r.error.NoSharedColumns? ==> merged == [] && parentsFirst == []
      ensures r.Failed? && r.error.NoSharedColumns? ==>
        && ParentsFirst(ImportedTables(catalog, archive), catalog.edges, parentsFirst)
        && |merged| < |parentsFirst| && parentsFirst[|merged|] == r.error.table
        && !SiteScoped(catalog, archive, r.error.table)
      ensures r.Done? ==> Merged(old(tables), tables, catalog, archive)
      ensures r.Done? ==> Progress(old(Now()), Now(), archive, ImportedTables(catalog, archive))
    {
      parentsFirst, merged := [], [];
      if SourceColumn !in archive.columns {
        return Failed(NotAnArchive), [], [];
      }
      var members := ImportedTables(catalog, archive);
      assert members == archive.sources.Keys * catalog.columns.Keys;
      var ordered := OrderChildrenFirst(members, catalog.edges);
      if ordered.CycleAmong? {
        return Failed(ForeignKeyCycle), [], [];
      }
      assert forall k :: 0 <= k < |ordered.order| ==> ordered.order[k] in Elems(ordered.order);
      r, merged := ImportReversed(catalog, archive, ordered.order);
      parentsFirst := Backward(ordered.order);
      BackwardIsParentsFirst(members, catalog.edges, ordered.order);
      if r.Done? {
        ImportMerges(old(tables), catalog, archive, parentsFirst);
        MergedImports(catalog, archive, old(tables), tables);
      }
    }

    // The loop over the reversed order; it stops at the first table that fails.
    method ImportReversed(catalog: Catalog, archive: Archive, order: seq<Table>)
      returns (r: Outcome, ghost merged: seq<Table>)
      requires catalog.columns.Keys <= tables.Keys
      requires NoDup(order) && forall k :: 0 <= k < |order| ==> order[k] in catalog.columns
      modifies this
      ensures r.Done? <==> forall t :: t in Elems(order) ==> SiteScoped(catalog, archive, t)
      ensures tables == AfterTables(old(tables), catalog, archive, merged) && merged <= Backward(order)
      ensures r.Done? ==> merged == Backward(order)
      ensures r.Failed? ==>
        |merged| < |order| && r.error == NoSharedColumns(Backward(order)[|merged|])
          && !SiteScoped(catalog, archive, r.error.table)
      ensures r.Done? ==> Progress(old(Now()), Now(), archive, Elems(order))
    {
      hide Progress, AfterTables, Backward, SiteScoped, Missing;
      var i := |order|;
      merged := [];
      NothingMerged(Now(), catalog, archive);
      assert order[i..] == [] && Elems(order[i..]) == {};
      while i > 0 // slices.Reverse(ordered)
        invariant 0 <= i <= |order| && catalog.columns.Keys <= tables.Keys
        invariant merged == Backward(order[i..])
        invariant tables == AfterTables(old(tables), catalog, archive, merged)
        invariant forall t :: t in Elems(order[i..]) ==> SiteScoped(catalog, archive, t)
        invariant Progress(old(Now()), Now(), archive, Elems(order[i..]))
      {
        i := i - 1;
        SplitAt(order, i);
        ghost var before := Now();
        r := ImportArchiveTable(catalog, archive, order[i]);
        if r.Failed? {
          assert order[i] in Elems(order);
          BackwardSuffix(order, i + 1);
          return;
        }
        ProgressExtends(old(Now()), before, Now(), archive, Elems(order[i + 1..]), order[i]);
        AfterOneMore(old(tables), catalog, archive, merged, order[i]);
        BackwardStep(order, i);
        merged := merged + [order[i]];
      }
      assert order[0..] == order;
      r := Done;
    }
  }

  lemma BackwardSuffix(order: seq<Table>, i: nat)
    requires 0 < i <= |order|
    ensures Backward(order[i..]) <= Backward(order) && |Backward(order[i..])| == |order| - i
    ensures Backward(order)[|order| - i] == order[i - 1]
  {
    assert forall k :: 0 <= k < |order| - i ==> Backward(order[i..])[k] == Backward(order)[k];
  }

  lemma NothingMerged(now: Ledger, catalog: Catalog, archive: Archive)
    ensures AfterTables(now.db, catalog, archive, []) == now.db && Progress(now, now, archive, {}) && Backward([]) == []
  {
  }

  lemma AfterOneMore(db: Database, catalog: Catalog, archive: Archive, merged: seq<Table>, table: Table)
    ensures AfterTables(db, catalog, archive, merged + [table])
         == AfterTable(AfterTables(db, catalog, archive, merged), catalog, archive, table)
  {
    assert (merged + [table])[..|merged|] == merged;
  }

  lemma BackwardStep(order: seq<Table>, i: nat)
    requires i < |order|
    ensures Backward(order[i..]) == Backward(order[i + 1..]) + [order[i]]
  {
    assert order[i..][1..] == order[i + 1..];
  }
}
