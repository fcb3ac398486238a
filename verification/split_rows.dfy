// Which rows the default-tenant split puts where: prepareDefaultTenantFile,
// rewriteSplitControlWorkFile and verifyDefaultScopedRowsEmpty of
// database/split_default_tenant.go.
module SplitRows {
  import opened ForeignKeyOrder
  import opened Relational

  const Sites: Table := "sites"
  const SiteTenants: Table := "site_tenants"
  const Migrations: Table := "migrations"
  const DataMigrations: Table := "data_migrations"
  const Checkpoints: Table := "hitkeep_migration_checkpoints"
  const SiteId: Column := "site_id"

  // The columns of the shared database, of a fresh tenant database, and of the
  // control file that the applied shared migrations rebuild; and the foreign keys
  // of the last two.
  datatype Schema = Schema(
    shared: map<Table, set<Column>>, tenant: map<Table, set<Column>>, rebuilt: map<Table, set<Column>>,
    sharedEdges: seq<FkEdge>, tenantEdges: seq<FkEdge>)

  // The tables that define the scope exist, and only the shared schema has
  // site_tenants.
  predicate Usual(schema: Schema) {
    Sites in schema.shared && SiteTenants in schema.shared && SiteTenants !in schema.tenant
  }

  // ------------------------------------------------------------------- scope

  // sites LEFT JOIN site_tenants WHERE tenant_id = ? OR site_tenants.site_id IS NULL
  predicate SiteInScope(db: Database, tenant: int, site: Value) {
    && site.Val?
    && (exists s :: s in Rows(db, Sites) && Cell(s, "id") == site)
    && ((exists st :: st in Rows(db, SiteTenants) && Cell(st, SiteId) == site && Cell(st, "tenant_id") == Val(tenant))
        || !(exists st :: st in Rows(db, SiteTenants) && Cell(st, SiteId) == site))
  }

  predicate InScope(db: Database, tenant: int, row: Row) {
    SiteInScope(db, tenant, Cell(row, SiteId))
  }

  // splitUsesLiveSiteProbe
  predicate Probed(t: Table) {
    t == "site_activity_summary" || t == "site_activity_hourly_counts"
  }

  predicate HasLiveSite(db: Database, row: Row) {
    exists s :: s in Rows(db, Sites) && Matches(Cell(row, SiteId), Cell(s, "id"))
  }

  // splitSourceExportRelation: the join with sites drops rows without a site.
  ghost function Exported(db: Database, t: Table): multiset<Row> {
    if Probed(t) then Select(Rows(db, t), row => HasLiveSite(db, row)) else Rows(db, t)
  }

  ghost function ScopedRows(db: Database, tenant: int, t: Table): multiset<Row> {
    Select(Exported(db, t), row => InScope(db, tenant, row))
  }

  ghost function OtherRows(db: Database, tenant: int, t: Table): multiset<Row> {
    Select(Exported(db, t), row => !InScope(db, tenant, row))
  }

  // ------------------------------------------------------------------ tables

  // splitTables
  function SplitTables(schema: Schema): set<Table> {
    set t | t in schema.shared.Keys * schema.tenant.Keys && t != Migrations && t != Sites && SiteId in schema.tenant[t]
  }

  function ControlTables(schema: Schema): set<Table> {
    schema.shared.Keys - {Migrations, DataMigrations, Checkpoints}
  }

  // The control rewrite filters a table by the columns of the shared schema.
  predicate Filtered(schema: Schema, t: Table) {
    t in schema.shared && t in schema.tenant && t != Sites && SiteId in schema.shared[t]
  }

  function CopiedColumns(schema: Schema, t: Table): set<Column>
    requires t in schema.shared && t in schema.tenant
  {
    schema.shared[t] * schema.tenant[t]
  }

  const MirrorColumns: set<Column> := {"id", "domain", "data_retention_days"}

  ghost function Mirrors(db: Database, tenant: int): multiset<Row> {
    ProjectAll(Select(Rows(db, Sites), s => SiteInScope(db, tenant, Cell(s, "id"))), MirrorColumns)
  }

  // The tenant file: the scoped rows of the shared tables on the shared
  // columns, and the mirrors of the scoped sites.
  ghost predicate IsTenantPart(schema: Schema, db: Database, tenant: int, target: Database) {
    && Rows(target, Sites) == Mirrors(db, tenant)
    && forall t :: t in SplitTables(schema) ==>
         Rows(target, t) == ProjectAll(ScopedRows(db, tenant, t), CopiedColumns(schema, t))
  }

  // The rewritten control file: everything else.
  ghost predicate IsControlPart(schema: Schema, db: Database, tenant: int, target: Database) {
    forall t :: t in ControlTables(schema) ==>
      Rows(target, t) == if Filtered(schema, t) then OtherRows(db, tenant, t) else Exported(db, t)
  }

  // ----------------------------- the two parts, said with names and rows alone

  ghost predicate HasSite(db: Database, row: Row) {
    "site_id" in row && exists s :: s in Rows(db, "sites") && "id" in s && s["id"] == row["site_id"]
  }

  ghost predicate OfTenant(db: Database, tenant: int, site: int) {
    || (forall st :: st in Rows(db, "site_tenants") ==> !("site_id" in st && st["site_id"] == site))
    || (exists st :: st in Rows(db, "site_tenants") && "site_id" in st && st["site_id"] == site
          && "tenant_id" in st && st["tenant_id"] == tenant)
  }

  // The site of the row has no tenant or the default one.
  ghost predicate Moves(db: Database, tenant: int, row: Row) {
    HasSite(db, row) && OfTenant(db, tenant, row["site_id"])
  }

  // The two activity tables are read by way of their sites.
  ghost predicate Siteless(db: Database, t: Table, row: Row) {
    (t == "site_activity_summary" || t == "site_activity_hourly_counts") && !HasSite(db, row)
  }

  // Every shared table but the three that keep the books has all its rows, less
  // those that move when both schemas have the table and the shared one its site_id.
  ghost predicate ControlRows(schema: Schema, db: Database, tenant: int, control: Database) {
    forall t, row {:trigger Rows(control, t)[row]} ::
      t in schema.shared && t !in {"migrations", "data_migrations", "hitkeep_migration_checkpoints"} ==>
        Rows(control, t)[row] ==
          if Siteless(db, t, row) then 0
          else if t in schema.tenant && t != "sites" && "site_id" in schema.shared[t] && Moves(db, tenant, row) then 0
          else Rows(db, t)[row]
  }

  ghost predicate Moved(db: Database, tenant: int, t: Table, moved: multiset<Row>) {
    forall row {:trigger moved[row]} ::
      moved[row] == if Moves(db, tenant, row) && !Siteless(db, t, row) then Rows(db, t)[row] else 0
  }

  // Every table of both schemas has the rows that move, with the value of every
  // column that both have; and the sites have theirs on three columns.
  ghost predicate TenantRows(schema: Schema, db: Database, tenant: int, target: Database) {
    && (forall t {:trigger Rows(target, t)} ::
         t in schema.shared && t in schema.tenant && t !in {"migrations", "sites"} && "site_id" in schema.tenant[t] ==>
           exists moved :: Moved(db, tenant, t, moved)
             && SameOnColumns(moved, Rows(target, t), schema.shared[t] * schema.tenant[t]))
    && exists sites :: SitesOf(db, tenant, sites)
         && SameOnColumns(sites, Rows(target, "sites"), {"id", "domain", "data_retention_days"})
  }

  ghost predicate SitesOf(db: Database, tenant: int, sites: multiset<Row>) {
    forall s {:trigger sites[s]} ::
      sites[s] == if "id" in s && OfTenant(db, tenant, s["id"]) then Rows(db, "sites")[s] else 0
  }

  lemma MovesIsInScope(db: Database, tenant: int, row: Row)
    ensures Moves(db, tenant, row) <==> InScope(db, tenant, row)
    ensures HasSite(db, row) <==> HasLiveSite(db, row)
  {
  }

  lemma ControlPartMeans(schema: Schema, db: Database, tenant: int, control: Database)
    requires IsControlPart(schema, db, tenant, control)
    ensures ControlRows(schema, db, tenant, control)
  {
    hide Moves, InScope, HasSite, HasLiveSite;
    forall row {
      MovesIsInScope(db, tenant, row);
    }
  }

  lemma TenantPartMeans(schema: Schema, db: Database, tenant: int, target: Database)
    requires IsTenantPart(schema, db, tenant, target)
    ensures TenantRows(schema, db, tenant, target)
  {
    hide Moves, InScope, HasSite, HasLiveSite, SameOnColumns, OfTenant;
    forall row {
      MovesIsInScope(db, tenant, row);
    }
    forall t | t in SplitTables(schema)
      ensures exists moved ::
        Moved(db, tenant, t, moved) && SameOnColumns(moved, Rows(target, t), schema.shared[t] * schema.tenant[t])
    {
      var moved := ScopedRows(db, tenant, t);
      assert Moved(db, tenant, t, moved);
      ProjectAllPairs(moved, CopiedColumns(schema, t));
    }
    SitesPairUp(db, tenant);
  }

  lemma SitesPairUp(db: Database, tenant: int)
    ensures exists sites ::
      SitesOf(db, tenant, sites) && SameOnColumns(sites, Mirrors(db, tenant), {"id", "domain", "data_retention_days"})
  {
    var sites := Select(Rows(db, Sites), s => SiteInScope(db, tenant, Cell(s, "id")));
    forall s ensures sites[s] == if "id" in s && OfTenant(db, tenant, s["id"]) then Rows(db, "sites")[s] else 0 {
      if s in Rows(db, Sites) && "id" in s { assert Cell(s, "id") == Val(s["id"]); }
    }
    assert SitesOf(db, tenant, sites);
    ProjectAllPairs(sites, MirrorColumns);
  }

  // ------------------------------------------------------------ conservation

  // Every row of the table that is read is in the control file or, with the value
  // of every column both schemas have, in the tenant file, and as often as it was.
  ghost predicate Conserved(schema: Schema, db: Database, tenant: int, control: Database, target: Database, t: Table) {
    exists moved: multiset<Row> ::
      && Completes(db, t, Rows(control, t), moved)
      && (if t in schema.shared && t in schema.tenant && t !in {"migrations", "sites"} && "site_id" in schema.tenant[t]
        then SameOnColumns(moved, Rows(target, t), schema.shared[t] * schema.tenant[t])
        else moved == multiset{})
  }

  ghost predicate Completes(db: Database, t: Table, kept: multiset<Row>, moved: multiset<Row>) {
    forall row {:trigger kept[row]} :: kept[row] + moved[row] == if Siteless(db, t, row) then 0 else Rows(db, t)[row]
  }

  // A table the two schemas disagree on: the shared one has site_id, the
  // tenant's has not. Its scoped rows are filtered out and copied nowhere.
  predicate Divergent(schema: Schema, t: Table) {
    Filtered(schema, t) && SiteId !in schema.tenant[t]
  }

  // The split conserves a table's rows exactly when the schemas agree on its
  // site_id, or it has no row in scope.
  lemma SplitConserves(schema: Schema, db: Database, tenant: int, control: Database, target: Database, t: Table)
    requires IsTenantPart(schema, db, tenant, target) && IsControlPart(schema, db, tenant, control)
    requires t in schema.shared && t !in {"migrations", "data_migrations", "hitkeep_migration_checkpoints"}
    requires t in schema.tenant && t != "sites" && "site_id" in schema.tenant[t] ==> "site_id" in schema.shared[t]
    ensures Conserved(schema, db, tenant, control, target, t) <==>
      || !(t in schema.tenant && t != "sites" && "site_id" in schema.shared[t] && "site_id" !in schema.tenant[t])
      || forall row :: row in Rows(db, t) ==> !Moves(db, tenant, row) || Siteless(db, t, row)
  {
    hide ScopedRows, OtherRows, Exported, Mirrors, SameOnColumns, Moves, Siteless, Completes;
    ScopeSplits(db, tenant, t);
    var scoped, all := ScopedRows(db, tenant, t), Exported(db, t);
    ReadRows(db, tenant, t);
    if t in SplitTables(schema) {
      assert Rows(control, t) + scoped == all;
      ProjectAllPairs(scoped, CopiedColumns(schema, t));
      Completed(db, t, Rows(control, t), scoped);
    } else {
      Completed(db, t, Rows(control, t), multiset{});
      if Divergent(schema, t) { OnlyDifference(Rows(control, t), scoped, all); }
    }
  }

  lemma Completed(db: Database, t: Table, kept: multiset<Row>, moved: multiset<Row>)
    ensures Completes(db, t, kept, moved) <==> kept + moved == Exported(db, t)
  {
    forall row ensures Exported(db, t)[row] == if Siteless(db, t, row) then 0 else Rows(db, t)[row] {
      MovesIsInScope(db, 0, row);
    }
    if Completes(db, t, kept, moved) {
      forall row ensures (kept + moved)[row] == Exported(db, t)[row] {
        assert kept[row] + moved[row] == Exported(db, t)[row];
      }
    }
    if kept + moved == Exported(db, t) {
      forall row ensures kept[row] + moved[row] == Exported(db, t)[row] {
        assert (kept + moved)[row] == Exported(db, t)[row];
      }
    }
  }

  lemma ReadRows(db: Database, tenant: int, t: Table)
    ensures forall row :: Exported(db, t)[row] == if Siteless(db, t, row) then 0 else Rows(db, t)[row]
    ensures ScopedRows(db, tenant, t) == multiset{} <==>
      forall row :: row in Rows(db, t) ==> !Moves(db, tenant, row) || Siteless(db, t, row)
  {
    hide Moves, InScope;
    forall row
      ensures Exported(db, t)[row] == if Siteless(db, t, row) then 0 else Rows(db, t)[row]
      ensures ScopedRows(db, tenant, t)[row]
           == if Moves(db, tenant, row) && !Siteless(db, t, row) then Rows(db, t)[row] else 0
    {
      MovesIsInScope(db, tenant, row);
    }
    if forall row :: row in Rows(db, t) ==> !Moves(db, tenant, row) || Siteless(db, t, row) {
      forall row ensures ScopedRows(db, tenant, t)[row] == 0 {
        assert row in Rows(db, t) || Rows(db, t)[row] == 0;
      }
    }
  }

  lemma ScopeSplits(db: Database, tenant: int, t: Table)
    ensures OtherRows(db, tenant, t) + ScopedRows(db, tenant, t) == Exported(db, t)
  {
    SelectSplits(Exported(db, t), row => InScope(db, tenant, row));
  }

  lemma OnlyDifference(kept: multiset<Row>, gone: multiset<Row>, all: multiset<Row>)
    requires kept + gone == all
    ensures kept + multiset{} == all <==> gone == multiset{}
  {
    if kept + multiset{} == all {
      forall row ensures gone[row] == 0 {
        assert (kept + gone)[row] == (kept + multiset{})[row];
      }
      assert gone == multiset{};
    }
  }

  // Both parts exist for every schema in which they can be copied.
  lemma PartsExist(schema: Schema, db: Database, tenant: int) returns (control: Database, target: Database)
    requires Sites !in SplitTables(schema)
    ensures IsControlPart(schema, db, tenant, control) && IsTenantPart(schema, db, tenant, target)
  {
    hide Exported, ScopedRows, OtherRows, Mirrors;
    control := map t | t in ControlTables(schema) ::
      if Filtered(schema, t) then OtherRows(db, tenant, t) else Exported(db, t);
    var tables := SplitTables(schema);
    var copied := map t | t in tables :: ProjectAll(ScopedRows(db, tenant, t), CopiedColumns(schema, t));
    target := copied[Sites := Mirrors(db, tenant)];
  }

  // An instance of the condition failing, whatever the table is called: the
  // shared notes have a site_id, the tenant's have none, and the one note belongs
  // to a site in scope.
  function NoteSchema(notes: Table): Schema {
    var shared := map[Sites := {"id"}, SiteTenants := {SiteId, "tenant_id"}, notes := {"id", SiteId}];
    Schema(shared, map[Sites := {"id"}, notes := {"id"}], shared, [], [])
  }

  function NoteDb(notes: Table): Database {
    map[Sites := multiset{map["id" := 7]}, notes := multiset{map["id" := 1, SiteId := 7]}]
  }

  ghost predicate Ordinary(notes: Table) {
    notes !in {Sites, SiteTenants, Migrations, DataMigrations, Checkpoints} && !Probed(notes)
  }

  lemma NoteInScope(notes: Table)
    requires Ordinary(notes)
    ensures ScopedRows(NoteDb(notes), 0, notes) != multiset{}
  {
    hide Probed;
    var note: Row, site: Row := map["id" := 1, SiteId := 7], map["id" := 7];
    var db := NoteDb(notes);
    assert |SiteId| == 7 && |"id"| == 2;
    assert |Sites| == 5 && |SiteTenants| == 12;
    assert site in Rows(db, Sites) && Cell(site, "id") == Val(7);
    assert Rows(db, SiteTenants) == multiset{};
    assert SiteInScope(db, 0, Val(7));
    assert Cell(note, SiteId) == Val(7);
    assert ScopedRows(db, 0, notes)[note] == 1;
  }

  lemma NoteSchemaDiverges(notes: Table)
    requires Ordinary(notes)
    ensures Usual(NoteSchema(notes)) && Divergent(NoteSchema(notes), notes)
    ensures notes in NoteSchema(notes).shared && notes !in {Migrations, DataMigrations, Checkpoints}
    ensures Sites !in SplitTables(NoteSchema(notes))
    ensures notes !in SplitTables(NoteSchema(notes))
  {
    hide Probed;
    assert |SiteId| == 7 && |"id"| == 2;
    assert |Sites| == 5 && |SiteTenants| == 12 && |Checkpoints| == 29;
  }

  lemma DivergentTableLoses(notes: Table) returns (control: Database, target: Database)
    requires Ordinary(notes)
    ensures Usual(NoteSchema(notes)) && Divergent(NoteSchema(notes), notes)
    ensures IsControlPart(NoteSchema(notes), NoteDb(notes), 0, control)
    ensures IsTenantPart(NoteSchema(notes), NoteDb(notes), 0, target)
    ensures !Conserved(NoteSchema(notes), NoteDb(notes), 0, control, target, notes)
  {
    hide NoteSchema, NoteDb, ScopedRows, Conserved, Moves, Siteless, IsControlPart, IsTenantPart;
    hide SplitTables, ControlTables;
    NoteInScope(notes);
    ReadRows(NoteDb(notes), 0, notes);
    NoteSchemaDiverges(notes);
    control, target := PartsExist(NoteSchema(notes), NoteDb(notes), 0);
    SplitConserves(NoteSchema(notes), NoteDb(notes), 0, control, target, notes);
  }

  // The rows that are in neither file are those of probed tables without a site.
  lemma OnlySitelessRowsGo(db: Database, t: Table)
    ensures !Probed(t) ==> Exported(db, t) == Rows(db, t)
    ensures Exported(db, t) <= Rows(db, t)
    ensures Probed(t) ==> Rows(db, t) == Exported(db, t) + Select(Rows(db, t), row => !HasLiveSite(db, row))
  {
    SelectSplits(Rows(db, t), row => HasLiveSite(db, row));
  }

  // --------------------------------------------------------- splitting again

  lemma ScopeSurvives(schema: Schema, db: Database, tenant: int, control: Database)
    requires Usual(schema) && IsControlPart(schema, db, tenant, control)
    ensures Rows(control, Sites) == Rows(db, Sites) && Rows(control, SiteTenants) == Rows(db, SiteTenants)
    ensures forall site :: SiteInScope(control, tenant, site) <==> SiteInScope(db, tenant, site)
    ensures forall row :: HasLiveSite(control, row) <==> HasLiveSite(db, row)
  {
    assert Sites[0] != Migrations[0] && Sites[0] != DataMigrations[0] && Sites[0] != Checkpoints[0];
    assert SiteTenants[0] != Migrations[0] && SiteTenants[0] != DataMigrations[0] && SiteTenants[0] != Checkpoints[0];
    assert Sites in ControlTables(schema) && SiteTenants in ControlTables(schema);
    assert !Probed(Sites) by { assert |Sites| == 5; }
    assert !Probed(SiteTenants) by { assert |SiteTenants| == 12; }
  }

  // Rewriting a control file again changes nothing, so a split that stops after
  // the swap can be taken up from the rewritten file.
  lemma RewritingAgain(schema: Schema, db: Database, tenant: int, control: Database, again: Database)
    requires Usual(schema)
    requires IsControlPart(schema, db, tenant, control) && IsControlPart(schema, control, tenant, again)
    ensures IsControlPart(schema, db, tenant, again)
  {
    ScopeSurvives(schema, db, tenant, control);
    hide SiteInScope, HasLiveSite;
    forall t | t in ControlTables(schema)
      ensures Rows(again, t) == if Filtered(schema, t) then OtherRows(db, tenant, t) else Exported(db, t)
    {
      ExportedAgain(db, control, tenant, t);
    }
  }

  // From a file that has what was exported, or exported and out of scope, the
  // same is exported.
  lemma ExportedAgain(db: Database, control: Database, tenant: int, t: Table)
    requires forall site :: SiteInScope(control, tenant, site) <==> SiteInScope(db, tenant, site)
    requires forall row :: HasLiveSite(control, row) <==> HasLiveSite(db, row)
    ensures Rows(control, t) == Exported(db, t) ==> Exported(control, t) == Exported(db, t)
    ensures Rows(control, t) == OtherRows(db, tenant, t) ==>
      OtherRows(control, tenant, t) == OtherRows(db, tenant, t)
  {
    hide SiteInScope, HasLiveSite;
  }

  // The verification of the rewritten file finds no scoped row.
  ghost predicate ScopedRowsGone(schema: Schema, db: Database, tenant: int) {
    forall t, row {:trigger Rows(db, t)[row]} ::
      t in schema.shared && t !in {"migrations", "data_migrations", "hitkeep_migration_checkpoints"}
      && t in schema.tenant && t != "sites" && "site_id" in schema.shared[t] && row in Rows(db, t) ==>
        !Moves(db, tenant, row)
  }

  lemma VerificationPasses(schema: Schema, db: Database, tenant: int, control: Database)
    requires Usual(schema) && IsControlPart(schema, db, tenant, control)
    ensures ScopedRowsGone(schema, control, tenant)
  {
    hide Moves;
    ScopeSurvives(schema, db, tenant, control);
    forall t, row | Filtered(schema, t) && t in ControlTables(schema) && row in Rows(control, t)
      ensures !Moves(control, tenant, row)
    {
      MovesIsInScope(control, tenant, row);
      assert OtherRows(db, tenant, t)[row] > 0;
    }
  }

  // ------------------------------------------------------------- the copying

  method SelectRows(bag: multiset<Row>, keep: Row -> bool) returns (selected: multiset<Row>)
    ensures selected == Select(bag, keep)
  {
    var rest := bag;
    selected := multiset{};
    while rest != multiset{}
      invariant forall row :: selected[row] + (if keep(row) then rest[row] else 0) == if keep(row) then bag[row] else 0
      decreases |rest|
    {
      var row :| row in rest;
      if keep(row) {
        selected := selected + multiset{row};
      }
      rest := rest - multiset{row};
    }
    assert forall row :: selected[row] == Select(bag, keep)[row];
  }

  // COPY (SELECT ... FROM the export relation)
  method Export(db: Database, t: Table) returns (rows: multiset<Row>)
    ensures rows == Exported(db, t)
  {
    rows := Rows(db, t);
    if Probed(t) {
      rows := SelectRows(rows, row => HasLiveSite(db, row));
    }
  }

  // prepareDefaultTenantFile, from the mirrors to the last table, parents first.
  // An order that does not exist or a table without a common site_id ends it.
  method BuildTenant(schema: Schema, db: Database, tenant: int) returns (ok: bool, target: Database)
    ensures ok ==> IsTenantPart(schema, db, tenant, target) && TenantRows(schema, db, tenant, target)
    ensures ok <==>
      && Acyclic(SplitTables(schema), schema.tenantEdges)
      && forall t :: t in schema.shared && t in schema.tenant && t !in {"migrations", "sites"} ==>
           "site_id" in schema.tenant[t] ==> "site_id" in schema.shared[t]
  {
    hide IsTenantPart, TenantRows, Acyclic, Mirrors, Exported;
    target := map[];
    var ordered := OrderChildrenFirst(SplitTables(schema), schema.tenantEdges);
    if ordered.CycleAmong? {
      return false, target;
    }
    var order := ordered.order;
    var mirrors := ExportMirrors(db, tenant);
    target := target[Sites := mirrors];
    assert !(Sites in SplitTables(schema)) && Elems(order) == SplitTables(schema);
    var i := |order|;
    while i > 0
      invariant 0 <= i <= |order|
      invariant Sites in target && target[Sites] == Mirrors(db, tenant)
      invariant forall t :: t in Elems(order[i..]) ==>
        t in SplitTables(schema) && SiteId in schema.shared[t]
        && Rows(target, t) == ProjectAll(ScopedRows(db, tenant, t), CopiedColumns(schema, t))
    {
      i := i - 1;
      var t := order[i];
      assert order[i..] == [t] + order[i + 1..];
      assert t in Elems(order);
      if SiteId !in CopiedColumns(schema, t) {
        return false, target;
      }
      var rows := CopyTable(schema, db, tenant, t);
      target := target[t := rows];
    }
    assert order[0..] == order;
    assert IsTenantPart(schema, db, tenant, target) by { TenantPartIs(schema, db, tenant, target); }
    TenantPartMeans(schema, db, tenant, target);
    ok := true;
  }

  lemma TenantPartIs(schema: Schema, db: Database, tenant: int, target: Database)
    requires Rows(target, Sites) == Mirrors(db, tenant)
    requires forall t :: t in SplitTables(schema) ==>
      Rows(target, t) == ProjectAll(ScopedRows(db, tenant, t), CopiedColumns(schema, t))
    ensures IsTenantPart(schema, db, tenant, target)
  {
  }

  method ExportMirrors(db: Database, tenant: int) returns (rows: multiset<Row>)
    ensures rows == Mirrors(db, tenant)
  {
    rows := SelectRows(Rows(db, Sites), s => SiteInScope(db, tenant, Cell(s, "id")));
    rows := SelectColumns(rows, MirrorColumns);
  }

  // INSERT INTO split_target SELECT ... JOIN split_scope
  method CopyTable(schema: Schema, db: Database, tenant: int, t: Table) returns (rows: multiset<Row>)
    requires t in schema.shared && t in schema.tenant
    ensures rows == ProjectAll(ScopedRows(db, tenant, t), CopiedColumns(schema, t))
  {
    rows := Export(db, t);
    rows := SelectRows(rows, row => InScope(db, tenant, row));
    rows := SelectColumns(rows, CopiedColumns(schema, t));
  }

  // The rebuilt file has the shared tables, with the same columns.
  predicate RebuildsTable(schema: Schema, t: Table)
    requires t in schema.shared
  {
    t in schema.rebuilt && schema.rebuilt[t] == schema.shared[t]
  }

  // rewriteSplitControlWorkFile: the cleared target is filled parents first. A
  // missing table, an order that does not exist or diverging columns end it.
  method BuildControl(schema: Schema, db: Database, tenant: int) returns (ok: bool, target: Database)
    ensures ok ==> IsControlPart(schema, db, tenant, target) && ControlRows(schema, db, tenant, target)
    ensures var tables := schema.shared.Keys - {"migrations", "data_migrations", "hitkeep_migration_checkpoints"};
            ok <==>
              && (forall t :: t in tables ==> t in schema.rebuilt && schema.rebuilt[t] == schema.shared[t])
              && Acyclic(tables, schema.sharedEdges)
  {
    hide Acyclic, Exported, InScope, ControlRows;
    target := map[];
    if exists t :: t in ControlTables(schema) && t !in schema.rebuilt {
      return false, target;
    }
    var ordered := OrderChildrenFirst(ControlTables(schema), schema.sharedEdges);
    if ordered.CycleAmong? {
      return false, target;
    }
    var order := ordered.order;
    assert Elems(order) == ControlTables(schema);
    var i := |order|;
    while i > 0
      invariant 0 <= i <= |order|
      invariant forall t :: t in Elems(order[i..]) ==>
        t in schema.shared && RebuildsTable(schema, t)
        && Rows(target, t) == if Filtered(schema, t) then OtherRows(db, tenant, t) else Exported(db, t)
    {
      i := i - 1;
      var t := order[i];
      assert order[i..] == [t] + order[i + 1..];
      assert t in Elems(order);
      var rows := Export(db, t);
      if Filtered(schema, t) {
        rows := SelectRows(rows, row => !InScope(db, tenant, row));
      }
      if !RebuildsTable(schema, t) {
        return false, target;
      }
      target := target[t := rows];
    }
    assert order[0..] == order;
    ControlPartMeans(schema, db, tenant, target);
    ok := true;
  }

  // verifyDefaultScopedRowsEmpty
  method VerifyScopedRowsEmpty(schema: Schema, db: Database, tenant: int) returns (ok: bool)
    ensures ok <==> ScopedRowsGone(schema, db, tenant)
  {
    hide InScope, Rows, Moves;
    var tables := Range(ControlTables(schema));
    for i := 0 to |tables|
      invariant forall t, row :: t in Elems(tables[..i]) && Filtered(schema, t) && row in Rows(db, t) ==>
        !InScope(db, tenant, row)
    {
      var t := tables[i];
      assert tables[..i + 1] == tables[..i] + [t];
      if Filtered(schema, t) && exists row :: row in Rows(db, t) && InScope(db, tenant, row) {
        assert t in Elems(tables);
        var row :| row in Rows(db, t) && InScope(db, tenant, row);
        MovesIsInScope(db, tenant, row);
        return false;
      }
    }
    assert tables[..|tables|] == tables;
    forall row {
      MovesIsInScope(db, tenant, row);
    }
    ok := true;
  }
}
