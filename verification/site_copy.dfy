// listScopedCopyTables of database/fk_cleanup.go and its use in
// copySiteAnalyticsBetweenStores of database/tenant_store_manager.go, with
// deleteSiteAnalyticsOnly of database/site_cleanup.go: the rows of one site move
// to another store, table by table.
module SiteCopy {
  import opened ForeignKeyOrder
  import opened Relational
  import ScopedDelete

  type Catalog = ScopedDelete.Catalog

  datatype CopyError = UnsafeIdentifier | NotCopied(table: Table, referenced: Table) | ForeignKeyCycle

  datatype CopyPlan = Plan(tables: seq<Table>) | Refused(error: CopyError)

  const Tenants: Table := "tenants"

  function ScopedTables(c: Catalog, scopeColumn: Column): set<Table> {
    ScopedDelete.FirstScopeColumns(c.columns, [scopeColumn]).Keys
  }

  function Copied(source: Catalog, destination: Catalog, scopeColumn: Column, rootTable: Table): set<Table> {
    var scoped := ScopedTables(source, scopeColumn) * ScopedTables(destination, scopeColumn);
    (scoped * source.tables * destination.tables) - {rootTable}
  }

  function CopyEdges(destination: Catalog, extraEdges: seq<FkEdge>): seq<FkEdge> {
    destination.foreignKeys + ScopedDelete.Existing(destination.tables, extraEdges)
  }

  // A copied table references one that is neither copied, nor the mirrored
  // root, nor the tenants table that a tenant store leaves out.
  predicate Dangling(source: Catalog, members: set<Table>, rootTable: Table, e: FkEdge) {
    && e.table in members && e.referencedTable != rootTable && e.referencedTable !in members
    && !(e.referencedTable == Tenants && Tenants !in source.tables)
  }

  ghost predicate Named(source: Catalog, scopeColumn: Column, rootTable: Table, extraEdges: seq<FkEdge>) {
    && (forall t :: t in ScopedTables(source, scopeColumn) && t != rootTable ==> ScopedDelete.IsSafeIdentifier(t))
    && (forall e :: e in extraEdges ==> ScopedDelete.SafeEdge(e))
  }

  ghost predicate HasColumn(c: Catalog, t: Table, column: Column) {
    exists i :: 0 <= i < |c.columns| && c.columns[i] == (t, column)
  }

  // The tables that are copied: base tables of both databases, with the scope
  // column in both, other than the root
  ghost predicate Copies(source: Catalog, destination: Catalog, scopeColumn: Column, rootTable: Table, t: Table) {
    && t in source.tables && t in destination.tables && t != rootTable
    && HasColumn(source, t, scopeColumn) && HasColumn(destination, t, scopeColumn)
  }

  // The relationships of the destination
  ghost predicate Relates(destination: Catalog, extraEdges: seq<FkEdge>, e: FkEdge) {
    || e in destination.foreignKeys
    || (e in extraEdges && e.table in destination.tables && e.referencedTable in destination.tables)
  }

  // The table references one that is neither copied, nor the root, nor a tenants
  // table that the source lacks.
  ghost predicate Dangles(
    source: Catalog, destination: Catalog, scopeColumn: Column, rootTable: Table, e: FkEdge)
  {
    && Copies(source, destination, scopeColumn, rootTable, e.table)
    && !Copies(source, destination, scopeColumn, rootTable, e.referencedTable)
    && e.referencedTable != rootTable
    && (e.referencedTable == "tenants" ==> "tenants" in source.tables)
  }

  lemma CopiedMeans(source: Catalog, destination: Catalog, scopeColumn: Column, rootTable: Table, t: Table)
    ensures t in ScopedTables(source, scopeColumn) <==> HasColumn(source, t, scopeColumn)
    ensures t in Copied(source, destination, scopeColumn, rootTable) <==>
      Copies(source, destination, scopeColumn, rootTable, t)
  {
    ScopedDelete.FirstScopeColumnsMean(source.columns, [scopeColumn]);
    ScopedDelete.FirstScopeColumnsMean(destination.columns, [scopeColumn]);
  }

  lemma DanglingMeans(
    source: Catalog, destination: Catalog, scopeColumn: Column, rootTable: Table, extraEdges: seq<FkEdge>, e: FkEdge)
    ensures e in CopyEdges(destination, extraEdges) <==> Relates(destination, extraEdges, e)
    ensures Dangling(source, Copied(source, destination, scopeColumn, rootTable), rootTable, e) <==>
      Dangles(source, destination, scopeColumn, rootTable, e)
  {
    hide Copied, Copies;
    ScopedDelete.ExistingMeans(destination.tables, extraEdges);
    CopiedMeans(source, destination, scopeColumn, rootTable, e.table);
    CopiedMeans(source, destination, scopeColumn, rootTable, e.referencedTable);
  }

  // listScopedCopyTables: a plan exactly when every name is safe, no copied row
  // could land without its parents, and there is an order.
  method ListScopedCopyTables(
    source: Catalog, destination: Catalog, scopeColumn: Column, rootTable: Table, extraEdges: seq<FkEdge>)
    returns (r: CopyPlan)
    ensures var members := Copied(source, destination, scopeColumn, rootTable);
            var edges := CopyEdges(destination, extraEdges);
            && (r.Plan? <==>
                 && Named(source, scopeColumn, rootTable, extraEdges)
                 && (forall e :: e in edges ==> !Dangling(source, members, rootTable, e))
                 && Acyclic(members, edges))
            && (r.Plan? ==> ParentsFirst(members, edges, r.tables))
            && (r.Refused? && r.error.NotCopied? ==>
                 exists e :: e in edges && Dangling(source, members, rootTable, e)
                   && e.table == r.error.table && e.referencedTable == r.error.referenced)
    ensures r.Plan? ==> CopiesAll(source, destination, scopeColumn, rootTable, extraEdges, r.tables)
    ensures r.Refused? && r.error.NotCopied? ==>
      exists e :: Relates(destination, extraEdges, e) && Dangles(source, destination, scopeColumn, rootTable, e)
        && e.table == r.error.table && e.referencedTable == r.error.referenced
  {
    hide Relates, Dangles, CopiesAll, Dangling, Acyclic, ParentsFirst;
    var sourceScoped := ScopedDelete.ListScopedTables(source, [scopeColumn]);
    var destinationScoped := ScopedDelete.ListScopedTables(destination, [scopeColumn]);
    var members: set<Table> := {};
    var scoped := Range(sourceScoped.Keys);
    for i := 0 to |scoped|
      invariant forall t :: t in Elems(scoped[..i]) && t != rootTable ==> ScopedDelete.IsSafeIdentifier(t)
      invariant members
        == (Elems(scoped[..i]) * destinationScoped.Keys * source.tables * destination.tables) - {rootTable}
    {
      var t := scoped[i];
      assert scoped[..i + 1] == scoped[..i] + [t];
      if t == rootTable {
        continue;
      }
      if !ScopedDelete.IsSafeIdentifier(t) {
        assert t in Elems(scoped);
        return Refused(UnsafeIdentifier);
      }
      if t in source.tables && t in destinationScoped && t in destination.tables {
        members := members + {t};
      }
    }
    assert scoped[..|scoped|] == scoped;
    assert members == Copied(source, destination, scopeColumn, rootTable);

    var appended, at := ScopedDelete.AppendExistingExtraEdges(destination.tables, destination.foreignKeys, extraEdges);
    if appended.Err? {
      return Refused(UnsafeIdentifier);
    }
    var edges := appended.value;
    for i := 0 to |edges|
      invariant forall j :: 0 <= j < i ==> !Dangling(source, members, rootTable, edges[j])
    {
      if Dangling(source, members, rootTable, edges[i]) {
        DanglingMeans(source, destination, scopeColumn, rootTable, extraEdges, edges[i]);
        return Refused(NotCopied(edges[i].table, edges[i].referencedTable));
      }
    }
    var ordered := OrderChildrenFirst(members, edges);
    if ordered.CycleAmong? {
      return Refused(ForeignKeyCycle);
    }
    BackwardIsParentsFirst(members, edges, ordered.order);
    PlanCopiesAll(source, destination, scopeColumn, rootTable, extraEdges, Backward(ordered.order));
    return Plan(Backward(ordered.order));
  }

  // What a plan promises: the copied tables, each once, parents before children,
  // and none of them dangles.
  ghost predicate CopiesAll(
    source: Catalog, destination: Catalog, scopeColumn: Column, rootTable: Table, extraEdges: seq<FkEdge>,
    tables: seq<Table>)
  {
    && (forall t :: t in tables <==> Copies(source, destination, scopeColumn, rootTable, t))
    && (forall i, j :: 0 <= i < j < |tables| ==> tables[i] != tables[j])
    && (forall e :: Relates(destination, extraEdges, e) ==> !Dangles(source, destination, scopeColumn, rootTable, e))
    && forall e, i, j :: Relates(destination, extraEdges, e) && 0 <= i < |tables| && 0 <= j < |tables| ==>
         tables[i] == e.table && tables[j] == e.referencedTable && i != j ==> j < i
  }

  lemma PlanCopiesAll(
    source: Catalog, destination: Catalog, scopeColumn: Column, rootTable: Table, extraEdges: seq<FkEdge>,
    tables: seq<Table>)
    requires var members := Copied(source, destination, scopeColumn, rootTable);
             var edges := CopyEdges(destination, extraEdges);
             && ParentsFirst(members, edges, tables)
             && forall e :: e in edges ==> !Dangling(source, members, rootTable, e)
    ensures CopiesAll(source, destination, scopeColumn, rootTable, extraEdges, tables)
  {
    hide Copies, Copied, Relates, Dangles, CopyEdges, Dangling;
    var members := Copied(source, destination, scopeColumn, rootTable);
    var edges := CopyEdges(destination, extraEdges);
    forall t ensures t in tables <==> Copies(source, destination, scopeColumn, rootTable, t) {
      CopiedMeans(source, destination, scopeColumn, rootTable, t);
      assert t in Elems(tables) <==> t in members;
    }
    forall e | Relates(destination, extraEdges, e)
      ensures e in edges && !Dangles(source, destination, scopeColumn, rootTable, e)
    {
      DanglingMeans(source, destination, scopeColumn, rootTable, extraEdges, e);
    }
    forall e, i, j | Relates(destination, extraEdges, e) && 0 <= i < |tables| && 0 <= j < |tables|
        && tables[i] == e.table && tables[j] == e.referencedTable && i != j
      ensures j < i
    {
      assert tables[i] in Elems(tables) && tables[j] in Elems(tables) && tables[i] != tables[j];
      assert Relevant(members, e);
      assert ChildOf(members, edges, tables[i], tables[j]);
    }
  }

  // ---------------------------------------------------------------- the copy

  predicate OfSite(row: Row, column: Column, site: int) {
    Cell(row, column) == Val(site)
  }

  ghost function SiteRows(db: Database, t: Table, column: Column, site: int): multiset<Row> {
    Select(Rows(db, t), row => OfSite(row, column, site))
  }

  ghost function OtherRows(db: Database, t: Table, column: Column, site: int): multiset<Row> {
    Select(Rows(db, t), row => !OfSite(row, column, site))
  }

  // What is copied: the scope column and the site.
  datatype Transfer = Transfer(column: Column, site: int)

  // The done tables hold the site's source rows beside the rows of other sites;
  // the current one holds some of them.
  ghost predicate Stage(
    start: Database, source: Database, now: Database, x: Transfer, done: set<Table>, current: set<Table>,
    part: multiset<Row>)
  {
    forall t {:trigger Rows(now, t)} :: Rows(now, t) ==
      if t in done then OtherRows(start, t, x.column, x.site) + SiteRows(source, t, x.column, x.site)
      else if t in current then OtherRows(start, t, x.column, x.site) + part
      else Rows(start, t)
  }

  // Row by row: in the tables given, the rows of the site are those of the source;
  // every other row is as it was.
  ghost predicate SiteReplaced(
    before: Database, source: Database, after: Database, x: Transfer, tables: set<Table>)
  {
    forall t, row {:trigger Rows(after, t)[row]} ::
      Rows(after, t)[row] ==
        if t in tables && x.column in row && row[x.column] == x.site then Rows(source, t)[row]
        else Rows(before, t)[row]
  }

  lemma StageReplaces(before: Database, source: Database, after: Database, x: Transfer, tables: set<Table>)
    requires Stage(before, source, after, x, tables, {}, multiset{})
    ensures SiteReplaced(before, source, after, x, tables)
  {
    forall t, row | t in tables
      ensures Rows(after, t)[row]
        == if x.column in row && row[x.column] == x.site then Rows(source, t)[row] else Rows(before, t)[row]
    {
      assert Rows(after, t) == OtherRows(before, t, x.column, x.site) + SiteRows(source, t, x.column, x.site);
      assert OfSite(row, x.column, x.site) <==> x.column in row && row[x.column] == x.site;
      assert OtherRows(before, t, x.column, x.site)[row]
        == if OfSite(row, x.column, x.site) then 0 else Rows(before, t)[row];
    }
  }

  // The source rows of the site keep to themselves: what they reference in a
  // copied table belongs to the site too.
  ghost predicate KeepsToSite(source: Database, e: FkEdge, x: Transfer) {
    forall row :: row in Rows(source, e.table) && OfSite(row, x.column, x.site) && Cell(row, e.column).Val? ==>
      exists parent :: parent in Rows(source, e.referencedTable)
        && Matches(Cell(row, e.column), Cell(parent, e.referencedColumn)) && OfSite(parent, x.column, x.site)
  }

  // What the site's rows reference outside the copied tables is in the destination.
  ghost predicate Mirrored(start: Database, source: Database, e: FkEdge, x: Transfer) {
    forall row {:trigger HasParent(start, e, row)} ::
      row in Rows(source, e.table) && OfSite(row, x.column, x.site) && Cell(row, e.column).Val? ==>
        HasParent(start, e, row)
  }

  ghost predicate Transferable(
    start: Database, source: Database, members: set<Table>, edges: seq<FkEdge>, x: Transfer)
  {
    forall e :: e in edges ==>
      && Intact(start, e)
      && (e.table in members && e.referencedTable in members ==>
          e.table != e.referencedTable && KeepsToSite(source, e, x))
      && (e.table in members && e.referencedTable !in members ==> Mirrored(start, source, e, x))
  }

  predicate HasOtherParent(start: Database, e: FkEdge, x: Transfer, row: Row) {
    exists parent :: parent in Rows(start, e.referencedTable)
      && Matches(Cell(row, e.column), Cell(parent, e.referencedColumn)) && !OfSite(parent, x.column, x.site)
  }

  // No row of the destination lives off the site's old rows alone.
  ghost predicate Independent(start: Database, members: set<Table>, edges: seq<FkEdge>, x: Transfer) {
    forall e, row {:trigger HasOtherParent(start, e, x, row)} ::
      e in edges && e.referencedTable in members && row in Rows(start, e.table) && Cell(row, e.column).Val? ==>
        HasOtherParent(start, e, x, row)
  }

  ghost predicate AllIntact(db: Database, edges: seq<FkEdge>) {
    forall e :: e in edges ==> Intact(db, e)
  }

  lemma OldRowKeepsParent(
    start: Database, source: Database, now: Database, members: set<Table>, edges: seq<FkEdge>, x: Transfer,
    done: set<Table>, current: set<Table>, part: multiset<Row>, e: FkEdge, row: Row)
    requires Stage(start, source, now, x, done, current, part) && done + current <= members
    requires Transferable(start, source, members, edges, x) && Independent(start, members, edges, x)
    requires e in edges && row in Rows(start, e.table) && Cell(row, e.column).Val?
    ensures HasParent(now, e, row)
  {
    var p := e.referencedTable;
    if p in done + current {
      assert HasOtherParent(start, e, x, row);
      var parent :| parent in Rows(start, p)
        && Matches(Cell(row, e.column), Cell(parent, e.referencedColumn)) && !OfSite(parent, x.column, x.site);
      assert OtherRows(start, p, x.column, x.site)[parent] > 0;
      assert parent in Rows(now, p);
    } else {
      assert HasParent(start, e, row);
      assert Rows(now, p) == Rows(start, p);
    }
  }

  lemma NewRowHasParent(
    start: Database, source: Database, now: Database, members: set<Table>, edges: seq<FkEdge>, x: Transfer,
    done: set<Table>, current: set<Table>, part: multiset<Row>, e: FkEdge, row: Row)
    requires Stage(start, source, now, x, done, current, part) && done + current <= members
    requires Transferable(start, source, members, edges, x)
    requires e in edges && e.table in done + current
    requires e.referencedTable in members ==> e.referencedTable in done
    requires row in Rows(source, e.table) && OfSite(row, x.column, x.site) && Cell(row, e.column).Val?
    ensures HasParent(now, e, row)
  {
    var p := e.referencedTable;
    if p in members {
      var parent :| parent in Rows(source, p)
        && Matches(Cell(row, e.column), Cell(parent, e.referencedColumn)) && OfSite(parent, x.column, x.site);
      assert SiteRows(source, p, x.column, x.site)[parent] > 0;
      assert parent in Rows(now, p);
    } else {
      assert HasParent(start, e, row);
      assert Rows(now, p) == Rows(start, p);
    }
  }

  lemma StageIsIntact(
    start: Database, source: Database, now: Database, members: set<Table>, edges: seq<FkEdge>, x: Transfer,
    done: set<Table>, current: set<Table>, part: multiset<Row>)
    requires Stage(start, source, now, x, done, current, part) && done + current <= members
    requires forall t :: t in current ==> part <= SiteRows(source, t, x.column, x.site)
    requires forall e :: e in edges && e.table in done + current && e.referencedTable in members ==>
      e.referencedTable in done
    requires Transferable(start, source, members, edges, x) && Independent(start, members, edges, x)
    ensures AllIntact(now, edges)
  {
    forall e | e in edges ensures Intact(now, e) {
      forall row | row in Rows(now, e.table) && Cell(row, e.column).Val? ensures HasParent(now, e, row) {
        if row in Rows(start, e.table) {
          OldRowKeepsParent(start, source, now, members, edges, x, done, current, part, e, row);
        } else {
          NewRowIsOfSite(start, source, now, x, done, current, part, e.table, row);
          NewRowHasParent(start, source, now, members, edges, x, done, current, part, e, row);
        }
      }
    }
  }

  lemma NewRowIsOfSite(
    start: Database, source: Database, now: Database, x: Transfer, done: set<Table>, current: set<Table>,
    part: multiset<Row>,
    t: Table, row: Row)
    requires Stage(start, source, now, x, done, current, part)
    requires t in current ==> part <= SiteRows(source, t, x.column, x.site)
    requires row in Rows(now, t) && row !in Rows(start, t)
    ensures t in done + current && row in Rows(source, t) && OfSite(row, x.column, x.site)
  {
    assert OtherRows(start, t, x.column, x.site)[row] == 0;
    assert SiteRows(source, t, x.column, x.site)[row] > 0;
  }

  // Clearing the table p when a row lives off its site rows breaks that key.
  lemma ClearingBreaks(
    start: Database, source: Database, now: Database, x: Transfer, done: set<Table>, p: Table, e: FkEdge, row: Row)
    requires Stage(start, source, now, x, done, {p}, multiset{}) && p !in done
    requires e.referencedTable == p && e.table !in done && e.table != p
    requires row in Rows(start, e.table) && Cell(row, e.column).Val? && !HasOtherParent(start, e, x, row)
    ensures !Intact(now, e)
  {
    assert row in Rows(now, e.table);
    forall parent | parent in Rows(now, p) ensures parent in Rows(start, p) && !OfSite(parent, x.column, x.site) {
      assert OtherRows(start, p, x.column, x.site)[parent] > 0;
    }
    assert !HasParent(now, e, row);
  }

  lemma StageStarts(start: Database, source: Database, x: Transfer)
    ensures Stage(start, source, start, x, {}, {}, multiset{})
  {
  }

  lemma SameOthers(a: Database, b: Database, t: Table, x: Transfer)
    requires Rows(a, t) == Rows(b, t)
    ensures OtherRows(a, t, x.column, x.site) == OtherRows(b, t, x.column, x.site) + multiset{}
  {
  }

  // Writing the current table changes what it holds and nothing else.
  lemma StageWrites(
    start: Database, source: Database, now: Database, x: Transfer, done: set<Table>, t: Table, old_: set<Table>,
    part: multiset<Row>, bag: multiset<Row>, part': multiset<Row>)
    requires Stage(start, source, now, x, done, old_, part) && t !in done && old_ <= {t}
    requires bag == OtherRows(start, t, x.column, x.site) + part'
    ensures Stage(start, source, now[t := bag], x, done, {t}, part')
  {
    hide OtherRows, SiteRows;
    var now' := now[t := bag];
    forall u
      ensures Rows(now', u) ==
        if u in done then OtherRows(start, u, x.column, x.site) + SiteRows(source, u, x.column, x.site)
        else if u in {t} then OtherRows(start, u, x.column, x.site) + part'
        else Rows(start, u)
    {
      assert u != t ==> Rows(now', u) == Rows(now, u);
    }
  }

  lemma StageClears(start: Database, source: Database, now: Database, x: Transfer, done: set<Table>, t: Table)
    requires Stage(start, source, now, x, done, {}, multiset{}) && t !in done
    ensures Stage(start, source, now[t := OtherRows(now, t, x.column, x.site)], x, done, {t}, multiset{})
  {
    assert Rows(now, t) == Rows(start, t);
    SameOthers(now, start, t, x);
    StageWrites(start, source, now, x, done, t, {}, multiset{}, OtherRows(now, t, x.column, x.site), multiset{});
  }

  lemma StageInserts(
    start: Database, source: Database, now: Database, x: Transfer, done: set<Table>, t: Table, part: multiset<Row>,
    row: Row)
    requires Stage(start, source, now, x, done, {t}, part) && t !in done
    ensures Stage(start, source, now[t := Rows(now, t) + multiset{row}], x, done, {t}, part + multiset{row})
  {
    hide OtherRows, SiteRows;
    assert Rows(now, t) == OtherRows(start, t, x.column, x.site) + part;
    StageWrites(start, source, now, x, done, t, {t}, part, Rows(now, t) + multiset{row}, part + multiset{row});
  }

  lemma StageEnds(
    start: Database, source: Database, now: Database, x: Transfer, done: set<Table>, t: Table, part: multiset<Row>)
    requires Stage(start, source, now, x, done, {t}, part) && t !in done
    requires part == SiteRows(source, t, x.column, x.site)
    ensures Stage(start, source, now, x, done + {t}, {}, multiset{})
  {
  }

  // Every state in the history from n on has all foreign keys.
  ghost predicate IntactFrom(history: seq<Database>, n: nat, edges: seq<FkEdge>) {
    forall k :: n <= k < |history| ==> AllIntact(history[k], edges)
  }

  // Some state in the history from n on has the first i tables done and the
  // next one cleared.
  ghost predicate ClearedAt(
    start: Database, source: Database, history: seq<Database>, n: nat, x: Transfer, order: seq<Table>, i: nat)
    requires i < |order|
  {
    exists k :: n <= k < |history| && Stage(start, source, history[k], x, Elems(order[..i]), {order[i]}, multiset{})
  }

  lemma UpToIsClosed(members: set<Table>, edges: seq<FkEdge>, order: seq<Table>, i: nat)
    requires ParentsFirst(members, edges, order) && i < |order|
    requires forall e :: e in edges && e.table in members && e.referencedTable in members ==>
      e.table != e.referencedTable
    ensures Elems(order[..i]) + {order[i]} <= members && order[i] !in Elems(order[..i])
    ensures Elems(order[..i + 1]) == Elems(order[..i]) + {order[i]}
    ensures forall e :: e in edges && e.table in Elems(order[..i]) + {order[i]} && e.referencedTable in members ==>
      e.referencedTable in Elems(order[..i])
    ensures forall e :: e in edges && e.referencedTable == order[i] ==> e.table !in Elems(order[..i])
  {
    SplitAt(order, i);
    forall k | 0 <= k < |order| ensures order[k] in members {
      assert order[k] in Elems(order);
    }
    forall e | e in edges && e.table in Elems(order[..i]) + {order[i]} && e.referencedTable in members
      ensures e.referencedTable in Elems(order[..i])
    {
      var c :| 0 <= c <= i && order[c] == e.table;
      var p :| 0 <= p < |order| && order[p] == e.referencedTable;
      assert Relevant(members, e) && ChildOf(members, edges, order[c], order[p]);
      assert order[..i][p] == e.referencedTable;
    }
  }

  class AnalyticsStore {
    var rows: Database
    ghost var history: seq<Database>

    constructor (rows: Database)
      ensures this.rows == rows && history == [rows]
    {
      this.rows, history := rows, [rows];
    }

    method Write(t: Table, bag: multiset<Row>)
      modifies this
      ensures rows == old(rows)[t := bag] && history == old(history) + [rows]
    {
      rows := rows[t := bag];
      history := history + [rows];
    }

    // copySiteAnalyticsTable: the site's rows are replaced, one INSERT a row.
    method CopyTable(
      source: Database, ghost start: Database, ghost members: set<Table>, ghost edges: seq<FkEdge>,
      ghost order: seq<Table>,
      i: nat, t: Table, x: Transfer)
      requires i < |order| && t == order[i] && ParentsFirst(members, edges, order)
      requires Stage(start, source, rows, x, Elems(order[..i]), {}, multiset{})
      requires Transferable(start, source, members, edges, x)
      modifies this
      ensures Stage(start, source, rows, x, Elems(order[..i + 1]), {}, multiset{})
      ensures old(history) <= history
      ensures ClearedAt(start, source, history, |old(history)|, x, order, i)
      ensures Independent(start, members, edges, x) ==> IntactFrom(history, |old(history)|, edges)
    {
      hide Transferable, Independent, ParentsFirst, IntactFrom, Stage;
      ghost var done := Elems(order[..i]);
      assert NoSelfEdges(members, edges) by { TransferableHasNoSelfEdges(start, source, members, edges, x); }
      UpToIsClosed(members, edges, order, i);
      ClearTable(source, start, members, edges, done, t, x);
      ghost var cleared := history;
      InsertRows(source, start, members, edges, done, t, x);
      assert history[|old(history)|] == cleared[|old(history)|];
      assert ClearedAt(start, source, history, |old(history)|, x, order, i);
      if Independent(start, members, edges, x) { IntactJoins(cleared, history, |old(history)|, edges); }
    }

    // DELETE FROM the table WHERE site_id = ?
    method ClearTable(
      source: Database, ghost start: Database, ghost members: set<Table>, ghost edges: seq<FkEdge>,
      ghost done: set<Table>,
      t: Table, x: Transfer)
      requires Stage(start, source, rows, x, done, {}, multiset{}) && t !in done && done + {t} <= members
      requires forall e :: e in edges && e.table in done + {t} && e.referencedTable in members ==>
        e.referencedTable in done
      requires Transferable(start, source, members, edges, x)
      modifies this
      ensures history == old(history) + [rows] && Stage(start, source, rows, x, done, {t}, multiset{})
      ensures Independent(start, members, edges, x) ==> IntactFrom(history, |old(history)|, edges)
    {
      hide Transferable, Independent, AllIntact, OtherRows, SiteRows, Rows;
      var kept := SelectOthers(rows, t, x);
      StageClears(start, source, rows, x, done, t);
      Write(t, kept);
      if Independent(start, members, edges, x) {
        StageIsIntact(start, source, rows, members, edges, x, done, {t}, multiset{});
      }
    }

    // INSERT INTO the table, one statement a row
    method InsertRows(
      source: Database, ghost start: Database, ghost members: set<Table>, ghost edges: seq<FkEdge>,
      ghost done: set<Table>,
      t: Table, x: Transfer)
      requires Stage(start, source, rows, x, done, {t}, multiset{}) && t !in done && done + {t} <= members
      requires forall e :: e in edges && e.table in done + {t} && e.referencedTable in members ==>
        e.referencedTable in done
      requires Transferable(start, source, members, edges, x)
      modifies this
      ensures old(history) <= history && Stage(start, source, rows, x, done + {t}, {}, multiset{})
      ensures Independent(start, members, edges, x) ==> IntactFrom(history, |old(history)|, edges)
    {
      hide Transferable, Independent, AllIntact, Stage, OtherRows, SiteRows;
      ghost var part: multiset<Row> := multiset{};
      var rest := SelectSite(source, t, x);
      while rest != multiset{}
        invariant part + rest == SiteRows(source, t, x.column, x.site)
        invariant Stage(start, source, rows, x, done, {t}, part)
        invariant old(history) <= history
        invariant Independent(start, members, edges, x) ==> IntactFrom(history, |old(history)|, edges)
        decreases |rest|
      {
        var row :| row in rest;
        StageInserts(start, source, rows, x, done, t, part, row);
        Write(t, Rows(rows, t) + multiset{row});
        part := part + multiset{row};
        rest := rest - multiset{row};
        if Independent(start, members, edges, x) {
          StageIsIntact(start, source, rows, members, edges, x, done, {t}, part);
        }
      }
      assert part == SiteRows(source, t, x.column, x.site);
      StageEnds(start, source, rows, x, done, t, part);
    }

    static method SelectOthers(db: Database, t: Table, x: Transfer) returns (bag: multiset<Row>)
      ensures bag == OtherRows(db, t, x.column, x.site)
    {
      var site := SelectSite(db, t, x);
      bag := Rows(db, t) - site;
    }

    static method SelectSite(db: Database, t: Table, x: Transfer) returns (bag: multiset<Row>)
      ensures bag == SiteRows(db, t, x.column, x.site)
    {
      var rest := Rows(db, t);
      bag := multiset{};
      while rest != multiset{}
        invariant forall row :: bag[row] + (if OfSite(row, x.column, x.site) then rest[row] else 0)
                             == if OfSite(row, x.column, x.site) then Rows(db, t)[row] else 0
        decreases |rest|
      {
        var row :| row in rest;
        if OfSite(row, x.column, x.site) {
          bag := bag + multiset{row};
        }
        rest := rest - multiset{row};
      }
      assert forall row :: bag[row] == SiteRows(db, t, x.column, x.site)[row];
    }

    // copySiteAnalyticsBetweenStores, with a plan. Afterwards every copied table
    // holds the site's source rows and the other sites' own rows. The statements
    // on the way violate no foreign key exactly when no row of the destination
    // references, in a copied table, nothing but rows of this site.
    method CopySite(
      source: Database, order: seq<Table>, ghost members: set<Table>, ghost edges: seq<FkEdge>, x: Transfer)
      requires ParentsFirst(members, edges, order)
      requires Transferable(rows, source, members, edges, x)
      modifies this
      ensures SiteReplaced(old(rows), source, rows, x, members)
      ensures Stage(old(rows), source, rows, x, members, {}, multiset{})
      ensures IntactFrom(history, |old(history)|, edges) <==> Independent(old(rows), members, edges, x)
    {
      hide Transferable, Independent, ParentsFirst, AllIntact;
      ghost var start := rows;
      StageStarts(start, source, x);
      assert Elems(order[..0]) == {};
      for i := 0 to |order|
        invariant old(history) <= history
        invariant Stage(start, source, rows, x, Elems(order[..i]), {}, multiset{})
        invariant forall j :: 0 <= j < i ==> ClearedAt(start, source, history, |old(history)|, x, order, j)
        invariant Independent(start, members, edges, x) ==> IntactFrom(history, |old(history)|, edges)
      {
        ghost var before := history;
        CopyTable(source, start, members, edges, order, i, order[i], x);
        forall j | 0 <= j <= i ensures ClearedAt(start, source, history, |old(history)|, x, order, j) {
          if j < i { ClearedStays(start, source, before, history, |old(history)|, x, order, j); }
          else { ClearedEarlier(start, source, history, |before|, |old(history)|, x, order, j); }
        }
        if Independent(start, members, edges, x) { IntactJoins(before, history, |old(history)|, edges); }
      }
      AllMembers(members, edges, order);
      StageReplaces(start, source, rows, x, members);
      if IntactFrom(history, |old(history)|, edges) {
        IntactMeansIndependent(start, source, history, |old(history)|, members, edges, order, x);
      }
    }

    // deleteSiteAnalyticsOnly, on the tables of a copy plan: children first. No
    // statement violates a foreign key exactly when whatever references the
    // site's rows goes with them or references another row too.
    method DeleteSiteAnalytics(order: seq<Table>, ghost members: set<Table>, ghost edges: seq<FkEdge>, x: Transfer)
      requires ParentsFirst(members, edges, order) && AllIntact(rows, edges)
      modifies this
      ensures SiteReplaced(old(rows), map[], rows, x, members)
      ensures Stage(old(rows), map[], rows, x, members, {}, multiset{})
      ensures IntactFrom(history, |old(history)|, edges) <==> Removable(old(rows), members, edges, x)
    {
      hide ParentsFirst, AllIntact, Removable, OtherRows, SiteRows;
      ghost var start := rows;
      StageStarts(start, map[], x);
      AllMembers(members, edges, order);
      var i := |order|;
      assert Elems(order[i..]) == {};
      while i > 0 // slices.Backward(tables)
        invariant 0 <= i <= |order| && old(history) <= history
        invariant Stage(start, map[], rows, x, Elems(order[i..]), {}, multiset{})
        invariant Removable(start, members, edges, x) ==> IntactFrom(history, |old(history)|, edges)
        invariant i < |order| ==> |history| > |old(history)| && history[|history| - 1] == rows
      {
        i := i - 1;
        SuffixIsClosed(members, edges, order, i);
        var kept := SelectOthers(rows, order[i], x);
        StageClears(start, map[], rows, x, Elems(order[i + 1..]), order[i]);
        Write(order[i], kept);
        NoSiteRows(order[i], x);
        StageEnds(start, map[], rows, x, Elems(order[i + 1..]), order[i], multiset{});
        if Removable(start, members, edges, x) {
          ClearedIsIntact(start, rows, members, edges, x, Elems(order[i..]));
        }
      }
      assert order[0..] == order && order[..|order|] == order;
      StageReplaces(start, map[], rows, x, members);
      if order == [] {
        NothingToRemove(start, edges, x);
      } else if IntactFrom(history, |old(history)|, edges) {
        ClearedAllShows(start, rows, members, edges, x);
      }
    }
  }

  lemma NothingToRemove(start: Database, edges: seq<FkEdge>, x: Transfer)
    ensures Removable(start, {}, edges, x)
  {
  }

  lemma NoSiteRows(t: Table, x: Transfer)
    ensures SiteRows(map[], t, x.column, x.site) == multiset{}
  {
  }

  // ------------------------------------------------------- clearing the source

  // What references the site's rows in a cleared table is cleared with them, or
  // has another row to reference.
  ghost predicate Removable(start: Database, members: set<Table>, edges: seq<FkEdge>, x: Transfer) {
    forall e, row {:trigger HasOtherParent(start, e, x, row)} ::
      e in edges && e.referencedTable in members && row in Rows(start, e.table) && Cell(row, e.column).Val? ==>
        HasOtherParent(start, e, x, row) || (e.table in members && OfSite(row, x.column, x.site))
  }

  lemma ClearedIsIntact(
    start: Database, now: Database, members: set<Table>, edges: seq<FkEdge>, x: Transfer, done: set<Table>)
    requires Stage(start, map[], now, x, done, {}, multiset{}) && done <= members
    requires forall e :: e in edges && e.referencedTable in done && e.table in members ==> e.table in done
    requires AllIntact(start, edges) && Removable(start, members, edges, x)
    ensures AllIntact(now, edges)
  {
    forall e | e in edges ensures Intact(now, e) {
      forall row | row in Rows(now, e.table) && Cell(row, e.column).Val? ensures HasParent(now, e, row) {
        LeftRow(start, now, x, done, e.table, row);
        if e.referencedTable in done {
          assert HasOtherParent(start, e, x, row);
          var parent :| parent in Rows(start, e.referencedTable)
            && Matches(Cell(row, e.column), Cell(parent, e.referencedColumn)) && !OfSite(parent, x.column, x.site);
          assert OtherRows(start, e.referencedTable, x.column, x.site)[parent] > 0;
          assert parent in Rows(now, e.referencedTable);
        } else {
          assert HasParent(start, e, row) && Rows(now, e.referencedTable) == Rows(start, e.referencedTable);
        }
      }
    }
  }

  lemma LeftRow(start: Database, now: Database, x: Transfer, done: set<Table>, t: Table, row: Row)
    requires Stage(start, map[], now, x, done, {}, multiset{}) && row in Rows(now, t)
    ensures row in Rows(start, t) && (t in done ==> !OfSite(row, x.column, x.site))
  {
    assert SiteRows(map[], t, x.column, x.site)[row] == 0;
    assert t in done ==> OtherRows(start, t, x.column, x.site)[row] > 0;
  }

  lemma ClearedAllShows(start: Database, now: Database, members: set<Table>, edges: seq<FkEdge>, x: Transfer)
    requires Stage(start, map[], now, x, members, {}, multiset{}) && AllIntact(now, edges)
    ensures Removable(start, members, edges, x)
  {
    forall e, row | e in edges && e.referencedTable in members && row in Rows(start, e.table)
        && Cell(row, e.column).Val?
      ensures HasOtherParent(start, e, x, row) || (e.table in members && OfSite(row, x.column, x.site))
    {
      if !(e.table in members && OfSite(row, x.column, x.site)) {
        assert e.table in members ==> OtherRows(start, e.table, x.column, x.site)[row] > 0;
        assert row in Rows(now, e.table) && HasParent(now, e, row);
        var parent :| parent in Rows(now, e.referencedTable)
            && Matches(Cell(row, e.column), Cell(parent, e.referencedColumn));
        LeftRow(start, now, x, members, e.referencedTable, parent);
      }
    }
  }

  lemma SuffixIsClosed(members: set<Table>, edges: seq<FkEdge>, order: seq<Table>, i: nat)
    requires ParentsFirst(members, edges, order) && i < |order|
    ensures Elems(order[i..]) <= members && order[i] !in Elems(order[i + 1..])
    ensures Elems(order[i..]) == Elems(order[i + 1..]) + {order[i]}
    ensures forall e :: e in edges && e.referencedTable in Elems(order[i..]) && e.table in members ==>
      e.table in Elems(order[i..])
  {
    SplitAt(order, i);
    forall k | 0 <= k < |order| ensures order[k] in members {
      assert order[k] in Elems(order);
    }
    forall e | e in edges && e.referencedTable in Elems(order[i..]) && e.table in members
      ensures e.table in Elems(order[i..])
    {
      var p :| i <= p < |order| && order[p] == e.referencedTable;
      var c :| 0 <= c < |order| && order[c] == e.table;
      if e.table != e.referencedTable {
        assert Relevant(members, e) && ChildOf(members, edges, order[c], order[p]);
      }
      assert order[i..][if e.table == e.referencedTable then p - i else c - i] == e.table;
    }
  }

  // The site is gone from the source and arrived at the destination; the rows of
  // other sites are where they were.
  lemma TransferConserves(
    source: Database, source': Database, destination: Database, destination': Database, members: set<Table>,
    x: Transfer, t: Table)
    requires Stage(destination, source, destination', x, members, {}, multiset{})
    requires Stage(source, map[], source', x, members, {}, multiset{}) && t in members
    ensures SiteRows(destination', t, x.column, x.site) == SiteRows(source, t, x.column, x.site)
    ensures SiteRows(source', t, x.column, x.site) == multiset{}
    ensures OtherRows(source', t, x.column, x.site) == OtherRows(source, t, x.column, x.site)
    ensures OtherRows(destination', t, x.column, x.site) == OtherRows(destination, t, x.column, x.site)
  {
    Recombined(destination, source, destination', t, x);
    Recombined(source, map[], source', t, x);
    NoSiteRows(t, x);
  }

  lemma Recombined(others: Database, site: Database, both: Database, t: Table, x: Transfer)
    requires Rows(both, t) == OtherRows(others, t, x.column, x.site) + SiteRows(site, t, x.column, x.site)
    ensures SiteRows(both, t, x.column, x.site) == SiteRows(site, t, x.column, x.site)
    ensures OtherRows(both, t, x.column, x.site) == OtherRows(others, t, x.column, x.site)
  {
    assert forall row :: SiteRows(both, t, x.column, x.site)[row] == SiteRows(site, t, x.column, x.site)[row];
    assert forall row :: OtherRows(both, t, x.column, x.site)[row] == OtherRows(others, t, x.column, x.site)[row];
  }

  ghost predicate NoSelfEdges(members: set<Table>, edges: seq<FkEdge>) {
    forall e :: e in edges && e.table in members && e.referencedTable in members ==> e.table != e.referencedTable
  }

  lemma TransferableHasNoSelfEdges(
    start: Database, source: Database, members: set<Table>, edges: seq<FkEdge>, x: Transfer)
    requires Transferable(start, source, members, edges, x)
    ensures NoSelfEdges(members, edges)
  {
  }

  lemma AllMembers(members: set<Table>, edges: seq<FkEdge>, order: seq<Table>)
    requires ParentsFirst(members, edges, order)
    ensures Elems(order[..|order|]) == members
  {
    assert order[..|order|] == order;
  }

  lemma ClearedStays(
    start: Database, source: Database, before: seq<Database>, after: seq<Database>, n: nat, x: Transfer,
    order: seq<Table>, j: nat)
    requires j < |order| && before <= after && ClearedAt(start, source, before, n, x, order, j)
    ensures ClearedAt(start, source, after, n, x, order, j)
  {
    var k :| n <= k < |before| && Stage(start, source, before[k], x, Elems(order[..j]), {order[j]}, multiset{});
    assert after[k] == before[k];
  }

  lemma ClearedEarlier(
    start: Database, source: Database, history: seq<Database>, m: nat, n: nat, x: Transfer, order: seq<Table>, j: nat)
    requires j < |order| && n <= m && ClearedAt(start, source, history, m, x, order, j)
    ensures ClearedAt(start, source, history, n, x, order, j)
  {
  }

  lemma IntactJoins(before: seq<Database>, after: seq<Database>, n: nat, edges: seq<FkEdge>)
    requires before <= after && IntactFrom(before, n, edges) && IntactFrom(after, |before|, edges)
    ensures IntactFrom(after, n, edges)
  {
    forall k | n <= k < |after| ensures AllIntact(after[k], edges) {
      if k < |before| { assert after[k] == before[k]; }
    }
  }

  // Keys that hold all the way show that nothing depended on the cleared rows.
  lemma IntactMeansIndependent(
    start: Database, source: Database, history: seq<Database>, n: nat, members: set<Table>, edges: seq<FkEdge>,
    order: seq<Table>, x: Transfer)
    requires ParentsFirst(members, edges, order) && IntactFrom(history, n, edges)
    requires Transferable(start, source, members, edges, x)
    requires forall i :: 0 <= i < |order| ==> ClearedAt(start, source, history, n, x, order, i)
    ensures Independent(start, members, edges, x)
  {
    TransferableHasNoSelfEdges(start, source, members, edges, x);
    forall e, row | e in edges && e.referencedTable in members && row in Rows(start, e.table)
        && Cell(row, e.column).Val?
      ensures HasOtherParent(start, e, x, row)
    {
      assert e.referencedTable in Elems(order);
      var i :| 0 <= i < |order| && order[i] == e.referencedTable;
      UpToIsClosed(members, edges, order, i);
      assert ClearedAt(start, source, history, n, x, order, i);
      var k :| n <= k < |history| && Stage(start, source, history[k], x, Elems(order[..i]), {order[i]}, multiset{});
      assert AllIntact(history[k], edges);
      ClearingKeeps(start, source, history[k], members, x, Elems(order[..i]), order[i], e, row);
    }
  }

  lemma ClearingKeeps(
    start: Database, source: Database, now: Database, members: set<Table>, x: Transfer, done: set<Table>, p: Table,
    e: FkEdge, row: Row)
    requires Stage(start, source, now, x, done, {p}, multiset{}) && p !in done
    requires e.referencedTable == p && e.table !in done && (e.table in members ==> e.table != p) && p in members
    requires row in Rows(start, e.table) && Cell(row, e.column).Val? && Intact(now, e)
    ensures HasOtherParent(start, e, x, row)
  {
    if !HasOtherParent(start, e, x, row) {
      ClearingBreaks(start, source, now, x, done, p, e, row);
    }
  }

  // Copying a site a second time fails once it has a copied row that references
  // another copied row: clearing the parents first takes them from the children
  // of the first copy.
  lemma CopyingAgainBreaks(
    start: Database, source: Database, now: Database, members: set<Table>, edges: seq<FkEdge>, x: Transfer, e: FkEdge,
    row: Row)
    requires Stage(start, source, now, x, members, {}, multiset{})
    requires e in edges && e.table in members && e.referencedTable in members
    requires row in Rows(source, e.table) && OfSite(row, x.column, x.site) && Cell(row, e.column).Val?
    requires !HasOtherParent(start, e, x, row)
    ensures !Independent(now, members, edges, x)
  {
    assert SiteRows(source, e.table, x.column, x.site)[row] > 0;
    assert row in Rows(now, e.table);
    forall parent | parent in Rows(now, e.referencedTable) && !OfSite(parent, x.column, x.site)
      ensures parent in Rows(start, e.referencedTable)
    {
      assert SiteRows(source, e.referencedTable, x.column, x.site)[parent] == 0;
      assert OtherRows(start, e.referencedTable, x.column, x.site)[parent] > 0;
    }
    assert !HasOtherParent(now, e, x, row);
  }

  // An instance, whatever the names: goals and their steps, one of each and both
  // of one site, copied into an empty store. The first copy may be made; what it
  // leaves does not admit a second.
  datatype Names = Names(goals: Table, steps: Table, id: Column, goalId: Column, siteId: Column)

  ghost predicate Apart(n: Names) {
    n.goals != n.steps && n.id != n.siteId && n.goalId != n.siteId && n.id != n.goalId
  }

  function GoalStore(n: Names, site: int): Database {
    map[n.goals := multiset{map[n.id := 1, n.siteId := site]},
        n.steps := multiset{map[n.goalId := 1, n.siteId := site]}]
  }

  lemma GoalStoreRows(n: Names, site: int)
    requires Apart(n)
    ensures var db, e := GoalStore(n, site), FkEdge(n.steps, n.goalId, n.goals, n.id);
            && Rows(db, n.goals) == multiset{map[n.id := 1, n.siteId := site]}
            && Rows(db, n.steps) == multiset{map[n.goalId := 1, n.siteId := site]}
            && (forall t :: t != n.goals && t != n.steps ==> Rows(db, t) == multiset{})
            && (forall t, row :: row in Rows(db, t) ==> OfSite(row, n.siteId, site))
            && Intact(db, e) && KeepsToSite(db, e, Transfer(n.siteId, site))
  {
    var db, e := GoalStore(n, site), FkEdge(n.steps, n.goalId, n.goals, n.id);
    var goal: Row := map[n.id := 1, n.siteId := site];
    var step: Row := map[n.goalId := 1, n.siteId := site];
    assert goal in Rows(db, n.goals) && Matches(Cell(step, n.goalId), Cell(goal, n.id)) && OfSite(goal, n.siteId, site);
    forall row | row in Rows(db, e.table) ensures row == step && HasParent(db, e, row) {
    }
  }

  // A store of one site's rows is what copying it into an empty one makes.
  lemma CopyIntoEmpty(db: Database, members: set<Table>, x: Transfer)
    requires forall t, row :: row in Rows(db, t) ==> OfSite(row, x.column, x.site)
    requires forall t :: t !in members ==> Rows(db, t) == multiset{}
    ensures Stage(map[], db, db, x, members, {}, multiset{})
  {
    forall t
      ensures t in members ==> Rows(db, t) == OtherRows(map[], t, x.column, x.site) + SiteRows(db, t, x.column, x.site)
    {
      OneSiteOnly(db, t, x);
    }
  }

  lemma OneSiteOnly(db: Database, t: Table, x: Transfer)
    requires forall row :: row in Rows(db, t) ==> OfSite(row, x.column, x.site)
    ensures Rows(db, t) == OtherRows(map[], t, x.column, x.site) + SiteRows(db, t, x.column, x.site)
  {
    assert OtherRows(map[], t, x.column, x.site) == multiset{};
    assert SiteRows(db, t, x.column, x.site) == Rows(db, t);
  }

  // It may be copied into an empty store, and into itself for all it holds.
  lemma GoalsAreTransferable(n: Names, site: int, start: Database)
    requires Apart(n) && (start == map[] || start == GoalStore(n, site))
    ensures var e := FkEdge(n.steps, n.goalId, n.goals, n.id);
            Transferable(start, GoalStore(n, site), {n.goals, n.steps}, [e], Transfer(n.siteId, site))
  {
    hide GoalStore, KeepsToSite;
    GoalStoreRows(n, site);
  }

  lemma EmptyIsIndependent(members: set<Table>, edges: seq<FkEdge>, x: Transfer)
    ensures Independent(map[], members, edges, x)
  {
  }

  lemma SecondCopyFails(n: Names, site: int)
    requires Apart(n)
    ensures var members, x := {n.goals, n.steps}, Transfer(n.siteId, site);
            var edges, db := [FkEdge(n.steps, n.goalId, n.goals, n.id)], GoalStore(n, site);
            && Transferable(map[], db, members, edges, x) && Independent(map[], members, edges, x)
            && Stage(map[], db, db, x, members, {}, multiset{})
            && Transferable(db, db, members, edges, x) && !Independent(db, members, edges, x)
  {
    hide GoalStore, Stage, KeepsToSite, Transferable, Independent;
    var members, x := {n.goals, n.steps}, Transfer(n.siteId, site);
    var e, db := FkEdge(n.steps, n.goalId, n.goals, n.id), GoalStore(n, site);
    var step: Row := map[n.goalId := 1, n.siteId := site];
    GoalStoreRows(n, site);
    GoalsAreTransferable(n, site, map[]);
    GoalsAreTransferable(n, site, db);
    EmptyIsIndependent(members, [e], x);
    CopyIntoEmpty(db, members, x);
    assert step in Rows(db, n.steps) && OfSite(step, n.siteId, site) && Cell(step, n.goalId).Val?;
    assert !HasOtherParent(map[], e, x, step);
    CopyingAgainBreaks(map[], db, db, members, [e], x, e, step);
  }
}
