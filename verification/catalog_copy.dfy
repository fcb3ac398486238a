// rewriteDatabaseFile of database/compact.go: the compaction target is cleared
// children first and then filled parents first, one statement per table.
module CatalogCopy {
  import opened ForeignKeyOrder
  import opened Relational

  // One attached catalog: its base tables with their columns, and its rows.
  datatype Attached = Attached(columns: map<Table, seq<Column>>, rows: Database)

  datatype RewriteError =
    | NoMigrationsTable
    | NotFullyMigrated
    | MissingTable(table: Table)
    | DivergingColumns(table: Table)
    | ForeignKeyCycle

  datatype Outcome = Done | Failed(error: RewriteError)

  const MigrationsTable: Table := "migrations"
  const MigrationColumn: Column := "migration"

  ghost predicate RowsFitColumns(catalog: Attached) {
    forall t, row :: t in catalog.columns && row in Rows(catalog.rows, t) ==> row.Keys <= Elems(catalog.columns[t])
  }

  function CopiedTables(source: Attached): set<Table> {
    source.columns.Keys - {MigrationsTable}
  }

  // cell NOT IN (SELECT column FROM rows): not true once a NULL takes part, unless
  // there are no rows at all.
  predicate NotIn(cell: Value, rows: multiset<Row>, column: Column) {
    forall row :: row in rows ==> cell.Val? && Cell(row, column).Val? && cell != Cell(row, column)
  }

  // The source has every migration of the freshly migrated target.
  predicate FullyMigrated(source: multiset<Row>, target: multiset<Row>) {
    forall row :: row in target ==> !NotIn(Cell(row, MigrationColumn), source, MigrationColumn)
  }

  // No row of the target's migrations is certainly missing in the source: a NULL in
  // either leaves it open, unless the source has no row at all.
  ghost predicate NoneMissing(source: Attached, target: Database) {
    forall row :: row in Rows(target, "migrations") ==>
      exists same :: same in Rows(source.rows, "migrations")
        && ("migration" !in row || "migration" !in same || same["migration"] == row["migration"])
  }

  lemma FullyMigratedMeans(source: Attached, target: Database)
    ensures FullyMigrated(Rows(source.rows, MigrationsTable), Rows(target, MigrationsTable))
       <==> NoneMissing(source, target)
  {
  }

  // No foreign key joins a copied table to one that is not copied.
  ghost predicate Closed(members: set<Table>, edges: seq<FkEdge>) {
    forall e :: e in edges ==> (e.table in members <==> e.referencedTable in members)
  }

  ghost predicate AllIntact(db: Database, edges: seq<FkEdge>) {
    forall e :: e in edges ==> Intact(db, e)
  }

  // While clearing: the cleared tables are empty, the rest untouched.
  ghost predicate Clearing(start: Database, now: Database, cleared: set<Table>) {
    && (forall t :: t in cleared ==> Rows(now, t) == multiset{})
    && (forall t :: t !in cleared ==> Rows(now, t) == Rows(start, t))
  }

  // While filling: filled tables hold the source rows, the other members nothing.
  ghost predicate Filling(start: Database, source: Database, now: Database, empty: set<Table>, filled: set<Table>) {
    && (forall t :: t in empty ==> Rows(now, t) == multiset{})
    && (forall t :: t in filled ==> Rows(now, t) == Rows(source, t))
    && (forall t :: t !in empty + filled ==> Rows(now, t) == Rows(start, t))
  }

  // A set of tables that holds the children of its tables, or their parents.
  ghost predicate DownClosed(edges: seq<FkEdge>, s: set<Table>) {
    forall e :: e in edges && e.referencedTable in s ==> e.table in s
  }

  ghost predicate UpClosed(edges: seq<FkEdge>, s: set<Table>) {
    forall e :: e in edges && e.table in s ==> e.referencedTable in s
  }

  lemma PrefixIsDownClosed(members: set<Table>, edges: seq<FkEdge>, order: seq<Table>, i: nat)
    requires ChildrenFirst(members, edges, order) && Closed(members, edges) && i <= |order|
    ensures DownClosed(edges, Elems(order[..i])) && UpClosed(edges, Elems(order[i..]))
  {
    forall e | e in edges && e.referencedTable in Elems(order[..i]) ensures e.table in Elems(order[..i]) {
      var p :| 0 <= p < i && order[p] == e.referencedTable;
      assert e.referencedTable in Elems(order) && e.table in Elems(order);
      var c :| 0 <= c < |order| && order[c] == e.table;
      ChildIndex(members, edges, order, e, c, p);
      assert order[..i][c] == e.table;
    }
    forall e | e in edges && e.table in Elems(order[i..]) ensures e.referencedTable in Elems(order[i..]) {
      var c :| i <= c < |order| && order[c] == e.table;
      assert e.table in Elems(order) && e.referencedTable in Elems(order);
      var p :| 0 <= p < |order| && order[p] == e.referencedTable;
      ChildIndex(members, edges, order, e, c, p);
      assert order[i..][p - i] == e.referencedTable;
    }
  }

  lemma ChildIndex(members: set<Table>, edges: seq<FkEdge>, order: seq<Table>, e: FkEdge, c: nat, p: nat)
    requires ChildrenFirst(members, edges, order) && e in edges
    requires c < |order| && p < |order| && order[c] == e.table && order[p] == e.referencedTable
    ensures c <= p
  {
    assert order[c] in Elems(order) && order[p] in Elems(order);
    if order[c] != order[p] {
      assert Relevant(members, e);
      assert ChildOf(members, edges, order[c], order[p]);
    }
  }

  lemma KeepsIntact(before: Database, now: Database, e: FkEdge)
    requires Intact(before, e)
    requires
      || Rows(now, e.table) == multiset{}
      || (&& Rows(now, e.table) == Rows(before, e.table)
          && Rows(now, e.referencedTable) == Rows(before, e.referencedTable))
    ensures Intact(now, e)
  {
    forall row | row in Rows(now, e.table) && Cell(row, e.column).Val? ensures HasParent(now, e, row) {
      assert HasParent(before, e, row);
    }
  }

  lemma ClearingIsIntact(start: Database, now: Database, edges: seq<FkEdge>, cleared: set<Table>)
    requires Clearing(start, now, cleared) && DownClosed(edges, cleared) && AllIntact(start, edges)
    ensures AllIntact(now, edges)
  {
    forall e | e in edges ensures Intact(now, e) {
      KeepsIntact(start, now, e);
    }
  }

  lemma FillingIsIntact(
    start: Database, source: Database, now: Database, edges: seq<FkEdge>, empty: set<Table>, filled: set<Table>)
    requires Filling(start, source, now, empty, filled)
    requires UpClosed(edges, filled) && Closed(empty + filled, edges)
    requires AllIntact(start, edges) && AllIntact(source, edges)
    ensures AllIntact(now, edges)
  {
    forall e | e in edges ensures Intact(now, e) {
      if e.table in filled {
        KeepsIntact(source, now, e);
      } else {
        KeepsIntact(start, now, e);
      }
    }
  }

  ghost predicate IntactSince(before: seq<Database>, after: seq<Database>, edges: seq<FkEdge>) {
    before <= after && forall k :: |before| <= k < |after| ==> AllIntact(after[k], edges)
  }

  lemma IntactExtends(before: seq<Database>, after: seq<Database>, db: Database, edges: seq<FkEdge>)
    requires IntactSince(before, after, edges) && AllIntact(db, edges)
    ensures IntactSince(before, after + [db], edges)
  {
  }

  lemma ClearingStep(start: Database, now: Database, members: set<Table>, edges: seq<FkEdge>, order: seq<Table>, i: nat)
    requires ChildrenFirst(members, edges, order) && Closed(members, edges) && AllIntact(start, edges)
    requires i < |order| && Clearing(start, now, Elems(order[..i]))
    ensures Clearing(start, now[order[i] := multiset{}], Elems(order[..i + 1]))
    ensures AllIntact(now[order[i] := multiset{}], edges)
  {
    SplitAt(order, i);
    PrefixIsDownClosed(members, edges, order, i + 1);
    ClearingIsIntact(start, now[order[i] := multiset{}], edges, Elems(order[..i + 1]));
  }

  lemma FillingStep(
    start: Database, source: Attached, now: Database, members: set<Table>, edges: seq<FkEdge>, order: seq<Table>,
    i: nat, columns: seq<Column>)
    requires ChildrenFirst(members, edges, order) && Closed(members, edges)
    requires AllIntact(start, edges) && AllIntact(source.rows, edges)
    requires i < |order| && Filling(start, source.rows, now, Elems(order[..i + 1]), Elems(order[i + 1..]))
    requires order[i] in source.columns && RowsFitColumns(source) && SameColumns(columns, source.columns[order[i]])
    ensures var copied := ProjectAll(Rows(source.rows, order[i]), Elems(columns));
            var filled := now[order[i] := Rows(now, order[i]) + copied];
            Filling(start, source.rows, filled, Elems(order[..i]), Elems(order[i..])) && AllIntact(filled, edges)
  {
    var rows := Rows(source.rows, order[i]);
    SameColumnsSameSet(columns, source.columns[order[i]]);
    ProjectAllIdentity(rows, Elems(columns));
    SplitAt(order, i);
    assert Rows(now, order[i]) + rows == rows;
    PrefixIsDownClosed(members, edges, order, i);
    WholeOrder(order, i);
    FillingIsIntact(start, source.rows, now[order[i] := rows], edges, Elems(order[..i]), Elems(order[i..]));
  }

  lemma WholeOrder(order: seq<Table>, i: nat)
    requires i <= |order|
    ensures Elems(order[..i]) + Elems(order[i..]) == Elems(order)
  {
    assert order == order[..i] + order[i..];
  }

  // A rewrite can be made.
  ghost predicate Copyable(
    source: Attached, targetColumns: map<Table, seq<Column>>, target: Database, edges: seq<FkEdge>)
  {
    var copied := source.columns.Keys - {"migrations"};
    && "migrations" in source.columns && "migrations" in targetColumns
    && NoneMissing(source, target)
    && Acyclic(copied, edges)
    && forall t :: t in copied ==> t in targetColumns && multiset(targetColumns[t]) == multiset(source.columns[t])
  }

  ghost predicate Explains(
    error: RewriteError, source: Attached, targetColumns: map<Table, seq<Column>>, target: Database,
    edges: seq<FkEdge>)
  {
    match error
    case NoMigrationsTable => "migrations" !in source.columns || "migrations" !in targetColumns
    case NotFullyMigrated => !NoneMissing(source, target)
    case MissingTable(t) => t in source.columns && t != "migrations" && t !in targetColumns
    case DivergingColumns(t) =>
      && t in source.columns && t != "migrations" && t in targetColumns
      && multiset(targetColumns[t]) != multiset(source.columns[t])
    case ForeignKeyCycle => !Acyclic(source.columns.Keys - {"migrations"}, edges)
  }

  lemma WhatIsCopied(
    source: Attached, targetColumns: map<Table, seq<Column>>, target: Database, edges: seq<FkEdge>)
    ensures Copyable(source, targetColumns, target, edges) <==>
      && MigrationsTable in source.columns && MigrationsTable in targetColumns
      && FullyMigrated(Rows(source.rows, MigrationsTable), Rows(target, MigrationsTable))
      && CopiedTables(source) <= targetColumns.Keys
      && Acyclic(CopiedTables(source), edges)
      && forall t :: t in CopiedTables(source) ==> SameColumns(targetColumns[t], source.columns[t])
    ensures forall error :: Explains(error, source, targetColumns, target, edges) <==>
      match error
      case NoMigrationsTable => MigrationsTable !in source.columns || MigrationsTable !in targetColumns
      case NotFullyMigrated => !FullyMigrated(Rows(source.rows, MigrationsTable), Rows(target, MigrationsTable))
      case MissingTable(t) => t in CopiedTables(source) && t !in targetColumns
      case DivergingColumns(t) =>
        t in CopiedTables(source) && t in targetColumns && !SameColumns(targetColumns[t], source.columns[t])
      case ForeignKeyCycle => !Acyclic(CopiedTables(source), edges)
  {
    hide Acyclic, NoneMissing, FullyMigrated;
    FullyMigratedMeans(source, target);
    assert CopiedTables(source) == source.columns.Keys - {"migrations"};
  }

  class Rewrite {
    var target: Database
    // The target after every statement run so far.
    ghost var history: seq<Database>

    constructor (migrated: Database)
      ensures target == migrated && history == []
    {
      target, history := migrated, [];
    }

    // DELETE FROM compact_target.table
    method Clear(table: Table)
      modifies this
      ensures target == old(target)[table := multiset{}]
      ensures history == old(history) + [target]
    {
      target := target[table := multiset{}];
      history := history + [target];
    }

    // INSERT INTO compact_target.table (columns) SELECT columns FROM compact_source.table
    method Insert(table: Table, columns: seq<Column>, from: multiset<Row>)
      modifies this
      ensures target == old(target)[table := Rows(old(target), table) + ProjectAll(from, Elems(columns))]
      ensures history == old(history) + [target]
    {
      var selected := SelectColumns(from, Elems(columns));
      target := target[table := Rows(target, table) + selected];
      history := history + [target];
    }

    // A successful rewrite is an exact copy of every table but migrations, and
    // no statement on the way there violates a foreign key of the target.
    method RewriteDatabaseFile(source: Attached, targetColumns: map<Table, seq<Column>>, edges: seq<FkEdge>)
      returns (r: Outcome)
      requires Closed(CopiedTables(source), edges)
      requires AllIntact(target, edges) && AllIntact(source.rows, edges)
      requires RowsFitColumns(source)
      modifies this
      ensures r.Done? ==> forall t ::
        Rows(target, t) == Rows(if t in source.columns && t != "migrations" then source.rows else old(target), t)
      ensures IntactSince(old(history), history, edges)
      ensures r.Done? <==> Copyable(source, targetColumns, old(target), edges)
      ensures r.Failed? ==> Explains(r.error, source, targetColumns, old(target), edges)
    {
      hide FullyMigrated, Closed, AllIntact, RowsFitColumns, Copyable, Explains, SameColumns, Acyclic;
      WhatIsCopied(source, targetColumns, target, edges);
      if MigrationsTable !in source.columns || MigrationsTable !in targetColumns {
        return Failed(NoMigrationsTable);
      }
      if !FullyMigrated(Rows(source.rows, MigrationsTable), Rows(target, MigrationsTable)) {
        return Failed(NotFullyMigrated);
      }
      r := CopyTables(source, targetColumns, edges);
    }

    // From the list of tables on
    method CopyTables(source: Attached, targetColumns: map<Table, seq<Column>>, edges: seq<FkEdge>)
      returns (r: Outcome)
      requires Closed(CopiedTables(source), edges)
      requires AllIntact(target, edges) && AllIntact(source.rows, edges)
      requires RowsFitColumns(source)
      modifies this
      ensures r.Done? ==>
        forall t :: Rows(target, t) == Rows(if t in CopiedTables(source) then source.rows else old(target), t)
      ensures IntactSince(old(history), history, edges)
      ensures r.Done? <==>
        && CopiedTables(source) <= targetColumns.Keys
        && Acyclic(CopiedTables(source), edges)
        && forall t :: t in CopiedTables(source) ==> SameColumns(targetColumns[t], source.columns[t])
      ensures r.Failed? ==>
        match r.error
        case MissingTable(t) => t in CopiedTables(source) && t !in targetColumns
        case DivergingColumns(t) =>
          t in CopiedTables(source) && t in targetColumns && !SameColumns(targetColumns[t], source.columns[t])
        case ForeignKeyCycle => !Acyclic(CopiedTables(source), edges)
        case _ => false
    {
      hide Acyclic, SameColumns, Closed, AllIntact;
      var members: set<Table>;
      r, members := MembersOf(source, targetColumns);
      if r.Failed? {
        return;
      }
      var ordered := OrderChildrenFirst(members, edges);
      if ordered.CycleAmong? {
        return Failed(ForeignKeyCycle);
      }
      var childrenFirst := ordered.order;
      ghost var start := target;
      ClearAll(members, edges, childrenFirst);
      assert forall k :: 0 <= k < |childrenFirst| ==> childrenFirst[k] in Elems(childrenFirst);
      r := FillAll(source, targetColumns, members, edges, childrenFirst, start);
    }

    // The tables of the source, which the target must have
    static method MembersOf(source: Attached, targetColumns: map<Table, seq<Column>>)
      returns (r: Outcome, members: set<Table>)
      ensures r.Done? <==> CopiedTables(source) <= targetColumns.Keys
      ensures r.Done? ==> members == CopiedTables(source)
      ensures r.Failed? ==>
        r.error.MissingTable? && r.error.table in CopiedTables(source) && r.error.table !in targetColumns
    {
      var tables := Range(source.columns.Keys);
      members := {};
      for i := 0 to |tables|
        invariant members == Elems(tables[..i]) - {MigrationsTable} && members <= targetColumns.Keys
      {
        assert tables[..i + 1] == tables[..i] + [tables[i]];
        if tables[i] == MigrationsTable {
          continue;
        }
        if tables[i] !in targetColumns {
          assert tables[i] in Elems(tables);
          return Failed(MissingTable(tables[i])), members;
        }
        members := members + {tables[i]};
      }
      assert tables[..|tables|] == tables;
      return Done, members;
    }

    method ClearAll(ghost members: set<Table>, ghost edges: seq<FkEdge>, childrenFirst: seq<Table>)
      requires ChildrenFirst(members, edges, childrenFirst) && Closed(members, edges) && AllIntact(target, edges)
      modifies this
      ensures Clearing(old(target), target, members)
      ensures IntactSince(old(history), history, edges)
    {
      for i := 0 to |childrenFirst|
        invariant Clearing(old(target), target, Elems(childrenFirst[..i]))
        invariant IntactSince(old(history), history, edges)
      {
        ClearingStep(old(target), target, members, edges, childrenFirst, i);
        IntactExtends(old(history), history, target[childrenFirst[i] := multiset{}], edges);
        Clear(childrenFirst[i]);
      }
      assert childrenFirst[..|childrenFirst|] == childrenFirst;
    }

    method FillAll(
      source: Attached, targetColumns: map<Table, seq<Column>>, ghost members: set<Table>, ghost edges: seq<FkEdge>,
      childrenFirst: seq<Table>, ghost start: Database)
      returns (r: Outcome)
      requires ChildrenFirst(members, edges, childrenFirst) && Closed(members, edges)
      requires forall k :: 0 <= k < |childrenFirst| ==> childrenFirst[k] in members
      requires members <= source.columns.Keys && members <= targetColumns.Keys && RowsFitColumns(source)
      requires Clearing(start, target, members)
      requires AllIntact(start, edges) && AllIntact(source.rows, edges)
      modifies this
      ensures r.Done? ==> Filling(start, source.rows, target, {}, members)
      ensures IntactSince(old(history), history, edges)
      ensures r.Done? <==> forall t :: t in members ==> SameColumns(targetColumns[t], source.columns[t])
      ensures r.Failed? ==>
        && r.error.DivergingColumns? && r.error.table in members
        && !SameColumns(targetColumns[r.error.table], source.columns[r.error.table])
    {
      var i := |childrenFirst|;
      assert childrenFirst[..i] == childrenFirst && childrenFirst[i..] == [];
      while i > 0 // slices.Reverse(childrenFirst): parents before their children
        invariant 0 <= i <= |childrenFirst|
        invariant Filling(start, source.rows, target, Elems(childrenFirst[..i]), Elems(childrenFirst[i..]))
        invariant IntactSince(old(history), history, edges)
        invariant forall k :: i <= k < |childrenFirst| ==>
          SameColumns(targetColumns[childrenFirst[k]], source.columns[childrenFirst[k]])
      {
        i := i - 1;
        var table := childrenFirst[i];
        var columns := targetColumns[table];
        if !SameColumns(columns, source.columns[table]) {
          return Failed(DivergingColumns(table));
        }
        FillingStep(start, source, target, members, edges, childrenFirst, i, columns);
        ghost var filled := target[table := Rows(target, table) + ProjectAll(Rows(source.rows, table), Elems(columns))];
        IntactExtends(old(history), history, filled, edges);
        Insert(table, columns, Rows(source.rows, table));
      }
      assert childrenFirst[..0] == [] && childrenFirst[0..] == childrenFirst;
      forall t | t in members ensures SameColumns(targetColumns[t], source.columns[t]) {
        assert t in Elems(childrenFirst);
        var k :| 0 <= k < |childrenFirst| && childrenFirst[k] == t;
      }
      return Done;
    }
  }

  // The sorted column lists are equal.
  predicate SameColumns(a: seq<Column>, b: seq<Column>) {
    multiset(a) == multiset(b)
  }

  lemma SameColumnsSameSet(a: seq<Column>, b: seq<Column>)
    requires SameColumns(a, b)
    ensures Elems(a) == Elems(b)
  {
    forall c ensures c in a <==> c in b {
      assert c in multiset(a) <==> c in multiset(b);
    }
  }
}
