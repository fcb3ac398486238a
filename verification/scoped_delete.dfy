// buildScopedDeletePlan of database/fk_cleanup.go, and what running its plan
// does to the rows (deleteSiteChildren of database/site_cleanup.go).
module ScopedDelete {
  import opened ForeignKeyOrder
  import opened Relational
  import Text

  // information_schema and duckdb_constraints() as the planner reads them.
  datatype Catalog = Catalog(tables: set<Table>, columns: seq<(Table, Column)>, foreignKeys: seq<FkEdge>)

  datatype DeleteSpec = DeleteSpec(scopeColumns: seq<Column>, rootTable: Table, extraEdges: seq<FkEdge>,
      policyTables: seq<Table>)

  // The WHERE clauses the planner writes; both take the scope id as argument.
  datatype Predicate =
    | ScopeEq(column: Column)
    | InSubquery(column: Column, referencedColumn: Column, referencedTable: Table, where: Predicate)

  datatype DeleteStep = DeleteStep(table: Table, where: Predicate)

  datatype PlanError = UnsafeIdentifier | Uncovered(table: Table) | ForeignKeyCycle(remaining: seq<Table>)

  datatype Result<T> = Ok(value: T) | Err(error: PlanError)

  // What the planner has derived from the catalog before it builds predicates.
  datatype Scope = Scope(rootTable: Table, scoped: map<Table, Column>, policy: set<Table>, edges: seq<FkEdge>)

  // ------------------------------------------------------- reading the catalog

  predicate IsSafeIdentifier(name: string) {
    && name != ""
    && forall i :: 0 <= i < |name| ==>
      ('a' <= name[i] <= 'z' || 'A' <= name[i] <= 'Z' || '0' <= name[i] <= '9' || name[i] == '_')
  }

  lemma SafeIdentifierMeans(name: string)
    ensures IsSafeIdentifier(name) <==> name != "" && forall c :: c in name ==>
      c == '_' || 48 <= c as int <= 57 || 65 <= c as int <= 90 || 97 <= c as int <= 122
  {
    assert forall i :: 0 <= i < |name| ==> name[i] in name;
  }

  predicate SafeEdge(e: FkEdge) {
    IsSafeIdentifier(e.table) && IsSafeIdentifier(e.column) && IsSafeIdentifier(e.referencedTable)
      && IsSafeIdentifier(e.referencedColumn)
  }

  // The first scope column listed for a table wins.
  function FirstScopeColumns(columns: seq<(Table, Column)>, scopeColumns: seq<Column>): map<Table, Column> {
    if columns == [] then map[]
    else
      var scoped := FirstScopeColumns(columns[..|columns| - 1], scopeColumns);
      var (table, column) := columns[|columns| - 1];
      if column in scopeColumns && table !in scoped then scoped[table := column] else scoped
  }

  function Existing(tables: set<Table>, extraEdges: seq<FkEdge>): seq<FkEdge> {
    if extraEdges == [] then []
    else
      var e := extraEdges[|extraEdges| - 1];
      Existing(tables, extraEdges[..|extraEdges| - 1])
      + if e.table in tables && e.referencedTable in tables then [e] else []
  }

  function ScopeOf(catalog: Catalog, spec: DeleteSpec): Scope {
    var listed := FirstScopeColumns(catalog.columns, spec.scopeColumns);
    Scope(
      spec.rootTable,
      map t | t in listed && t != spec.rootTable && t in catalog.tables :: listed[t],
      Elems(spec.policyTables),
      catalog.foreignKeys + Existing(catalog.tables, spec.extraEdges))
  }

  ghost predicate AllSafe(scope: Scope, extraEdges: seq<FkEdge>) {
    && (forall t :: t in scope.scoped ==> IsSafeIdentifier(t) && IsSafeIdentifier(scope.scoped[t]))
    && (forall e :: e in scope.edges || e in extraEdges ==>
         && IsSafeIdentifier(e.table) && IsSafeIdentifier(e.column)
         && IsSafeIdentifier(e.referencedTable) && IsSafeIdentifier(e.referencedColumn))
  }

  // The table references the root, and has neither scope column nor policy.
  ghost predicate UncoveredBy(scope: Scope, t: Table) {
    && t != scope.rootTable && t !in scope.scoped && t !in scope.policy
    && exists e :: e in scope.edges && e.table == t && e.referencedTable == scope.rootTable
  }

  // An edge into the root whose child the plan can neither delete nor skip.
  predicate Gap(scope: Scope, e: FkEdge) {
    && e.referencedTable == scope.rootTable && e.table != scope.rootTable
    && e.table !in scope.scoped && e.table !in scope.policy
  }

  // Every other table that references the root has a scope column or a policy.
  ghost predicate Covered(scope: Scope) {
    forall e :: e in scope.edges && e.referencedTable == scope.rootTable && e.table != scope.rootTable ==>
      e.table in scope.scoped || e.table in scope.policy
  }

  // Column i of the catalog is the first one of its table that is a scope column.
  ghost predicate FirstScopeColumn(columns: seq<(Table, Column)>, scopeColumns: seq<Column>, i: nat)
    requires i < |columns|
  {
    columns[i].1 in scopeColumns
    && forall j :: 0 <= j < i && columns[j].0 == columns[i].0 ==> columns[j].1 !in scopeColumns
  }

  // The column that the scan of the catalog has found for t, if any
  ghost predicate Found(columns: seq<(Table, Column)>, scopeColumns: seq<Column>, t: Table, c: Column) {
    exists i: nat :: i < |columns| && FirstScopeColumn(columns, scopeColumns, i) && columns[i] == (t, c)
  }

  ghost predicate Unscoped(columns: seq<(Table, Column)>, scopeColumns: seq<Column>, t: Table) {
    forall i :: 0 <= i < |columns| && columns[i].0 == t ==> columns[i].1 !in scopeColumns
  }

  lemma FoundStep(init: seq<(Table, Column)>, last: (Table, Column), scopeColumns: seq<Column>, t: Table, c: Column)
    ensures Found(init, scopeColumns, t, c) ==> Found(init + [last], scopeColumns, t, c)
    ensures Unscoped(init, scopeColumns, t) && last == (t, c) && c in scopeColumns ==>
      Found(init + [last], scopeColumns, t, c)
    ensures Unscoped(init, scopeColumns, t) && (last.0 != t || last.1 !in scopeColumns) ==>
      Unscoped(init + [last], scopeColumns, t)
  {
    var columns := init + [last];
    assert forall i :: 0 <= i < |init| ==> columns[i] == init[i];
    if Found(init, scopeColumns, t, c) {
      var i: nat :| i < |init| && FirstScopeColumn(init, scopeColumns, i) && init[i] == (t, c);
      assert FirstScopeColumn(columns, scopeColumns, i);
    }
    if Unscoped(init, scopeColumns, t) && last == (t, c) && c in scopeColumns {
      assert FirstScopeColumn(columns, scopeColumns, |init|);
    }
  }

  lemma {:induction false} FirstScopeColumnOf(columns: seq<(Table, Column)>, scopeColumns: seq<Column>, t: Table)
    ensures var scoped := FirstScopeColumns(columns, scopeColumns);
            if t in scoped then Found(columns, scopeColumns, t, scoped[t]) else Unscoped(columns, scopeColumns, t)
  {
    if columns != [] {
      hide Found, Unscoped;
      var n := |columns| - 1;
      FirstScopeColumnOf(columns[..n], scopeColumns, t);
      assert columns == columns[..n] + [columns[n]];
      var scoped := FirstScopeColumns(columns, scopeColumns);
      FoundStep(columns[..n], columns[n], scopeColumns, t, if t in scoped then scoped[t] else "");
    }
  }

  lemma FirstScopeColumnsMean(columns: seq<(Table, Column)>, scopeColumns: seq<Column>)
    ensures forall t :: t in FirstScopeColumns(columns, scopeColumns) <==>
      exists i :: 0 <= i < |columns| && columns[i].0 == t && columns[i].1 in scopeColumns
    ensures forall i :: 0 <= i < |columns| && FirstScopeColumn(columns, scopeColumns, i) ==>
      columns[i].0 in FirstScopeColumns(columns, scopeColumns)
      && FirstScopeColumns(columns, scopeColumns)[columns[i].0] == columns[i].1
  {
    hide FirstScopeColumns;
    forall t {
      FirstScopeColumnOf(columns, scopeColumns, t);
    }
  }

  lemma {:induction false} ExistingMeans(tables: set<Table>, extraEdges: seq<FkEdge>)
    ensures forall e :: e in Existing(tables, extraEdges) <==>
      e in extraEdges && e.table in tables && e.referencedTable in tables
  {
    if extraEdges != [] {
      var n := |extraEdges| - 1;
      ExistingMeans(tables, extraEdges[..n]);
      assert extraEdges == extraEdges[..n] + [extraEdges[n]];
    }
  }

  // What the planner derives, said with the catalog and the request alone.
  lemma ScopeMeans(catalog: Catalog, spec: DeleteSpec)
    ensures var scope := ScopeOf(catalog, spec);
            && scope.rootTable == spec.rootTable
            && (forall t :: t in scope.policy <==> t in spec.policyTables)
            && (forall e :: e in scope.edges <==>
                 || e in catalog.foreignKeys
                 || (e in spec.extraEdges && e.table in catalog.tables && e.referencedTable in catalog.tables))
            && (forall t :: t in scope.scoped <==>
                 && t in catalog.tables && t != spec.rootTable
                 && (exists i :: 0 <= i < |catalog.columns| && catalog.columns[i].0 == t
                      && catalog.columns[i].1 in spec.scopeColumns))
            && (forall i :: 0 <= i < |catalog.columns| && FirstScopeColumn(catalog.columns, spec.scopeColumns, i) ==>
                 catalog.columns[i].0 in scope.scoped ==>
                   scope.scoped[catalog.columns[i].0] == catalog.columns[i].1)
  {
    FirstScopeColumnsMean(catalog.columns, spec.scopeColumns);
    ExistingMeans(catalog.tables, spec.extraEdges);
  }

  // Foreign keys belong to base tables.
  ghost predicate WellFormed(catalog: Catalog) {
    forall e :: e in catalog.foreignKeys ==> e.table in catalog.tables
  }

  // ------------------------------------------------------- derivable predicates

  // Tables that are pulled in through their parents only.
  predicate Derivable(scope: Scope, t: Table) {
    t != scope.rootTable && t !in scope.scoped && t !in scope.policy
  }

  function Derived(e: FkEdge, where: Predicate): Predicate {
    InSubquery(e.column, e.referencedColumn, e.referencedTable, where)
  }

  ghost predicate Derives(scope: Scope, t: Table, p: Predicate)
    decreases p
  {
    match p
    case ScopeEq(column) => t in scope.scoped && scope.scoped[t] == column
    case InSubquery(column, referencedColumn, referencedTable, where) =>
      && Derivable(scope, t)
      && FkEdge(t, column, referencedTable, referencedColumn) in scope.edges
      && Derives(scope, referencedTable, where)
  }

  ghost predicate IsMember(scope: Scope, t: Table) {
    exists p :: Derives(scope, t, p)
  }

  ghost function Members(scope: Scope, tables: set<Table>): set<Table> {
    set t | t in tables && IsMember(scope, t)
  }

  ghost function Depth(p: Predicate): nat {
    match p
    case ScopeEq(_) => 0
    case InSubquery(_, _, _, where) => 1 + Depth(where)
  }

  ghost function Chain(t: Table, p: Predicate): (chain: seq<Table>)
    ensures |chain| == Depth(p) + 1 && chain[0] == t
    decreases p
  {
    match p
    case ScopeEq(_) => [t]
    case InSubquery(_, _, referencedTable, where) => [t] + Chain(referencedTable, where)
  }

  // c takes its predicates from p.
  ghost predicate Feeds(scope: Scope, p: Table, c: Table) {
    Derivable(scope, c) && exists e :: e in scope.edges && e.table == c && e.referencedTable == p
  }

  ghost predicate FeedCycle(scope: Scope, walk: seq<Table>) {
    && |walk| >= 2 && walk[0] == walk[|walk| - 1]
    && (forall i :: 0 <= i < |walk| ==> IsMember(scope, walk[i]))
    && (forall i :: 0 <= i < |walk| - 1 ==> Feeds(scope, walk[i + 1], walk[i]))
  }

  ghost predicate NoFeedCycle(scope: Scope) {
    forall walk :: !FeedCycle(scope, walk)
  }

  lemma {:induction false} ChainDerives(scope: Scope, t: Table, p: Predicate, i: nat)
    requires Derives(scope, t, p) && i <= Depth(p)
    ensures IsMember(scope, Chain(t, p)[i])
    ensures i < Depth(p) ==> Feeds(scope, Chain(t, p)[i + 1], Chain(t, p)[i])
    decreases i
  {
    if i == 0 {
      if p.InSubquery? {
        assert FkEdge(t, p.column, p.referencedTable, p.referencedColumn) in scope.edges;
      }
    } else {
      ChainDerives(scope, p.referencedTable, p.where, i - 1);
    }
  }

  // Without a feeding cycle a derivation passes through each table once.
  lemma ChainIsShort(scope: Scope, tables: set<Table>, t: Table, p: Predicate)
    requires Derives(scope, t, p) && NoFeedCycle(scope)
    requires scope.scoped.Keys <= tables && forall e :: e in scope.edges ==> e.table in tables
    ensures Depth(p) < |tables|
  {
    var chain := Chain(t, p);
    forall i | 0 <= i < |chain|
      ensures IsMember(scope, chain[i]) && (i < |chain| - 1 ==> Feeds(scope, chain[i + 1], chain[i]))
    {
      ChainDerives(scope, t, p, i);
    }
    forall i, j | 0 <= i < j < |chain| ensures chain[i] != chain[j] {
      var walk := chain[i..j + 1];
      assert !FeedCycle(scope, walk);
      forall k | 0 <= k < |walk| - 1 ensures Feeds(scope, walk[k + 1], walk[k]) {
        assert walk[k] == chain[i + k] && walk[k + 1] == chain[i + k + 1];
      }
    }
    forall x | x in Elems(chain) ensures x in tables {
      var i :| 0 <= i < |chain| && chain[i] == x;
      assert IsMember(scope, chain[i]);
      MemberIsTable(scope, tables, x);
    }
    NoDupCardinality(chain);
    SubsetCardinality(Elems(chain), tables);
  }

  lemma MemberIsTable(scope: Scope, tables: set<Table>, t: Table)
    requires IsMember(scope, t)
    requires scope.scoped.Keys <= tables && forall e :: e in scope.edges ==> e.table in tables
    ensures t in tables
  {
    var p :| Derives(scope, t, p);
    if p.InSubquery? {
      assert FkEdge(t, p.column, p.referencedTable, p.referencedColumn) in scope.edges;
    }
  }

  // ------------------------------------------------------ the membership fixpoint

  type Predicates = map<Table, seq<Predicate>>

  function PredicatesOf(predicates: Predicates, t: Table): seq<Predicate> {
    if t in predicates then predicates[t] else []
  }

  ghost predicate Sound(scope: Scope, predicates: Predicates) {
    && (forall t, p :: p in PredicatesOf(predicates, t) ==> Derives(scope, t, p))
    && (forall t :: t in predicates ==> predicates[t] != [])
  }

  ghost predicate Complete(scope: Scope, predicates: Predicates) {
    forall t, p :: Derives(scope, t, p) ==> p in PredicatesOf(predicates, t)
  }

  ghost predicate CompleteTo(scope: Scope, predicates: Predicates, depth: nat) {
    forall t, p :: Derives(scope, t, p) && Depth(p) <= depth ==> p in PredicatesOf(predicates, t)
  }

  ghost predicate Grown(before: Predicates, after: Predicates) {
    && before.Keys <= after.Keys
    && forall t, p :: p in PredicatesOf(before, t) ==> p in PredicatesOf(after, t)
  }

  // after holds everything that one application of e to before derives.
  ghost predicate Applied(scope: Scope, e: FkEdge, before: Predicates, after: Predicates) {
    Derivable(scope, e.table) ==>
      forall where :: where in PredicatesOf(before, e.referencedTable) ==>
        Derived(e, where) in PredicatesOf(after, e.table)
  }

  method ApplyEdge(scope: Scope, e: FkEdge, before: Predicates) returns (after: Predicates, changed: bool)
    requires Sound(scope, before) && e in scope.edges
    ensures Sound(scope, after) && Grown(before, after)
    ensures Applied(scope, e, before, after)
    ensures !changed ==> after == before
  {
    after, changed := before, false;
    if e.referencedTable !in before || e.table == scope.rootTable {
      return;
    }
    if e.table in scope.scoped || e.table in scope.policy {
      return;
    }
    assert e == FkEdge(e.table, e.column, e.referencedTable, e.referencedColumn);
    var parentPredicates := before[e.referencedTable];
    for i := 0 to |parentPredicates|
      invariant Sound(scope, after) && Grown(before, after)
      invariant forall j :: 0 <= j < i ==> Derived(e, parentPredicates[j]) in PredicatesOf(after, e.table)
      invariant !changed ==> after == before
    {
      var derived := Derived(e, parentPredicates[i]);
      assert parentPredicates[i] in PredicatesOf(before, e.referencedTable);
      assert Derives(scope, e.table, derived);
      if derived in PredicatesOf(after, e.table) {
        continue;
      }
      after := after[e.table := PredicatesOf(after, e.table) + [derived]];
      changed := true;
    }
  }

  // slices.SortFunc on (table, referenced table); ties may come out in any order.
  predicate EdgeLess(a: FkEdge, b: FkEdge) {
    if a.table != b.table then Text.Less(a.table, b.table) else Text.Less(a.referencedTable, b.referencedTable)
  }

  ghost predicate EdgesSorted(edges: seq<FkEdge>) {
    forall i, j :: 0 <= i < j < |edges| ==> !EdgeLess(edges[j], edges[i])
  }

  method SortedEdges(edges: seq<FkEdge>) returns (sorted: seq<FkEdge>)
    ensures multiset(sorted) == multiset(edges)
    ensures forall i, j :: 0 <= i < j < |sorted| ==>
      || Text.Less(sorted[i].table, sorted[j].table)
      || (&& sorted[i].table == sorted[j].table
          && !Text.Less(sorted[j].referencedTable, sorted[i].referencedTable))
  {
    sorted := [];
    for i := 0 to |edges|
      invariant multiset(sorted) == multiset(edges[..i])
      invariant EdgesSorted(sorted)
    {
      assert edges[..i + 1] == edges[..i] + [edges[i]];
      sorted := InsertEdge(edges[i], sorted);
    }
    assert edges[..|edges|] == edges;
    forall i, j | 0 <= i < j < |sorted|
      ensures
        || Text.Less(sorted[i].table, sorted[j].table)
        || (&& sorted[i].table == sorted[j].table
            && !Text.Less(sorted[j].referencedTable, sorted[i].referencedTable))
    {
      assert !EdgeLess(sorted[j], sorted[i]);
      Text.LessTrichotomy(sorted[i].table, sorted[j].table);
    }
  }

  method InsertEdge(e: FkEdge, edges: seq<FkEdge>) returns (longer: seq<FkEdge>)
    requires EdgesSorted(edges)
    ensures EdgesSorted(longer) && multiset(longer) == multiset(edges) + multiset{e}
  {
    var k := 0;
    while k < |edges| && !EdgeLess(e, edges[k])
      invariant 0 <= k <= |edges|
      invariant forall x :: 0 <= x < k ==> !EdgeLess(e, edges[x])
    {
      k := k + 1;
    }
    forall x | k <= x < |edges| ensures !EdgeLess(edges[x], e) {
      EdgeLessAsymmetric(e, edges[k]);
      if x > k && EdgeLess(edges[x], e) { EdgeLessTransitive(edges[x], e, edges[k]); }
    }
    assert edges == edges[..k] + edges[k..];
    longer := edges[..k] + [e] + edges[k..];
  }

  lemma EdgeLessTransitive(a: FkEdge, b: FkEdge, c: FkEdge)
    requires EdgeLess(a, b) && EdgeLess(b, c)
    ensures EdgeLess(a, c)
  {
    if a.table == b.table == c.table {
      Text.LessTransitive(a.referencedTable, b.referencedTable, c.referencedTable);
    } else if a.table != b.table && b.table != c.table {
      Text.LessTransitive(a.table, b.table, c.table);
      Text.LessTrichotomy(a.table, b.table);
    }
  }

  lemma EdgeLessAsymmetric(a: FkEdge, b: FkEdge)
    ensures !(EdgeLess(a, b) && EdgeLess(b, a))
  {
    Text.LessTrichotomy(a.table, b.table);
    Text.LessTrichotomy(a.referencedTable, b.referencedTable);
  }

  method Pass(scope: Scope, before: Predicates) returns (after: Predicates, changed: bool)
    requires Sound(scope, before)
    ensures Sound(scope, after) && Grown(before, after)
    ensures forall e :: e in scope.edges ==> Applied(scope, e, before, after)
    ensures !changed ==> after == before
  {
    after, changed := before, false;
    var sorted := SortedEdges(scope.edges);
    forall e ensures e in sorted <==> e in scope.edges {
      assert e in multiset(sorted) <==> e in multiset(scope.edges);
    }
    for i := 0 to |sorted|
      invariant Sound(scope, after) && Grown(before, after)
      invariant forall j :: 0 <= j < i ==> Applied(scope, sorted[j], before, after)
      invariant !changed ==> after == before
    {
      assert sorted[i] in sorted;
      var now, more := ApplyEdge(scope, sorted[i], after);
      after := now;
      changed := changed || more;
    }
  }

  method Saturate(scope: Scope, tables: set<Table>) returns (predicates: Predicates)
    requires scope.scoped.Keys <= tables && forall e :: e in scope.edges ==> e.table in tables
    ensures Sound(scope, predicates)
    ensures predicates.Keys == Members(scope, tables)
    ensures Complete(scope, predicates) <==> NoFeedCycle(scope)
  {
    predicates := map t | t in scope.scoped :: [ScopeEq(scope.scoped[t])];
    ghost var rounds := 0;
    for round := 0 to |tables|
      invariant Sound(scope, predicates)
      invariant CompleteTo(scope, predicates, round)
      invariant rounds == round
    {
      var after, changed := Pass(scope, predicates);
      RoundDeepens(scope, predicates, after, round);
      if !changed {
        UnchangedIsComplete(scope, predicates);
        break;
      }
      predicates := after;
      rounds := rounds + 1;
    }
    SaturationFinishes(scope, tables, predicates);
  }

  lemma RoundDeepens(scope: Scope, before: Predicates, after: Predicates, depth: nat)
    requires CompleteTo(scope, before, depth) && Grown(before, after)
    requires forall e :: e in scope.edges ==> Applied(scope, e, before, after)
    ensures CompleteTo(scope, after, depth + 1)
  {
    forall t, p | Derives(scope, t, p) && Depth(p) <= depth + 1 ensures p in PredicatesOf(after, t) {
      if Depth(p) == depth + 1 {
        var e := FkEdge(t, p.column, p.referencedTable, p.referencedColumn);
        assert Derives(scope, p.referencedTable, p.where) && Depth(p.where) <= depth;
        assert p.where in PredicatesOf(before, p.referencedTable);
        assert Applied(scope, e, before, after) && p == Derived(e, p.where);
      } else {
        assert p in PredicatesOf(before, t);
      }
    }
  }

  lemma UnchangedIsComplete(scope: Scope, predicates: Predicates)
    requires CompleteTo(scope, predicates, 0)
    requires forall e :: e in scope.edges ==> Applied(scope, e, predicates, predicates)
    ensures Complete(scope, predicates)
  {
    forall t, p | Derives(scope, t, p) ensures p in PredicatesOf(predicates, t) {
      ClosedReaches(scope, predicates, t, p);
    }
  }

  lemma {:induction false} ClosedReaches(scope: Scope, predicates: Predicates, t: Table, p: Predicate)
    requires CompleteTo(scope, predicates, 0)
    requires forall e :: e in scope.edges ==> Applied(scope, e, predicates, predicates)
    requires Derives(scope, t, p)
    ensures p in PredicatesOf(predicates, t)
    decreases p
  {
    if p.InSubquery? {
      ClosedReaches(scope, predicates, p.referencedTable, p.where);
      var e := FkEdge(t, p.column, p.referencedTable, p.referencedColumn);
      assert Applied(scope, e, predicates, predicates) && p == Derived(e, p.where);
    }
  }

  // Whatever stopped the loop, the tables found are exactly the members, and
  // the predicates are all there exactly when no table feeds itself.
  lemma SaturationFinishes(scope: Scope, tables: set<Table>, predicates: Predicates)
    requires scope.scoped.Keys <= tables && forall e :: e in scope.edges ==> e.table in tables
    requires Sound(scope, predicates)
    requires Complete(scope, predicates) || CompleteTo(scope, predicates, |tables|)
    ensures predicates.Keys == Members(scope, tables)
    ensures Complete(scope, predicates) <==> NoFeedCycle(scope)
  {
    forall t ensures t in predicates <==> t in Members(scope, tables) {
      if t in predicates {
        assert predicates[t][0] in PredicatesOf(predicates, t);
        MemberIsTable(scope, tables, t);
      }
      if IsMember(scope, t) {
        var p := ShallowDerivation(scope, tables, t);
        assert p in PredicatesOf(predicates, t);
      }
    }
    if NoFeedCycle(scope) {
      forall t, p | Derives(scope, t, p) ensures p in PredicatesOf(predicates, t) {
        ChainIsShort(scope, tables, t, p);
      }
    }
    if Complete(scope, predicates) {
      forall walk ensures !FeedCycle(scope, walk) {
        if FeedCycle(scope, walk) { CycleIsInexhaustible(scope, predicates, walk); }
      }
    }
  }

  // The tables with a derivation of depth at most n.
  ghost function Level(scope: Scope, tables: set<Table>, n: nat): set<Table> {
    set t | t in tables && exists p :: Derives(scope, t, p) && Depth(p) <= n
  }

  lemma LevelStep(scope: Scope, tables: set<Table>, n: nat)
    requires scope.scoped.Keys <= tables && forall e :: e in scope.edges ==> e.table in tables
    requires Level(scope, tables, n) == Level(scope, tables, n + 1)
    ensures Level(scope, tables, n + 1) == Level(scope, tables, n + 2)
  {
    var deep := Level(scope, tables, n + 2);
    forall t | t in deep ensures t in Level(scope, tables, n + 1) {
      var p :| Derives(scope, t, p) && Depth(p) <= n + 2;
      if p.InSubquery? {
        assert Derives(scope, p.referencedTable, p.where) && Depth(p.where) <= n + 1;
        MemberIsTable(scope, tables, p.referencedTable);
        assert p.referencedTable in Level(scope, tables, n + 1);
        var q :| Derives(scope, p.referencedTable, q) && Depth(q) <= n;
        var shorter := InSubquery(p.column, p.referencedColumn, p.referencedTable, q);
        assert Derives(scope, t, shorter) && Depth(shorter) <= n + 1;
      }
    }
  }

  lemma {:induction false} LevelStable(scope: Scope, tables: set<Table>, n: nat, m: nat)
    requires scope.scoped.Keys <= tables && forall e :: e in scope.edges ==> e.table in tables
    requires Level(scope, tables, n) == Level(scope, tables, n + 1) && n <= m
    ensures Level(scope, tables, m) == Level(scope, tables, n) == Level(scope, tables, m + 1)
    decreases m
  {
    if n < m {
      LevelStable(scope, tables, n, m - 1);
      LevelStep(scope, tables, m - 1);
    }
  }

  // Every derivation ends at a table with a scope column.
  lemma {:induction false} GroundLevel(scope: Scope, tables: set<Table>, t: Table, p: Predicate)
    requires Derives(scope, t, p)
    requires scope.scoped.Keys <= tables && forall e :: e in scope.edges ==> e.table in tables
    ensures Level(scope, tables, 0) != {}
    decreases p
  {
    if p.InSubquery? {
      GroundLevel(scope, tables, p.referencedTable, p.where);
    } else {
      MemberIsTable(scope, tables, t);
      assert Depth(p) <= 0;
      assert t in Level(scope, tables, 0);
    }
  }

  lemma {:induction false} LevelGrows(scope: Scope, tables: set<Table>, n: nat)
    requires scope.scoped.Keys <= tables && forall e :: e in scope.edges ==> e.table in tables
    requires Level(scope, tables, 0) != {}
    ensures
      || |Level(scope, tables, n)| > n
      || exists k :: 0 <= k < n && Level(scope, tables, k) == Level(scope, tables, k + 1)
  {
    if n > 0 {
      LevelGrows(scope, tables, n - 1);
      if Level(scope, tables, n - 1) != Level(scope, tables, n) {
        assert Level(scope, tables, n - 1) <= Level(scope, tables, n);
        SubsetCardinality(Level(scope, tables, n - 1), Level(scope, tables, n));
        if |Level(scope, tables, n - 1)| == |Level(scope, tables, n)| {
          SubsetOfEqualSize(Level(scope, tables, n - 1), Level(scope, tables, n));
        }
      }
    }
  }

  // Every member has a derivation with fewer subqueries than there are tables.
  lemma ShallowDerivation(scope: Scope, tables: set<Table>, t: Table) returns (p: Predicate)
    requires IsMember(scope, t)
    requires scope.scoped.Keys <= tables && forall e :: e in scope.edges ==> e.table in tables
    ensures Derives(scope, t, p) && Depth(p) < |tables|
  {
    var q :| Derives(scope, t, q);
    MemberIsTable(scope, tables, t);
    GroundLevel(scope, tables, t, q);
    var n := |tables|;
    assert t in Level(scope, tables, Depth(q));
    if Depth(q) >= n {
      LevelGrows(scope, tables, n);
      SubsetCardinality(Level(scope, tables, n), tables);
      var k :| 0 <= k < n && Level(scope, tables, k) == Level(scope, tables, k + 1);
      LevelStable(scope, tables, k, Depth(q));
      LevelStable(scope, tables, k, n - 1);
      assert t in Level(scope, tables, n - 1);
    }
    p :| Derives(scope, t, p) && Depth(p) < n;
  }

  // Once round a feeding cycle deepens a predicate, so no finite list has them all.
  lemma CycleIsInexhaustible(scope: Scope, predicates: Predicates, walk: seq<Table>)
    requires FeedCycle(scope, walk)
    ensures !Complete(scope, predicates)
  {
    var t := walk[0];
    var deepest := DeepestOf(PredicatesOf(predicates, t));
    assert IsMember(scope, t);
    var p := Deeper(scope, walk, deepest + 1);
    assert Derives(scope, t, p) && p !in PredicatesOf(predicates, t);
  }

  lemma {:induction false} DeepestOf(predicates: seq<Predicate>) returns (depth: nat)
    ensures forall p :: p in predicates ==> Depth(p) <= depth
  {
    if predicates == [] {
      depth := 0;
    } else {
      var rest := DeepestOf(predicates[1..]);
      depth := if Depth(predicates[0]) > rest then Depth(predicates[0]) else rest;
      assert predicates == [predicates[0]] + predicates[1..];
    }
  }

  lemma {:induction false} Deeper(scope: Scope, walk: seq<Table>, depth: nat) returns (p: Predicate)
    requires FeedCycle(scope, walk)
    ensures Derives(scope, walk[0], p) && Depth(p) >= depth
  {
    if depth == 0 {
      assert IsMember(scope, walk[0]);
      p :| Derives(scope, walk[0], p);
    } else {
      var q := Deeper(scope, walk, depth - 1);
      p := Around(scope, walk, q, 0);
    }
  }

  lemma {:induction false} Around(scope: Scope, walk: seq<Table>, q: Predicate, i: nat) returns (p: Predicate)
    requires FeedCycle(scope, walk) && i < |walk|
    requires Derives(scope, walk[|walk| - 1], q)
    ensures Derives(scope, walk[i], p) && Depth(p) == Depth(q) + |walk| - 1 - i
    decreases |walk| - i
  {
    if i == |walk| - 1 {
      p := q;
    } else {
      var inner := Around(scope, walk, q, i + 1);
      assert Feeds(scope, walk[i + 1], walk[i]);
      var e :| e in scope.edges && e.table == walk[i] && e.referencedTable == walk[i + 1];
      assert e == FkEdge(walk[i], e.column, walk[i + 1], e.referencedColumn);
      p := Derived(e, inner);
    }
  }

  // -------------------------------------------------------------------- the plan

  // A table whose predicates would have to read the table itself.
  ghost predicate SelfFed(scope: Scope) {
    exists e :: e in scope.edges && e.table == e.referencedTable && Derivable(scope, e.table)
  }

  // Steps run derivable predicates only, all of them, children before parents.
  ghost predicate SoundSteps(scope: Scope, steps: seq<DeleteStep>) {
    forall k :: 0 <= k < |steps| ==> Derives(scope, steps[k].table, steps[k].where)
  }

  ghost predicate OrderedSteps(scope: Scope, tables: set<Table>, steps: seq<DeleteStep>) {
    forall j, k :: 0 <= j < |steps| && 0 <= k < |steps| ==>
      ChildOf(Members(scope, tables), scope.edges, steps[j].table, steps[k].table) ==> j < k
  }

  ghost predicate ExhaustiveSteps(scope: Scope, steps: seq<DeleteStep>) {
    forall t, p :: Derives(scope, t, p) ==> DeleteStep(t, p) in steps
  }

  ghost predicate IsPlan(scope: Scope, tables: set<Table>, steps: seq<DeleteStep>) {
    SoundSteps(scope, steps) && OrderedSteps(scope, tables, steps) && ExhaustiveSteps(scope, steps) && !SelfFed(scope)
  }

  method ListScopedTables(catalog: Catalog, scopeColumns: seq<Column>) returns (scoped: map<Table, Column>)
    ensures scoped == FirstScopeColumns(catalog.columns, scopeColumns)
  {
    scoped := map[];
    for i := 0 to |catalog.columns|
      invariant scoped == FirstScopeColumns(catalog.columns[..i], scopeColumns)
    {
      assert catalog.columns[..i + 1] == catalog.columns[..i] + [catalog.columns[i]];
      var (table, column) := catalog.columns[i];
      if column in scopeColumns && table !in scoped {
        scoped := scoped[table := column];
      }
    }
    assert catalog.columns[..|catalog.columns|] == catalog.columns;
  }

  // Behind the foreign keys come those of the first i extra edges whose two tables
  // exist, in their order; at has their places.
  ghost predicate AddedAt(
    tables: set<Table>, foreignKeys: seq<FkEdge>, extraEdges: seq<FkEdge>, i: nat, edges: seq<FkEdge>, at: seq<nat>)
    requires i <= |extraEdges|
  {
    && foreignKeys <= edges && |edges| == |foreignKeys| + |at|
    && (forall k :: 0 <= k < |at| ==> at[k] < i && edges[|foreignKeys| + k] == extraEdges[at[k]])
    && (forall j, k :: 0 <= j < k < |at| ==> at[j] < at[k])
    && (forall j: nat :: j in at <==>
         j < i && extraEdges[j].table in tables && extraEdges[j].referencedTable in tables)
  }

  lemma AddedStep(
    tables: set<Table>, foreignKeys: seq<FkEdge>, extraEdges: seq<FkEdge>, i: nat, edges: seq<FkEdge>, at: seq<nat>)
    requires i < |extraEdges| && AddedAt(tables, foreignKeys, extraEdges, i, edges, at)
    ensures if extraEdges[i].table in tables && extraEdges[i].referencedTable in tables
            then AddedAt(tables, foreignKeys, extraEdges, i + 1, edges + [extraEdges[i]], at + [i])
            else AddedAt(tables, foreignKeys, extraEdges, i + 1, edges, at)
  {
    assert forall j :: j in at + [i] <==> j in at || j == i;
  }

  lemma ExistingStep(tables: set<Table>, foreignKeys: seq<FkEdge>, extraEdges: seq<FkEdge>, i: nat)
    requires i < |extraEdges|
    ensures foreignKeys + Existing(tables, extraEdges[..i + 1])
         == foreignKeys + Existing(tables, extraEdges[..i])
            + if extraEdges[i].table in tables && extraEdges[i].referencedTable in tables then [extraEdges[i]] else []
  {
    assert extraEdges[..i + 1][..i] == extraEdges[..i];
  }

  method AppendExistingExtraEdges(tables: set<Table>, foreignKeys: seq<FkEdge>, extraEdges: seq<FkEdge>)
    returns (r: Result<seq<FkEdge>>, ghost at: seq<nat>)
    ensures r.Ok? <==> forall e :: e in extraEdges ==>
      && IsSafeIdentifier(e.table) && IsSafeIdentifier(e.column)
      && IsSafeIdentifier(e.referencedTable) && IsSafeIdentifier(e.referencedColumn)
    ensures r.Ok? ==> AddedAt(tables, foreignKeys, extraEdges, |extraEdges|, r.value, at)
    ensures r.Ok? ==> r.value == foreignKeys + Existing(tables, extraEdges)
    ensures r.Err? ==> r.error == UnsafeIdentifier
  {
    var edges := foreignKeys;
    at := [];
    assert AddedAt(tables, foreignKeys, extraEdges, 0, edges, at) && extraEdges[..0] == [];
    hide AddedAt, Existing;
    for i := 0 to |extraEdges|
      invariant edges == foreignKeys + Existing(tables, extraEdges[..i])
      invariant forall j :: 0 <= j < i ==> SafeEdge(extraEdges[j])
      invariant AddedAt(tables, foreignKeys, extraEdges, i, edges, at)
    {
      var e := extraEdges[i];
      if !SafeEdge(e) {
        return Err(UnsafeIdentifier), at;
      }
      ExistingStep(tables, foreignKeys, extraEdges, i);
      AddedStep(tables, foreignKeys, extraEdges, i, edges, at);
      if e.table in tables && e.referencedTable in tables {
        edges, at := edges + [e], at + [i];
      }
    }
    assert extraEdges[..|extraEdges|] == extraEdges;
    return Ok(edges), at;
  }

  method CheckScope(scope: Scope) returns (failure: Result<()>)
    ensures failure.Ok? <==> AllSafe(scope, []) && Covered(scope)
    ensures failure.Err? && failure.error == UnsafeIdentifier ==> !AllSafe(scope, [])
    ensures failure.Err? && failure.error != UnsafeIdentifier ==>
      && AllSafe(scope, []) && failure.error.Uncovered?
      && UncoveredBy(scope, failure.error.table)
  {
    if exists t :: t in scope.scoped && !(IsSafeIdentifier(t) && IsSafeIdentifier(scope.scoped[t])) {
      return Err(UnsafeIdentifier);
    }
    for i := 0 to |scope.edges|
      invariant forall j :: 0 <= j < i ==> SafeEdge(scope.edges[j])
    {
      if !SafeEdge(scope.edges[i]) {
        return Err(UnsafeIdentifier);
      }
    }
    for i := 0 to |scope.edges|
      invariant forall j :: 0 <= j < i ==> !Gap(scope, scope.edges[j])
    {
      if Gap(scope, scope.edges[i]) {
        return Err(Uncovered(scope.edges[i].table));
      }
    }
    return Ok(());
  }

  method WriteSteps(scope: Scope, tables: set<Table>, predicates: Predicates, order: seq<Table>)
    returns (steps: seq<DeleteStep>)
    requires Sound(scope, predicates) && predicates.Keys == Members(scope, tables)
    requires ChildrenFirst(Members(scope, tables), scope.edges, order)
    ensures SoundSteps(scope, steps) && OrderedSteps(scope, tables, steps)
    ensures forall t, p :: p in PredicatesOf(predicates, t) ==> DeleteStep(t, p) in steps
  {
    steps := [];
    for i := 0 to |order|
      invariant SoundSteps(scope, steps) && OrderedSteps(scope, tables, steps)
      invariant forall k :: 0 <= k < |steps| ==> steps[k].table in order[..i]
      invariant forall a, p :: 0 <= a < i && p in PredicatesOf(predicates, order[a]) ==>
        DeleteStep(order[a], p) in steps
    {
      var table := order[i];
      var own := predicates[table];
      for j := 0 to |own|
        invariant SoundSteps(scope, steps) && OrderedSteps(scope, tables, steps)
        invariant forall k :: 0 <= k < |steps| ==> steps[k].table in order[..i + 1]
        invariant forall a, p :: 0 <= a < i && p in PredicatesOf(predicates, order[a]) ==>
          DeleteStep(order[a], p) in steps
        invariant forall l :: 0 <= l < j ==> DeleteStep(table, own[l]) in steps
      {
        AppendKeepsOrder(scope, tables, order, i, steps, own[j]);
        assert own[j] in PredicatesOf(predicates, table);
        steps := steps + [DeleteStep(table, own[j])];
      }
    }
    forall t, p | p in PredicatesOf(predicates, t) ensures DeleteStep(t, p) in steps {
      assert t in Elems(order);
      var a :| 0 <= a < |order| && order[a] == t;
    }
  }

  lemma AppendKeepsOrder(
    scope: Scope, tables: set<Table>, order: seq<Table>, i: nat, steps: seq<DeleteStep>, p: Predicate)
    requires ChildrenFirst(Members(scope, tables), scope.edges, order) && i < |order|
    requires OrderedSteps(scope, tables, steps)
    requires forall k :: 0 <= k < |steps| ==> steps[k].table in order[..i + 1]
    ensures OrderedSteps(scope, tables, steps + [DeleteStep(order[i], p)])
  {
    var members, longer := Members(scope, tables), steps + [DeleteStep(order[i], p)];
    forall k | 0 <= k < |longer| ensures !ChildOf(members, scope.edges, order[i], longer[k].table) {
      var a :| 0 <= a < i + 1 && order[a] == longer[k].table;
    }
    forall j, k | 0 <= j < |longer| && 0 <= k < |longer|
        && ChildOf(members, scope.edges, longer[j].table, longer[k].table)
      ensures j < k
    {
      assert j < |steps|;
      if k < |steps| {
        assert ChildOf(members, scope.edges, steps[j].table, steps[k].table);
      }
    }
  }

  lemma PlanHasNoFeedCycle(scope: Scope, tables: set<Table>)
    requires scope.scoped.Keys <= tables && forall e :: e in scope.edges ==> e.table in tables
    requires Acyclic(Members(scope, tables), scope.edges) && !SelfFed(scope)
    ensures NoFeedCycle(scope)
  {
    forall walk ensures !FeedCycle(scope, walk) {
      if FeedCycle(scope, walk) {
        forall i | 0 <= i < |walk| - 1 ensures ChildOf(Members(scope, tables), scope.edges, walk[i], walk[i + 1]) {
          assert Feeds(scope, walk[i + 1], walk[i]);
          var e :| e in scope.edges && e.table == walk[i] && e.referencedTable == walk[i + 1];
          MemberIsTable(scope, tables, walk[i]);
          MemberIsTable(scope, tables, walk[i + 1]);
          assert Relevant(Members(scope, tables), e);
        }
        assert IsCycle(Members(scope, tables), scope.edges, walk);
      }
    }
  }

  method BuildScopedDeletePlan(catalog: Catalog, spec: DeleteSpec) returns (r: Result<seq<DeleteStep>>)
    requires WellFormed(catalog)
    ensures var scope := ScopeOf(catalog, spec);
            var members := Members(scope, catalog.tables);
            && (r.Ok? <==> AllSafe(scope, spec.extraEdges) && Covered(scope) && Acyclic(members, scope.edges))
            && (r.Ok? ==> SoundSteps(scope, r.value) && OrderedSteps(scope, catalog.tables, r.value))
            && (r.Ok? ==> forall t :: t in scope.scoped ==> DeleteStep(t, ScopeEq(scope.scoped[t])) in r.value)
            && (r.Ok? && !SelfFed(scope) ==> IsPlan(scope, catalog.tables, r.value))
            && (r.Err? ==> match r.error
                case UnsafeIdentifier => !AllSafe(scope, spec.extraEdges)
                case Uncovered(t) => AllSafe(scope, spec.extraEdges) && UncoveredBy(scope, t)
                case ForeignKeyCycle(remaining) =>
                  && AllSafe(scope, spec.extraEdges) && Covered(scope)
                  && remaining != [] && Stuck(members, scope.edges, Elems(remaining)))
  {
    var scoped := ListScopedTables(catalog, spec.scopeColumns);
    var appended, at := AppendExistingExtraEdges(catalog.tables, catalog.foreignKeys, spec.extraEdges);
    if appended.Err? {
      return Err(UnsafeIdentifier);
    }
    var scope := Scope(
      spec.rootTable,
      map t | t in scoped && t != spec.rootTable && t in catalog.tables :: scoped[t],
      Elems(spec.policyTables),
      appended.value);
    assert scope == ScopeOf(catalog, spec);
    EdgesHaveTables(catalog, spec.extraEdges);
    var failure := CheckScope(scope);
    if failure.Err? {
      return Err(failure.error);
    }
    var predicates := Saturate(scope, catalog.tables);
    var ordered := OrderChildrenFirst(predicates.Keys, scope.edges);
    if ordered.CycleAmong? {
      return Err(ForeignKeyCycle(ordered.remaining));
    }
    var steps := WriteSteps(scope, catalog.tables, predicates, ordered.order);
    forall t | t in scope.scoped ensures DeleteStep(t, ScopeEq(scope.scoped[t])) in steps {
      ScopedTableHasPredicate(scope, catalog.tables, predicates, t);
    }
    if !SelfFed(scope) {
      PlanHasNoFeedCycle(scope, catalog.tables);
    }
    return Ok(steps);
  }

  lemma ScopedTableHasPredicate(scope: Scope, tables: set<Table>, predicates: Predicates, t: Table)
    requires Sound(scope, predicates) && predicates.Keys == Members(scope, tables)
    requires t in scope.scoped && t in tables
    ensures ScopeEq(scope.scoped[t]) in PredicatesOf(predicates, t)
  {
    assert Derives(scope, t, ScopeEq(scope.scoped[t]));
    assert predicates[t][0] in PredicatesOf(predicates, t);
  }

  lemma {:induction false} EdgesHaveTables(catalog: Catalog, extraEdges: seq<FkEdge>)
    requires WellFormed(catalog)
    ensures forall e :: e in catalog.foreignKeys + Existing(catalog.tables, extraEdges) ==> e.table in catalog.tables
  {
    if extraEdges != [] {
      EdgesHaveTables(catalog, extraEdges[..|extraEdges| - 1]);
    }
  }

  // ---------------------------------------------------------------- running it

  predicate Holds(db: Database, p: Predicate, row: Row, id: int)
    decreases p
  {
    match p
    case ScopeEq(column) => Cell(row, column) == Val(id)
    case InSubquery(column, referencedColumn, referencedTable, where) =>
      exists parent ::
        parent in Rows(db, referencedTable) && Matches(Cell(row, column), Cell(parent, referencedColumn))
          && Holds(db, where, parent, id)
  }

  // DELETE FROM step.table WHERE step.where
  ghost function AfterStep(db: Database, step: DeleteStep, id: int): Database {
    db[step.table := Select(Rows(db, step.table), row => !Holds(db, step.where, row, id))]
  }

  ghost function AfterSteps(db: Database, steps: seq<DeleteStep>, id: int): Database {
    if steps == [] then db
    else AfterStep(AfterSteps(db, steps[..|steps| - 1], id), steps[|steps| - 1], id)
  }

  class Engine {
    var tables: Database

    constructor (db: Database)
      ensures tables == db
    {
      tables := db;
    }

    method Delete(step: DeleteStep, id: int)
      modifies this
      ensures tables == AfterStep(old(tables), step, id)
    {
      var db := tables;
      var kept: multiset<Row> := multiset{};
      var rest := Rows(db, step.table);
      while rest != multiset{}
        invariant forall row :: rest[row] == 0 || rest[row] == Rows(db, step.table)[row]
        invariant forall row ::
          kept[row] == if rest[row] > 0 || Holds(db, step.where, row, id) then 0 else Rows(db, step.table)[row]
        decreases |rest|
      {
        var row :| row in rest;
        if !Holds(db, step.where, row, id) {
          kept := kept[row := rest[row]];
        }
        rest := rest[row := 0];
      }
      assert kept == Select(Rows(db, step.table), row => !Holds(db, step.where, row, id));
      tables := db[step.table := kept];
    }

    method Run(steps: seq<DeleteStep>, id: int)
      modifies this
      ensures tables == AfterSteps(old(tables), steps, id)
    {
      for k := 0 to |steps|
        invariant tables == AfterSteps(old(tables), steps[..k], id)
      {
        assert steps[..k + 1][..k] == steps[..k];
        Delete(steps[k], id);
      }
      assert steps[..|steps|] == steps;
    }

    // deleteSiteChildren
    method DeleteScoped(catalog: Catalog, spec: DeleteSpec, id: int) returns (r: Result<seq<DeleteStep>>)
      requires WellFormed(catalog)
      modifies this
      ensures var scope := ScopeOf(catalog, spec);
              r.Ok? <==>
                && AllSafe(scope, spec.extraEdges) && Covered(scope)
                && Acyclic(Members(scope, catalog.tables), scope.edges)
      ensures r.Ok? ==> ScopedRowsGone(catalog, spec, old(tables), tables, id)
      ensures r.Ok? && !SelfReferencing(catalog, spec) ==> FollowersGone(catalog, spec, old(tables), tables)
      ensures r.Ok? ==> OthersStay(catalog, spec, old(tables), tables)
      ensures r.Ok? ==> SoundSteps(ScopeOf(catalog, spec), r.value) && Covered(ScopeOf(catalog, spec))
      ensures r.Ok? && !SelfFed(ScopeOf(catalog, spec)) ==> IsPlan(ScopeOf(catalog, spec), catalog.tables, r.value)
      ensures r.Ok? ==> tables == AfterSteps(old(tables), r.value, id)
      ensures r.Ok? && !SelfFed(ScopeOf(catalog, spec)) ==>
        OwnedRemoved(old(tables), tables, ScopeOf(catalog, spec), id)
      ensures r.Err? ==> tables == old(tables)
    {
      hide Members, Acyclic, ScopeOf, AllSafe, Derives, ScopedRowsGone, FollowersGone, OthersStay, SoundSteps;
      hide SelfFed, SelfReferencing, OwnedRemoved, AfterSteps, WellFormed, Covered;
      ghost var db := tables;
      r := BuildScopedDeletePlan(catalog, spec);
      if r.Ok? {
        Run(r.value, id);
        EdgesHaveTables(catalog, spec.extraEdges);
        ScopedRowsGo(db, catalog, spec, r.value, id);
        OtherTablesStay(db, catalog, spec, r.value, id);
        SelfReferencingIsSelfFed(catalog, spec);
        if !SelfFed(ScopeOf(catalog, spec)) {
          TablesOfScope(catalog, spec);
          PlanRemovesExactlyOwned(db, ScopeOf(catalog, spec), catalog.tables, r.value, id);
          FollowersGo(db, tables, catalog, spec, id);
        }
      }
    }
  }

  // ------------------------------ what it does, said with catalog and request alone

  // A table with scope columns loses the rows that have the id in the first of them.
  ghost predicate ScopedRowsGone(catalog: Catalog, spec: DeleteSpec, before: Database, after: Database, id: int) {
    forall i :: 0 <= i < |catalog.columns| ==>
      var (t, c) := catalog.columns[i];
      t in catalog.tables && t != spec.rootTable && c in spec.scopeColumns
      && (forall j :: 0 <= j < i && catalog.columns[j].0 == t ==> catalog.columns[j].1 !in spec.scopeColumns) ==>
        forall row {:trigger Rows(after, t)[row]} ::
          Rows(after, t)[row] == if c in row && row[c] == id then 0 else Rows(before, t)[row]
  }

  ghost predicate HasScopeColumn(catalog: Catalog, spec: DeleteSpec, t: Table) {
    exists i :: 0 <= i < |catalog.columns| && catalog.columns[i].0 == t && catalog.columns[i].1 in spec.scopeColumns
  }

  // A table without one, unless policy code has it, loses the rows that reference
  // a lost row.
  ghost predicate FollowersGone(catalog: Catalog, spec: DeleteSpec, before: Database, after: Database) {
    forall t, row {:trigger Rows(after, t)[row]} ::
      t in catalog.tables && t != spec.rootTable && t !in spec.policyTables && !HasScopeColumn(catalog, spec, t) ==>
        Rows(after, t)[row] == if LosesParent(catalog, spec, before, after, t, row) then 0 else Rows(before, t)[row]
  }

  // Every other table, the root included, stays as it is.
  ghost predicate OthersStay(catalog: Catalog, spec: DeleteSpec, before: Database, after: Database) {
    forall t {:trigger Rows(after, t)} ::
      t !in catalog.tables || t == spec.rootTable || (t in spec.policyTables && !HasScopeColumn(catalog, spec, t)) ==>
        Rows(after, t) == Rows(before, t)
  }

  // The relationships a plan follows
  ghost predicate References(catalog: Catalog, spec: DeleteSpec, e: FkEdge) {
    || e in catalog.foreignKeys
    || (e in spec.extraEdges && e.table in catalog.tables && e.referencedTable in catalog.tables)
  }

  ghost predicate LosesParent(
    catalog: Catalog, spec: DeleteSpec, before: Database, after: Database, t: Table, row: Row)
  {
    exists e :: References(catalog, spec, e) && e.table == t && ParentLost(before, after, e, row)
  }

  ghost predicate ParentLost(before: Database, after: Database, e: FkEdge, row: Row) {
    exists parent :: parent in Rows(before, e.referencedTable) && parent !in Rows(after, e.referencedTable)
      && e.column in row && e.referencedColumn in parent && row[e.column] == parent[e.referencedColumn]
  }

  // A table that has neither scope column nor policy references itself.
  ghost predicate SelfReferencing(catalog: Catalog, spec: DeleteSpec) {
    exists e :: References(catalog, spec, e) && e.table == e.referencedTable
      && e.table != spec.rootTable && e.table !in spec.policyTables && !HasScopeColumn(catalog, spec, e.table)
  }

  lemma TablesOfScope(catalog: Catalog, spec: DeleteSpec)
    requires WellFormed(catalog)
    ensures ScopeOf(catalog, spec).scoped.Keys <= catalog.tables
    ensures forall e :: e in ScopeOf(catalog, spec).edges ==> e.table in catalog.tables
  {
    EdgesHaveTables(catalog, spec.extraEdges);
  }

  lemma SelfReferencingIsSelfFed(catalog: Catalog, spec: DeleteSpec)
    requires WellFormed(catalog)
    ensures SelfFed(ScopeOf(catalog, spec)) <==> SelfReferencing(catalog, spec)
  {
    ScopeMeans(catalog, spec);
    hide ScopeOf;
    var scope := ScopeOf(catalog, spec);
    if SelfFed(scope) {
      var e :| e in scope.edges && e.table == e.referencedTable && Derivable(scope, e.table);
      assert References(catalog, spec, e) && !HasScopeColumn(catalog, spec, e.table);
    }
    if SelfReferencing(catalog, spec) {
      var e :| References(catalog, spec, e) && e.table == e.referencedTable
        && e.table != spec.rootTable && e.table !in spec.policyTables && !HasScopeColumn(catalog, spec, e.table);
      assert e in scope.edges && Derivable(scope, e.table);
    }
  }

  ghost predicate StepOn(steps: seq<DeleteStep>, k: nat, t: Table) {
    exists j :: 0 <= j < k && j < |steps| && steps[j].table == t
  }

  lemma StepOnStep(steps: seq<DeleteStep>, k: nat, t: Table)
    requires 0 < k <= |steps|
    ensures StepOn(steps, k, t) <==> StepOn(steps, k - 1, t) || steps[k - 1].table == t
  {
  }

  lemma {:induction false} AfterScopedSteps(
    db: Database, scope: Scope, steps: seq<DeleteStep>, k: nat, t: Table, row: Row, id: int)
    requires SoundSteps(scope, steps) && t in scope.scoped && k <= |steps|
    ensures Rows(AfterSteps(db, steps[..k], id), t)[row] ==
      if Cell(row, scope.scoped[t]) == Val(id) && StepOn(steps, k, t) then 0 else Rows(db, t)[row]
    decreases k
  {
    if k == 0 {
      assert steps[..k] == [];
    } else {
      hide AfterSteps, AfterStep, StepOn, Rows, Cell, SoundSteps;
      AfterScopedSteps(db, scope, steps, k - 1, t, row, id);
      StepOnStep(steps, k, t);
      LastStep(db, steps, k, id);
      StepIsSound(scope, steps, k - 1);
      OneScopedStep(AfterSteps(db, steps[..k - 1], id), scope, steps[k - 1], t, row, id);
    }
  }

  lemma StepIsSound(scope: Scope, steps: seq<DeleteStep>, k: nat)
    requires SoundSteps(scope, steps) && k < |steps|
    ensures Derives(scope, steps[k].table, steps[k].where)
  {
  }

  lemma LastStep(db: Database, steps: seq<DeleteStep>, k: nat, id: int)
    requires 0 < k <= |steps|
    ensures AfterSteps(db, steps[..k], id) == AfterStep(AfterSteps(db, steps[..k - 1], id), steps[k - 1], id)
  {
    assert steps[..k][..k - 1] == steps[..k - 1];
  }

  lemma OneScopedStep(db: Database, scope: Scope, step: DeleteStep, t: Table, row: Row, id: int)
    requires t in scope.scoped && Derives(scope, step.table, step.where)
    ensures Rows(AfterStep(db, step, id), t)[row] ==
      if step.table == t && Cell(row, scope.scoped[t]) == Val(id) then 0 else Rows(db, t)[row]
  {
  }

  lemma ScopedRowsGo(db: Database, catalog: Catalog, spec: DeleteSpec, steps: seq<DeleteStep>, id: int)
    requires SoundSteps(ScopeOf(catalog, spec), steps)
    requires var scope := ScopeOf(catalog, spec);
             forall t :: t in scope.scoped ==> DeleteStep(t, ScopeEq(scope.scoped[t])) in steps
    ensures ScopedRowsGone(catalog, spec, db, AfterSteps(db, steps, id), id)
  {
    hide ScopeOf, SoundSteps, AfterSteps;
    var scope := ScopeOf(catalog, spec);
    ScopeMeans(catalog, spec);
    assert steps[..|steps|] == steps;
    forall i, row | 0 <= i < |catalog.columns| && FirstScopeColumn(catalog.columns, spec.scopeColumns, i)
        && catalog.columns[i].0 in catalog.tables && catalog.columns[i].0 != spec.rootTable
      ensures Rows(AfterSteps(db, steps, id), catalog.columns[i].0)[row]
        == if catalog.columns[i].1 in row && row[catalog.columns[i].1] == id then 0
           else Rows(db, catalog.columns[i].0)[row]
    {
      var t := catalog.columns[i].0;
      assert t in scope.scoped;
      AfterScopedSteps(db, scope, steps, |steps|, t, row, id);
      var j :| 0 <= j < |steps| && steps[j] == DeleteStep(t, ScopeEq(scope.scoped[t]));
    }
  }

  lemma OtherTablesStay(db: Database, catalog: Catalog, spec: DeleteSpec, steps: seq<DeleteStep>, id: int)
    requires WellFormed(catalog) && SoundSteps(ScopeOf(catalog, spec), steps)
    ensures OthersStay(catalog, spec, db, AfterSteps(db, steps, id))
  {
    TablesOfScope(catalog, spec);
    ScopeMeans(catalog, spec);
    hide ScopeOf, AfterSteps;
    var scope := ScopeOf(catalog, spec);
    assert steps[..|steps|] == steps;
    forall t | t !in scope.scoped && (t !in catalog.tables || t == spec.rootTable || t in spec.policyTables)
      ensures Rows(AfterSteps(db, steps, id), t) == Rows(db, t)
    {
      forall k | 0 <= k < |steps| ensures steps[k].table != t {
        assert Derives(scope, steps[k].table, steps[k].where);
        if steps[k].where.InSubquery? {
          var p := steps[k].where;
          assert FkEdge(steps[k].table, p.column, p.referencedTable, p.referencedColumn) in scope.edges;
        }
      }
      OtherTablesKeep(db, steps, |steps|, t, id);
    }
  }

  // The row references one that belongs to the scope.
  ghost predicate ParentOwned(db: Database, scope: Scope, e: FkEdge, row: Row, id: int) {
    exists parent :: parent in Rows(db, e.referencedTable)
      && Matches(Cell(row, e.column), Cell(parent, e.referencedColumn))
      && Owned(db, scope, e.referencedTable, parent, id)
  }

  lemma OwnedThroughParent(db: Database, scope: Scope, t: Table, row: Row, id: int)
    requires Derivable(scope, t)
    ensures Owned(db, scope, t, row, id) <==>
      exists e :: e in scope.edges && e.table == t && ParentOwned(db, scope, e, row, id)
  {
    if Owned(db, scope, t, row, id) {
      var hops: nat :| OwnedWithin(db, scope, t, row, id, hops);
      var e, parent :| e in scope.edges && e.table == t && parent in Rows(db, e.referencedTable)
        && Matches(Cell(row, e.column), Cell(parent, e.referencedColumn))
        && OwnedWithin(db, scope, e.referencedTable, parent, id, hops - 1);
      assert Owned(db, scope, e.referencedTable, parent, id);
      assert ParentOwned(db, scope, e, row, id);
    }
    if exists e :: e in scope.edges && e.table == t && ParentOwned(db, scope, e, row, id) {
      var e :| e in scope.edges && e.table == t && ParentOwned(db, scope, e, row, id);
      var parent :| parent in Rows(db, e.referencedTable)
        && Matches(Cell(row, e.column), Cell(parent, e.referencedColumn))
        && Owned(db, scope, e.referencedTable, parent, id);
      var hops: nat :| OwnedWithin(db, scope, e.referencedTable, parent, id, hops);
      assert OwnedWithin(db, scope, t, row, id, hops + 1);
    }
  }

  lemma LostParentIsOwned(db: Database, after: Database, scope: Scope, e: FkEdge, row: Row, id: int)
    requires OwnedRemoved(db, after, scope, id)
    ensures ParentLost(db, after, e, row) <==> ParentOwned(db, scope, e, row, id)
  {
    hide Owned;
    var p := e.referencedTable;
    assert Rows(after, p) == Select(Rows(db, p), row => !Owned(db, scope, p, row, id));
    forall parent | parent in Rows(db, p)
      ensures parent !in Rows(after, p) <==> Owned(db, scope, p, parent, id)
    {
      assert Rows(after, p)[parent] == if !Owned(db, scope, p, parent, id) then Rows(db, p)[parent] else 0;
    }
  }

  lemma FollowersGo(db: Database, after: Database, catalog: Catalog, spec: DeleteSpec, id: int)
    requires OwnedRemoved(db, after, ScopeOf(catalog, spec), id)
    ensures FollowersGone(catalog, spec, db, after)
  {
    ScopeMeans(catalog, spec);
    hide ScopeOf;
    var scope := ScopeOf(catalog, spec);
    forall t, row | Derivable(scope, t)
      ensures Rows(after, t)[row] ==
        if LosesParent(catalog, spec, db, after, t, row) then 0 else Rows(db, t)[row]
    {
      hide Owned, ParentLost, ParentOwned;
      OwnedThroughParent(db, scope, t, row, id);
      forall e | e in scope.edges
        ensures References(catalog, spec, e) && (ParentLost(db, after, e, row) <==> ParentOwned(db, scope, e, row, id))
      {
        LostParentIsOwned(db, after, scope, e, row, id);
      }
      assert Rows(after, t) == Select(Rows(db, t), row => !Owned(db, scope, t, row, id));
      assert forall e :: References(catalog, spec, e) ==> e in scope.edges;
    }
  }

  // -------------------------------------------------------- what the plan removes

  // A row belongs to the scope if it carries the scope id, or if its table has
  // no scope column and the row references, through some chain of foreign keys,
  // a row that does.
  ghost predicate OwnedWithin(db: Database, scope: Scope, t: Table, row: Row, id: int, hops: nat)
    decreases hops
  {
    || (t in scope.scoped && Cell(row, scope.scoped[t]) == Val(id))
    || (hops > 0 && Derivable(scope, t) &&
        exists e, parent :: e in scope.edges && e.table == t && parent in Rows(db, e.referencedTable)
          && Matches(Cell(row, e.column), Cell(parent, e.referencedColumn))
          && OwnedWithin(db, scope, e.referencedTable, parent, id, hops - 1))
  }

  ghost predicate Owned(db: Database, scope: Scope, t: Table, row: Row, id: int) {
    exists hops: nat :: OwnedWithin(db, scope, t, row, id, hops)
  }

  // Every table lost its owned rows and kept all others, with multiplicity.
  ghost predicate OwnedRemoved(before: Database, after: Database, scope: Scope, id: int) {
    forall t :: Rows(after, t) == Select(Rows(before, t), row => !Owned(before, scope, t, row, id))
  }

  lemma {:induction false} DerivedRowsAreOwned(db: Database, scope: Scope, t: Table, p: Predicate, row: Row, id: int)
    requires Derives(scope, t, p) && Holds(db, p, row, id)
    ensures OwnedWithin(db, scope, t, row, id, Depth(p))
    decreases p
  {
    if p.InSubquery? {
      var parent :| parent in Rows(db, p.referencedTable)
          && Matches(Cell(row, p.column), Cell(parent, p.referencedColumn)) && Holds(db, p.where, parent, id);
      DerivedRowsAreOwned(db, scope, p.referencedTable, p.where, parent, id);
      var e := FkEdge(t, p.column, p.referencedTable, p.referencedColumn);
      assert e in scope.edges && e.table == t;
    }
  }

  lemma {:induction false} OwnedRowsAreDerived(db: Database, scope: Scope, t: Table, row: Row, id: int, hops: nat)
    returns (p: Predicate)
    requires OwnedWithin(db, scope, t, row, id, hops)
    ensures Derives(scope, t, p) && Holds(db, p, row, id)
    decreases hops
  {
    if t in scope.scoped && Cell(row, scope.scoped[t]) == Val(id) {
      p := ScopeEq(scope.scoped[t]);
    } else {
      var e, parent :| e in scope.edges && e.table == t && parent in Rows(db, e.referencedTable)
          && Matches(Cell(row, e.column), Cell(parent, e.referencedColumn))
          && OwnedWithin(db, scope, e.referencedTable, parent, id, hops - 1);
      var where := OwnedRowsAreDerived(db, scope, e.referencedTable, parent, id, hops - 1);
      assert e == FkEdge(t, e.column, e.referencedTable, e.referencedColumn);
      p := Derived(e, where);
    }
  }

  ghost function Reads(p: Predicate): set<Table> {
    match p
    case ScopeEq(_) => {}
    case InSubquery(_, _, referencedTable, where) => {referencedTable} + Reads(where)
  }

  lemma {:induction false} HoldsReads(db: Database, db': Database, p: Predicate, row: Row, id: int)
    requires forall t :: t in Reads(p) ==> Rows(db, t) == Rows(db', t)
    ensures Holds(db, p, row, id) == Holds(db', p, row, id)
    decreases p
  {
    if p.InSubquery? {
      assert p.referencedTable in Reads(p);
      forall parent | parent in Rows(db, p.referencedTable)
        ensures Holds(db, p.where, parent, id) == Holds(db', p.where, parent, id)
      {
        HoldsReads(db, db', p.where, parent, id);
      }
    }
  }

  // A step never reads a table that an earlier step has changed.
  lemma {:induction false} ReadsLater(scope: Scope, tables: set<Table>, steps: seq<DeleteStep>, k: nat, j: nat)
    requires IsPlan(scope, tables, steps)
    requires scope.scoped.Keys <= tables && forall e :: e in scope.edges ==> e.table in tables
    requires k < |steps| && j < |steps| && steps[j].table in Reads(steps[k].where)
    ensures k < j
    decreases steps[k].where
  {
    var t, p := steps[k].table, steps[k].where;
    var e := FkEdge(t, p.column, p.referencedTable, p.referencedColumn);
    assert e in scope.edges && Derives(scope, t, p) && Derives(scope, p.referencedTable, p.where);
    MemberIsTable(scope, tables, t);
    MemberIsTable(scope, tables, p.referencedTable);
    assert DeleteStep(p.referencedTable, p.where) in steps;
    var m :| 0 <= m < |steps| && steps[m] == DeleteStep(p.referencedTable, p.where);
    assert Relevant(Members(scope, tables), e);
    assert ChildOf(Members(scope, tables), scope.edges, t, p.referencedTable);
    assert ChildOf(Members(scope, tables), scope.edges, steps[k].table, steps[m].table);
    if steps[j].table != p.referencedTable {
      ReadsLater(scope, tables, steps, m, j);
    } else {
      assert ChildOf(Members(scope, tables), scope.edges, steps[k].table, steps[j].table);
    }
  }

  // The row is selected, judged on the rows before the plan, by one of the first k steps.
  ghost predicate Doomed(db: Database, steps: seq<DeleteStep>, k: nat, t: Table, row: Row, id: int) {
    exists j :: 0 <= j < k && j < |steps| && steps[j].table == t && Holds(db, steps[j].where, row, id)
  }

  lemma {:induction false} RowsAfter(
    db: Database, scope: Scope, tables: set<Table>, steps: seq<DeleteStep>, k: nat, t: Table, row: Row, id: int)
    requires IsPlan(scope, tables, steps) && k <= |steps|
    requires scope.scoped.Keys <= tables && forall e :: e in scope.edges ==> e.table in tables
    ensures Rows(AfterSteps(db, steps[..k], id), t)[row] ==
      if Doomed(db, steps, k, t, row, id) then 0 else Rows(db, t)[row]
    decreases k
  {
    if k > 0 {
      var before, step := AfterSteps(db, steps[..k - 1], id), steps[k - 1];
      assert steps[..k][..k - 1] == steps[..k - 1];
      assert AfterSteps(db, steps[..k], id) == AfterStep(before, step, id);
      RowsAfter(db, scope, tables, steps, k - 1, t, row, id);
      JudgedAsBefore(db, scope, tables, steps, k, row, id);
      StepRemoves(db, before, steps, k, t, row, id);
    }
  }

  lemma StepRemoves(db: Database, before: Database, steps: seq<DeleteStep>, k: nat, t: Table, row: Row, id: int)
    requires 0 < k <= |steps|
    requires Rows(before, t)[row] == if Doomed(db, steps, k - 1, t, row, id) then 0 else Rows(db, t)[row]
    requires Holds(before, steps[k - 1].where, row, id) == Holds(db, steps[k - 1].where, row, id)
    ensures Rows(AfterStep(before, steps[k - 1], id), t)[row] ==
      if Doomed(db, steps, k, t, row, id) then 0 else Rows(db, t)[row]
  {
    var step := steps[k - 1];
    if Doomed(db, steps, k, t, row, id) {
      var j :| 0 <= j < k && steps[j].table == t && Holds(db, steps[j].where, row, id);
      assert j == k - 1 || Doomed(db, steps, k - 1, t, row, id);
    }
  }

  lemma JudgedAsBefore(
    db: Database, scope: Scope, tables: set<Table>, steps: seq<DeleteStep>, k: nat, row: Row, id: int)
    requires IsPlan(scope, tables, steps) && 0 < k <= |steps|
    requires scope.scoped.Keys <= tables && forall e :: e in scope.edges ==> e.table in tables
    ensures Holds(AfterSteps(db, steps[..k - 1], id), steps[k - 1].where, row, id)
      == Holds(db, steps[k - 1].where, row, id)
  {
    var before := AfterSteps(db, steps[..k - 1], id);
    forall r | r in Reads(steps[k - 1].where) ensures Rows(before, r) == Rows(db, r) {
      UntouchedSoFar(db, scope, tables, steps, k, r, id);
    }
    HoldsReads(before, db, steps[k - 1].where, row, id);
  }

  lemma UntouchedSoFar(
    db: Database, scope: Scope, tables: set<Table>, steps: seq<DeleteStep>, k: nat, r: Table, id: int)
    requires IsPlan(scope, tables, steps) && 0 < k <= |steps|
    requires scope.scoped.Keys <= tables && forall e :: e in scope.edges ==> e.table in tables
    requires r in Reads(steps[k - 1].where)
    ensures Rows(AfterSteps(db, steps[..k - 1], id), r) == Rows(db, r)
  {
    forall j | 0 <= j < k - 1 ensures steps[j].table != r {
      if steps[j].table == r { ReadsLater(scope, tables, steps, k - 1, j); }
    }
    OtherTablesKeep(db, steps, k - 1, r, id);
  }

  lemma {:induction false} OtherTablesKeep(db: Database, steps: seq<DeleteStep>, k: nat, r: Table, id: int)
    requires k <= |steps| && forall j :: 0 <= j < k ==> steps[j].table != r
    ensures Rows(AfterSteps(db, steps[..k], id), r) == Rows(db, r)
  {
    if k > 0 {
      assert steps[..k][..k - 1] == steps[..k - 1];
      OtherTablesKeep(db, steps, k - 1, r, id);
    }
  }

  lemma DoomedIsOwned(db: Database, scope: Scope, steps: seq<DeleteStep>, t: Table, row: Row, id: int)
    requires SoundSteps(scope, steps) && ExhaustiveSteps(scope, steps)
    ensures Doomed(db, steps, |steps|, t, row, id) <==> Owned(db, scope, t, row, id)
  {
    if Doomed(db, steps, |steps|, t, row, id) {
      var j :| 0 <= j < |steps| && steps[j].table == t && Holds(db, steps[j].where, row, id);
      DerivedRowsAreOwned(db, scope, t, steps[j].where, row, id);
    }
    if Owned(db, scope, t, row, id) {
      var hops: nat :| OwnedWithin(db, scope, t, row, id, hops);
      var p := OwnedRowsAreDerived(db, scope, t, row, id, hops);
      assert DeleteStep(t, p) in steps;
    }
  }

  // The plan deletes the scope's rows and no others, in every table.
  lemma PlanRemovesExactlyOwned(db: Database, scope: Scope, tables: set<Table>, steps: seq<DeleteStep>, id: int)
    requires IsPlan(scope, tables, steps)
    requires scope.scoped.Keys <= tables && forall e :: e in scope.edges ==> e.table in tables
    ensures OwnedRemoved(db, AfterSteps(db, steps, id), scope, id)
  {
    forall t, row
      ensures Rows(AfterSteps(db, steps, id), t)[row] == if Owned(db, scope, t, row, id) then 0 else Rows(db, t)[row]
    {
      assert steps[..|steps|] == steps;
      RowsAfter(db, scope, tables, steps, |steps|, t, row, id);
      DoomedIsOwned(db, scope, steps, t, row, id);
    }
  }

  // A scoped row that references a row of the scope, or the root row itself,
  // carries the same scope id.
  ghost predicate ScopeAgrees(db: Database, scope: Scope, e: FkEdge, id: int) {
    e.table in scope.scoped ==>
      forall row :: row in Rows(db, e.table) && ReferencesScope(db, scope, e, row, id) ==>
        Cell(row, scope.scoped[e.table]) == Val(id)
  }

  ghost predicate ReferencesScope(db: Database, scope: Scope, e: FkEdge, row: Row, id: int) {
    || (e.referencedTable == scope.rootTable && Cell(row, e.column) == Val(id))
    || exists parent ::
      parent in Rows(db, e.referencedTable) && Matches(Cell(row, e.column), Cell(parent, e.referencedColumn))
         && Owned(db, scope, e.referencedTable, parent, id)
  }

  // Policy tables without a scope column are left to other code.
  ghost predicate LeftToPolicy(scope: Scope, t: Table) {
    t in scope.policy && t !in scope.scoped
  }

  // Every foreign key whose child is not left to policy code holds after each
  // single step.
  lemma PlanKeepsForeignKeys(
    db: Database, scope: Scope, tables: set<Table>, steps: seq<DeleteStep>, k: nat, e: FkEdge, id: int)
    requires IsPlan(scope, tables, steps) && k <= |steps|
    requires scope.scoped.Keys <= tables && forall f :: f in scope.edges ==> f.table in tables
    requires scope.rootTable !in scope.scoped
    requires e in scope.edges && Intact(db, e) && ScopeAgrees(db, scope, e, id)
    requires !LeftToPolicy(scope, e.table)
    requires e.table == scope.rootTable ==> !IsMember(scope, e.referencedTable)
    ensures Intact(AfterSteps(db, steps[..k], id), e)
  {
    var now := AfterSteps(db, steps[..k], id);
    forall row | row in Rows(now, e.table) && Cell(row, e.column).Val? ensures HasParent(now, e, row) {
      RowsAfter(db, scope, tables, steps, k, e.table, row, id);
      assert row in Rows(db, e.table) && HasParent(db, e, row);
      var parent :| parent in Rows(db, e.referencedTable)
          && Matches(Cell(row, e.column), Cell(parent, e.referencedColumn));
      RowsAfter(db, scope, tables, steps, k, e.referencedTable, parent, id);
      if Doomed(db, steps, k, e.referencedTable, parent, id) {
        ChildGoesFirst(db, scope, tables, steps, k, e, row, parent, id);
        assert false;
      }
    }
  }

  lemma ChildGoesFirst(
    db: Database, scope: Scope, tables: set<Table>, steps: seq<DeleteStep>, k: nat, e: FkEdge, row: Row, parent: Row,
    id: int)
    requires IsPlan(scope, tables, steps) && k <= |steps|
    requires scope.scoped.Keys <= tables && forall f :: f in scope.edges ==> f.table in tables
    requires e in scope.edges && ScopeAgrees(db, scope, e, id) && !LeftToPolicy(scope, e.table)
    requires scope.rootTable !in scope.scoped
    requires e.table == scope.rootTable ==> !IsMember(scope, e.referencedTable)
    requires row in Rows(db, e.table) && parent in Rows(db, e.referencedTable)
    requires Matches(Cell(row, e.column), Cell(parent, e.referencedColumn))
    requires Doomed(db, steps, k, e.referencedTable, parent, id)
    ensures Doomed(db, steps, k, e.table, row, id)
  {
    var j :| 0 <= j < k && steps[j].table == e.referencedTable && Holds(db, steps[j].where, parent, id);
    assert Derives(scope, e.referencedTable, steps[j].where);
    DerivedRowsAreOwned(db, scope, e.referencedTable, steps[j].where, parent, id);
    var p: Predicate;
    if e.table in scope.scoped {
      assert ReferencesScope(db, scope, e, row, id);
      p := ScopeEq(scope.scoped[e.table]);
    } else {
      assert e == FkEdge(e.table, e.column, e.referencedTable, e.referencedColumn);
      p := Derived(e, steps[j].where);
    }
    assert Derives(scope, e.table, p) && Holds(db, p, row, id);
    if e.table == e.referencedTable {
      assert Derivable(scope, e.table) ==> SelfFed(scope);
      assert steps[j].where == p;
    } else {
      assert DeleteStep(e.table, p) in steps;
      var m :| 0 <= m < |steps| && steps[m] == DeleteStep(e.table, p);
      MemberIsTable(scope, tables, e.table);
      MemberIsTable(scope, tables, e.referencedTable);
      assert Relevant(Members(scope, tables), e);
      assert ChildOf(Members(scope, tables), scope.edges, steps[m].table, steps[j].table);
    }
  }

  // Afterwards the root row can go too: nothing the plan covers references it.
  lemma PlanFreesRoot(
    db: Database, scope: Scope, tables: set<Table>, steps: seq<DeleteStep>, e: FkEdge, row: Row, id: int)
    requires IsPlan(scope, tables, steps) && Covered(scope)
    requires scope.scoped.Keys <= tables && forall f :: f in scope.edges ==> f.table in tables
    requires e in scope.edges && e.referencedTable == scope.rootTable && e.table != scope.rootTable
    requires ScopeAgrees(db, scope, e, id) && !LeftToPolicy(scope, e.table)
    requires row in Rows(AfterSteps(db, steps, id), e.table)
    ensures Cell(row, e.column) != Val(id)
  {
    PlanRemovesExactlyOwned(db, scope, tables, steps, id);
    assert !Gap(scope, e);
    if Cell(row, e.column) == Val(id) {
      assert row in Rows(db, e.table) && ReferencesScope(db, scope, e, row, id);
      assert OwnedWithin(db, scope, e.table, row, id, 0);
    }
  }
}
