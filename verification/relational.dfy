// The part of a relational engine the planners rely on: tables as multisets of
// rows, NULL-aware matching, foreign keys, and filtered selection.
module Relational {
  import opened ForeignKeyOrder

  datatype Value = Null | Val(id: int)

  // A row holds its non-NULL values, so equal rows are equal maps.
  type Row = map<Column, int>

  type Database = map<Table, multiset<Row>>

  function Cell(row: Row, column: Column): Value {
    if column in row then Val(row[column]) else Null
  }

  function Rows(db: Database, table: Table): multiset<Row> {
    if table in db then db[table] else multiset{}
  }

  // SQL equality: never true of NULL.
  predicate Matches(child: Value, parent: Value) {
    child.Val? && child == parent
  }

  predicate HasParent(db: Database, e: FkEdge, row: Row) {
    exists parent ::
      parent in Rows(db, e.referencedTable) && Matches(Cell(row, e.column), Cell(parent, e.referencedColumn))
  }

  // The foreign key e holds: each child row has NULL or an existing parent.
  ghost predicate Intact(db: Database, e: FkEdge) {
    forall row {:trigger HasParent(db, e, row)} :: row in Rows(db, e.table) && Cell(row, e.column).Val? ==>
      HasParent(db, e, row)
  }

  ghost predicate SelectsTo(bag: multiset<Row>, keep: Row -> bool, r: multiset<Row>) {
    forall row {:trigger r[row]} :: r[row] == if keep(row) then bag[row] else 0
  }

  lemma {:induction false} SelectionExists(bag: multiset<Row>, keep: Row -> bool)
    ensures exists r :: SelectsTo(bag, keep, r)
    decreases |bag|
  {
    if bag == multiset{} {
      assert SelectsTo(bag, keep, multiset{});
    } else {
      var row :| row in bag;
      SelectionExists(bag[row := 0], keep);
      var rest :| SelectsTo(bag[row := 0], keep, rest);
      assert SelectsTo(bag, keep, if keep(row) then rest[row := bag[row]] else rest);
    }
  }

  // The rows of bag that satisfy keep, each as often as before.
  ghost function Select(bag: multiset<Row>, keep: Row -> bool): (r: multiset<Row>)
    ensures forall row {:trigger r[row]} :: r[row] == if keep(row) then bag[row] else 0
  {
    SelectionExists(bag, keep);
    var r :| SelectsTo(bag, keep, r);
    r
  }

  lemma SelectSplits(bag: multiset<Row>, keep: Row -> bool)
    ensures bag == Select(bag, keep) + Select(bag, row => !keep(row))
  {
  }

  // SELECT columns FROM ...
  function Project(row: Row, columns: set<Column>): Row {
    map c | c in row && c in columns :: row[c]
  }

  // How many rows of bag look like row on the given columns.
  ghost function Lookalikes(bag: multiset<Row>, columns: set<Column>, row: Row): nat {
    |Select(bag, other => Project(other, columns) == row)|
  }

  ghost predicate ProjectsTo(bag: multiset<Row>, columns: set<Column>, r: multiset<Row>) {
    forall row {:trigger Lookalikes(bag, columns, row)} :: r[row] == Lookalikes(bag, columns, row)
  }

  // All rows of bag on the given columns, duplicates kept.
  ghost function ProjectAll(bag: multiset<Row>, columns: set<Column>): (r: multiset<Row>) {
    ProjectionExists(bag, columns);
    var r :| ProjectsTo(bag, columns, r);
    r
  }

  lemma LookalikesAdd(a: multiset<Row>, b: multiset<Row>, columns: set<Column>, row: Row)
    ensures Lookalikes(a + b, columns, row) == Lookalikes(a, columns, row) + Lookalikes(b, columns, row)
  {
    var like := (other: Row) => Project(other, columns) == row;
    assert Select(a + b, like) == Select(a, like) + Select(b, like);
  }

  lemma LookalikesOne(one: Row, columns: set<Column>, row: Row)
    ensures Lookalikes(multiset{one}, columns, row) == if Project(one, columns) == row then 1 else 0
  {
    var like := (other: Row) => Project(other, columns) == row;
    assert Select(multiset{one}, like) == if like(one) then multiset{one} else multiset{};
  }

  lemma {:induction false} ProjectionExists(bag: multiset<Row>, columns: set<Column>)
    ensures exists r :: ProjectsTo(bag, columns, r)
    decreases |bag|
  {
    if bag == multiset{} {
      forall row ensures Lookalikes(bag, columns, row) == 0 {
        assert Select(bag, other => Project(other, columns) == row) == multiset{};
      }
      assert ProjectsTo(bag, columns, multiset{});
    } else {
      var one :| one in bag;
      ProjectionExists(bag - multiset{one}, columns);
      var rest :| ProjectsTo(bag - multiset{one}, columns, rest);
      var r := rest + multiset{Project(one, columns)};
      forall row ensures r[row] == Lookalikes(bag, columns, row) {
        assert bag == bag - multiset{one} + multiset{one};
        LookalikesAdd(bag - multiset{one}, multiset{one}, columns, row);
        LookalikesOne(one, columns, row);
      }
      assert ProjectsTo(bag, columns, r);
    }
  }

  lemma ProjectionCounts(bag: multiset<Row>, columns: set<Column>, row: Row)
    ensures ProjectAll(bag, columns)[row] == Lookalikes(bag, columns, row)
  {
  }

  lemma ProjectAllUnion(a: multiset<Row>, b: multiset<Row>, columns: set<Column>)
    ensures ProjectAll(a + b, columns) == ProjectAll(a, columns) + ProjectAll(b, columns)
  {
    forall row ensures ProjectAll(a + b, columns)[row] == ProjectAll(a, columns)[row] + ProjectAll(b, columns)[row] {
      ProjectionCounts(a + b, columns, row);
      ProjectionCounts(a, columns, row);
      ProjectionCounts(b, columns, row);
      LookalikesAdd(a, b, columns, row);
    }
  }

  lemma ProjectAllOne(one: Row, columns: set<Column>)
    ensures ProjectAll(multiset{one}, columns) == multiset{Project(one, columns)}
  {
    forall row ensures ProjectAll(multiset{one}, columns)[row] == multiset{Project(one, columns)}[row] {
      ProjectionCounts(multiset{one}, columns, row);
      LookalikesOne(one, columns, row);
    }
  }

  lemma ProjectionOrigin(bag: multiset<Row>, columns: set<Column>, row: Row) returns (origin: Row)
    requires row in ProjectAll(bag, columns)
    ensures origin in bag && Project(origin, columns) == row
  {
    ProjectionCounts(bag, columns, row);
    var alike := Select(bag, other => Project(other, columns) == row);
    assert alike != multiset{};
    origin :| origin in alike;
  }

  lemma ProjectAllIdentity(bag: multiset<Row>, columns: set<Column>)
    requires forall row :: row in bag ==> row.Keys <= columns
    ensures ProjectAll(bag, columns) == bag
  {
    forall row ensures ProjectAll(bag, columns)[row] == bag[row] {
      ProjectionCounts(bag, columns, row);
      forall other | other in bag ensures Project(other, columns) == other {
      }
      var alike := Select(bag, other => Project(other, columns) == row);
      var copies: multiset<Row> := multiset{}[row := bag[row]];
      assert alike == copies;
      assert |copies| == bag[row];
    }
  }

  // The rows of one bag are those of the other on the given columns: they can be
  // listed side by side.
  ghost predicate Alongside(a: seq<Row>, b: seq<Row>, columns: set<Column>) {
    && |a| == |b|
    && forall k :: 0 <= k < |a| ==>
      && (forall c :: c in b[k] <==> c in a[k] && c in columns)
      && (forall c :: c in b[k] ==> b[k][c] == a[k][c])
  }

  ghost predicate SameOnColumns(bag: multiset<Row>, r: multiset<Row>, columns: set<Column>) {
    exists a, b :: multiset(a) == bag && multiset(b) == r && Alongside(a, b, columns)
  }

  lemma OneMoreAlongside(a: seq<Row>, b: seq<Row>, columns: set<Column>, row: Row)
    requires Alongside(a, b, columns)
    ensures Alongside(a + [row], b + [Project(row, columns)], columns)
  {
  }

  lemma {:induction false} ProjectEach(bag: multiset<Row>, columns: set<Column>) returns (a: seq<Row>, b: seq<Row>)
    ensures multiset(a) == bag && multiset(b) == ProjectAll(bag, columns) && Alongside(a, b, columns)
    decreases |bag|
  {
    hide ProjectAll, Project, Alongside;
    if bag == multiset{} {
      ProjectAllIdentity(bag, columns);
      a, b := [], [];
      NothingAlongside(columns);
    } else {
      var row :| row in bag;
      var init, projected := ProjectEach(bag - multiset{row}, columns);
      ProjectAllTake(bag, row, columns);
      OneMoreAlongside(init, projected, columns, row);
      a, b := init + [row], projected + [Project(row, columns)];
    }
  }

  lemma NothingAlongside(columns: set<Column>)
    ensures Alongside([], [], columns)
  {
  }

  lemma ProjectAllPairs(bag: multiset<Row>, columns: set<Column>)
    ensures SameOnColumns(bag, ProjectAll(bag, columns), columns)
  {
    hide ProjectAll;
    var a, b := ProjectEach(bag, columns);
  }

  // SELECT columns FROM bag
  method SelectColumns(bag: multiset<Row>, columns: set<Column>) returns (selected: multiset<Row>)
    ensures selected == ProjectAll(bag, columns)
  {
    var rest := bag;
    selected := multiset{};
    while rest != multiset{}
      invariant ProjectAll(bag, columns) == ProjectAll(rest, columns) + selected
      decreases |rest|
    {
      var row :| row in rest;
      ProjectAllTake(rest, row, columns);
      selected := selected + multiset{Project(row, columns)};
      rest := rest - multiset{row};
    }
    ProjectAllIdentity(multiset{}, columns);
  }

  lemma ProjectAllTake(bag: multiset<Row>, row: Row, columns: set<Column>)
    requires row in bag
    ensures ProjectAll(bag, columns) == ProjectAll(bag - multiset{row}, columns) + multiset{Project(row, columns)}
  {
    assert bag == bag - multiset{row} + multiset{row};
    ProjectAllUnion(bag - multiset{row}, multiset{row}, columns);
    ProjectAllOne(row, columns);
  }
}
