// orderChildrenFirst of database/fk_cleanup.go: Kahn's algorithm over the
// foreign keys between member tables, always releasing the smallest ready name.
module ForeignKeyOrder {
  import opened Text

  type Table = string
  type Column = string

  datatype FkEdge = FkEdge(table: Table, column: Column, referencedTable: Table, referencedColumn: Column)

  datatype OrderResult = Ordered(order: seq<Table>) | CycleAmong(remaining: seq<Table>)

  function Elems<T>(s: seq<T>): set<T> {
    set x | x in s
  }

  ghost predicate NoDup<T>(s: seq<T>) {
    forall i, j :: 0 <= i < j < |s| ==> s[i] != s[j]
  }

  // ---------------------------------------------------------------- the graph

  // An edge takes part in the ordering when it joins two different members.
  predicate Relevant(members: set<Table>, e: FkEdge) {
    e.table != e.referencedTable && e.table in members && e.referencedTable in members
  }

  ghost predicate ChildOf(members: set<Table>, edges: seq<FkEdge>, c: Table, p: Table) {
    exists e :: e in edges && Relevant(members, e) && e.table == c && e.referencedTable == p
  }

  ghost predicate IsWalk(members: set<Table>, edges: seq<FkEdge>, walk: seq<Table>) {
    forall i :: 0 <= i < |walk| - 1 ==> ChildOf(members, edges, walk[i], walk[i + 1])
  }

  // A closed walk child -> parent -> ... -> child. Self-references are not
  // ChildOf pairs, so it passes through at least two tables.
  ghost predicate IsCycle(members: set<Table>, edges: seq<FkEdge>, walk: seq<Table>) {
    |walk| >= 2 && walk[0] == walk[|walk| - 1] && IsWalk(members, edges, walk)
  }

  ghost predicate Acyclic(members: set<Table>, edges: seq<FkEdge>) {
    forall walk :: !IsCycle(members, edges, walk)
  }

  // Every member exactly once, every child before its parents.
  ghost predicate ChildrenFirst(members: set<Table>, edges: seq<FkEdge>, order: seq<Table>) {
    && NoDup(order)
    && Elems(order) == members
    && forall i, j {:trigger ChildOf(members, edges, order[i], order[j])} ::
      0 <= i < |order| && 0 <= j < |order| && ChildOf(members, edges, order[i], order[j]) ==> i < j
  }

  // a comes strictly before b in the lexicographic order on sequences of names.
  ghost predicate Precedes(a: seq<Table>, b: seq<Table>) {
    exists k :: 0 <= k < |a| && k < |b| && a[..k] == b[..k] && Less(a[k], b[k])
  }

  ghost predicate LeastChildrenFirst(members: set<Table>, edges: seq<FkEdge>, order: seq<Table>) {
    && ChildrenFirst(members, edges, order)
    && forall other :: ChildrenFirst(members, edges, other) ==> other == order || Precedes(order, other)
  }

  ghost predicate HasChildIn(members: set<Table>, edges: seq<FkEdge>, s: set<Table>, t: Table) {
    exists c :: c in s && ChildOf(members, edges, c, t)
  }

  // Every table of s still waits for a child inside s.
  ghost predicate Stuck(members: set<Table>, edges: seq<FkEdge>, s: set<Table>) {
    s <= members && forall t {:trigger HasChildIn(members, edges, s, t)} :: t in s ==> HasChildIn(members, edges, s, t)
  }

  // ------------------------------------------------------- greedy construction

  ghost predicate Eligible(members: set<Table>, edges: seq<FkEdge>, done: set<Table>, t: Table) {
    t in members && t !in done && forall c :: ChildOf(members, edges, c, t) ==> c in done
  }

  ghost predicate Greedy(members: set<Table>, edges: seq<FkEdge>, order: seq<Table>) {
    forall i :: 0 <= i < |order| ==>
      && Eligible(members, edges, Elems(order[..i]), order[i])
      && forall t :: Eligible(members, edges, Elems(order[..i]), t) ==> !Less(t, order[i])
  }

  lemma NoDupCardinality<T>(s: seq<T>)
    requires NoDup(s)
    ensures |Elems(s)| == |s|
  {
    if s != [] {
      NoDupCardinality(s[1..]);
      assert Elems(s) == {s[0]} + Elems(s[1..]);
    }
  }

  // Position i splits an order into what comes before it, its table, and the rest.
  lemma SplitAt(order: seq<Table>, i: nat)
    requires NoDup(order) && i < |order|
    ensures Elems(order[..i + 1]) == Elems(order[..i]) + {order[i]} && order[i] !in Elems(order[..i])
    ensures Elems(order[i..]) == Elems(order[i + 1..]) + {order[i]} && order[i] !in Elems(order[i + 1..])
  {
    assert order[..i + 1] == order[..i] + [order[i]] && order[i..] == [order[i]] + order[i + 1..];
  }

  lemma GreedyIsNoDup(members: set<Table>, edges: seq<FkEdge>, order: seq<Table>)
    requires Greedy(members, edges, order)
    ensures NoDup(order) && Elems(order) <= members
  {
    forall i, j | 0 <= i < j < |order| ensures order[i] != order[j] {
      assert order[..j][i] == order[i];
      assert Eligible(members, edges, Elems(order[..j]), order[j]);
    }
    forall t | t in order ensures t in members {
      var i :| 0 <= i < |order| && order[i] == t;
      assert Eligible(members, edges, Elems(order[..i]), order[i]);
    }
  }

  lemma GreedyIsChildrenFirst(members: set<Table>, edges: seq<FkEdge>, order: seq<Table>)
    requires Greedy(members, edges, order) && |order| == |members|
    ensures ChildrenFirst(members, edges, order)
  {
    GreedyIsNoDup(members, edges, order);
    NoDupCardinality(order);
    SubsetOfEqualSize(Elems(order), members);
    forall i, j | 0 <= i < |order| && 0 <= j < |order| && ChildOf(members, edges, order[i], order[j]) ensures i < j {
      assert Eligible(members, edges, Elems(order[..j]), order[j]);
      assert order[i] in order[..j];
    }
  }

  lemma SubsetOfEqualSize<T>(a: set<T>, b: set<T>)
    requires a <= b && |a| == |b|
    ensures a == b
  {
    assert |b - a| == |b| - |a|;
  }

  // Any other valid order first departs from the greedy one at a larger name.
  lemma {:induction false} GreedyPrecedes(
    members: set<Table>, edges: seq<FkEdge>, order: seq<Table>, other: seq<Table>, k: nat)
    requires Greedy(members, edges, order) && ChildrenFirst(members, edges, order)
    requires ChildrenFirst(members, edges, other)
    requires k <= |order| == |other| && order[..k] == other[..k]
    ensures other == order || Precedes(order, other)
    decreases |order| - k
  {
    if k == |order| {
      assert order == order[..k] && other == other[..k];
    } else if order[k] == other[k] {
      assert order[..k + 1] == order[..k] + [order[k]] && other[..k + 1] == other[..k] + [other[k]];
      GreedyPrecedes(members, edges, order, other, k + 1);
    } else {
      forall c | ChildOf(members, edges, c, other[k]) ensures c in Elems(order[..k]) {
        var i :| 0 <= i < |other| && other[i] == c;
        assert ChildOf(members, edges, other[i], other[k]);
        assert other[..k][i] == c;
      }
      assert other[k] !in other[..k];
      assert Eligible(members, edges, Elems(order[..k]), other[k]);
      LessTrichotomy(order[k], other[k]);
    }
  }

  lemma GreedyIsLeast(members: set<Table>, edges: seq<FkEdge>, order: seq<Table>)
    requires Greedy(members, edges, order) && |order| == |members|
    ensures LeastChildrenFirst(members, edges, order)
  {
    GreedyIsChildrenFirst(members, edges, order);
    forall other | ChildrenFirst(members, edges, other) ensures other == order || Precedes(order, other) {
      NoDupCardinality(other);
      GreedyPrecedes(members, edges, order, other, 0);
    }
  }

  lemma PrefixAgrees<T>(a: seq<T>, b: seq<T>, k: nat, i: nat)
    requires k <= |a| && k <= |b| && a[..k] == b[..k]
    ensures i < k ==> a[i] == b[i]
  {
    if i < k { assert a[..k][i] == a[i] && b[..k][i] == b[i]; }
  }

  // The result depends on which tables reference which, and on nothing else:
  // neither the sequence nor the multiplicity of the edges, nor the iteration
  // order of a Go map, can change it.
  lemma LeastOrderIsUnique(members: set<Table>, edges: seq<FkEdge>, edges': seq<FkEdge>, a: seq<Table>, b: seq<Table>)
    requires forall c, p :: ChildOf(members, edges, c, p) <==> ChildOf(members, edges', c, p)
    requires LeastChildrenFirst(members, edges, a) && LeastChildrenFirst(members, edges', b)
    ensures a == b
  {
    assert ChildrenFirst(members, edges, b) && ChildrenFirst(members, edges', a);
    if a != b {
      var k :| 0 <= k < |a| && k < |b| && a[..k] == b[..k] && Less(a[k], b[k]);
      var l :| 0 <= l < |a| && l < |b| && b[..l] == a[..l] && Less(b[l], a[l]);
      LessTrichotomy(a[k], b[k]);
      LessTrichotomy(a[l], b[l]);
      PrefixAgrees(a, b, l, k);
      PrefixAgrees(a, b, k, l);
    }
  }

  // -------------------------------------------------------------------- cycles

  lemma {:induction false} WalkClimbs(
    members: set<Table>, edges: seq<FkEdge>, order: seq<Table>, walk: seq<Table>, i: nat, j: nat)
    requires ChildrenFirst(members, edges, order)
    requires |walk| >= 2 && IsWalk(members, edges, walk)
    requires i < |order| && j < |order| && order[i] == walk[0] && order[j] == walk[|walk| - 1]
    ensures i < j
    decreases |walk|
  {
    assert ChildOf(members, edges, walk[0], walk[1]);
    if |walk| > 2 {
      assert walk[1] in members;
      var k :| 0 <= k < |order| && order[k] == walk[1];
      WalkSuffix(members, edges, walk);
      WalkClimbs(members, edges, order, walk[1..], k, j);
    }
  }

  lemma WalkSuffix(members: set<Table>, edges: seq<FkEdge>, walk: seq<Table>)
    requires IsWalk(members, edges, walk) && walk != []
    ensures IsWalk(members, edges, walk[1..])
  {
    forall i | 0 <= i < |walk[1..]| - 1 ensures ChildOf(members, edges, walk[1..][i], walk[1..][i + 1]) {
      assert ChildOf(members, edges, walk[i + 1], walk[i + 2]);
    }
  }

  lemma WalkPrepend(members: set<Table>, edges: seq<FkEdge>, c: Table, walk: seq<Table>)
    requires IsWalk(members, edges, walk) && walk != [] && ChildOf(members, edges, c, walk[0])
    ensures IsWalk(members, edges, [c] + walk)
  {
    var longer := [c] + walk;
    forall i | 0 <= i < |longer| - 1 ensures ChildOf(members, edges, longer[i], longer[i + 1]) {
      if i > 0 { assert ChildOf(members, edges, walk[i - 1], walk[i]); }
    }
  }

  lemma OrderExcludesCycles(members: set<Table>, edges: seq<FkEdge>, order: seq<Table>)
    requires ChildrenFirst(members, edges, order)
    ensures Acyclic(members, edges)
  {
    forall walk ensures !IsCycle(members, edges, walk) {
      if IsCycle(members, edges, walk) {
        assert ChildOf(members, edges, walk[0], walk[1]);
        assert walk[0] in members;
        var i :| 0 <= i < |order| && order[i] == walk[0];
        WalkClimbs(members, edges, order, walk, i, i);
      }
    }
  }

  // Walking from child to child inside a stuck set must revisit a table.
  lemma {:induction false} StuckHasCycle(members: set<Table>, edges: seq<FkEdge>, s: set<Table>, path: seq<Table>)
    returns (walk: seq<Table>)
    requires Stuck(members, edges, s)
    requires path != [] && NoDup(path) && Elems(path) <= s && IsWalk(members, edges, path)
    ensures IsCycle(members, edges, walk)
    decreases |s| - |path|
  {
    hide ChildOf;
    assert path[0] in Elems(path) && HasChildIn(members, edges, s, path[0]);
    var c :| c in s && ChildOf(members, edges, c, path[0]);
    var longer := [c] + path;
    WalkPrepend(members, edges, c, path);
    if c in path {
      var k :| 0 <= k < |path| && path[k] == c;
      walk := longer[..k + 2];
      assert IsWalk(members, edges, walk);
    } else {
      NoDupCardinality(longer);
      assert Elems(longer) == {c} + Elems(path);
      SubsetCardinality(Elems(longer), s);
      walk := StuckHasCycle(members, edges, s, longer);
    }
  }

  lemma SubsetCardinality<T>(a: set<T>, b: set<T>)
    requires a <= b
    ensures |a| <= |b|
  {
    assert |b - a| == |b| - |a|;
  }

  // ------------------------------------------------------------ pending counts

  // The number of relevant edges into p whose child has not been ordered yet.
  ghost function Pending(members: set<Table>, edges: seq<FkEdge>, done: set<Table>, p: Table): nat {
    if edges == [] then 0
    else
      var e := edges[|edges| - 1];
      Pending(members, edges[..|edges| - 1], done, p)
      + if Relevant(members, e) && e.referencedTable == p && e.table !in done then 1 else 0
  }

  // The number of relevant edges from c to p.
  ghost function Parallel(members: set<Table>, edges: seq<FkEdge>, c: Table, p: Table): nat {
    if edges == [] then 0
    else
      var e := edges[|edges| - 1];
      Parallel(members, edges[..|edges| - 1], c, p)
      + if Relevant(members, e) && e.referencedTable == p && e.table == c then 1 else 0
  }

  lemma {:induction false} PendingZero(members: set<Table>, edges: seq<FkEdge>, done: set<Table>, p: Table)
    ensures Pending(members, edges, done, p) == 0 <==> forall c :: ChildOf(members, edges, c, p) ==> c in done
  {
    if edges != [] {
      var e, init := edges[|edges| - 1], edges[..|edges| - 1];
      assert edges == init + [e];
      PendingZero(members, init, done, p);
      forall c ensures ChildOf(members, edges, c, p) <==>
          (ChildOf(members, init, c, p) || (Relevant(members, e) && e.table == c && e.referencedTable == p)) {
        if ChildOf(members, edges, c, p) {
          var f :| f in edges && Relevant(members, f) && f.table == c && f.referencedTable == p;
          assert f in init || f == e;
        }
        if Relevant(members, e) && e.table == c && e.referencedTable == p { assert e in edges; }
      }
    }
  }

  lemma {:induction false} PendingAfter(members: set<Table>, edges: seq<FkEdge>, done: set<Table>, c: Table, p: Table)
    requires c !in done
    ensures Pending(members, edges, done, p) == Pending(members, edges, done + {c}, p) + Parallel(members, edges, c, p)
  {
    if edges != [] {
      PendingAfter(members, edges[..|edges| - 1], done, c, p);
    }
  }

  lemma {:induction false} ParallelIsRelevant(members: set<Table>, edges: seq<FkEdge>, c: Table, p: Table)
    ensures Parallel(members, edges, c, p) > 0 ==> p in members && p != c
  {
    if edges != [] {
      ParallelIsRelevant(members, edges[..|edges| - 1], c, p);
    }
  }

  // --------------------------------------------------------------- the algorithm

  // Ranging over a Go map visits its keys in an unspecified order.
  method Range(keys: set<Table>) returns (visited: seq<Table>)
    ensures NoDup(visited) && Elems(visited) == keys
  {
    visited := [];
    var rest := keys;
    while rest != {}
      invariant NoDup(visited) && Elems(visited) !! rest && Elems(visited) + rest == keys
      decreases rest
    {
      var t :| t in rest;
      visited := visited + [t];
      rest := rest - {t};
    }
  }

  ghost predicate Counts(
    members: set<Table>, edges: seq<FkEdge>, pendingChildren: map<Table, int>, childrenOf: map<Table, seq<Table>>,
    done: set<Table>)
  {
    && pendingChildren.Keys == members
    && (forall t :: t in members ==> pendingChildren[t] == Pending(members, edges, done, t))
    && (forall c, p :: multiset(Get(childrenOf, c))[p] == Parallel(members, edges, c, p))
  }

  function Get(m: map<Table, seq<Table>>, t: Table): seq<Table> {
    if t in m then m[t] else []
  }

  lemma CountsSkip(
    members: set<Table>, edges: seq<FkEdge>, e: FkEdge, pendingChildren: map<Table, int>,
    childrenOf: map<Table, seq<Table>>)
    requires Counts(members, edges, pendingChildren, childrenOf, {})
    ensures !Relevant(members, e) ==> Counts(members, edges + [e], pendingChildren, childrenOf, {})
  {
    assert (edges + [e])[..|edges|] == edges;
  }

  lemma CountsExtend(
    members: set<Table>, edges: seq<FkEdge>, e: FkEdge, pendingChildren: map<Table, int>,
    childrenOf: map<Table, seq<Table>>)
    requires Counts(members, edges, pendingChildren, childrenOf, {})
    ensures Relevant(members, e) ==>
      Counts(members, edges + [e],
             pendingChildren[e.referencedTable := pendingChildren[e.referencedTable] + 1],
             childrenOf[e.table := Get(childrenOf, e.table) + [e.referencedTable]], {})
  {
    if Relevant(members, e) {
      assert (edges + [e])[..|edges|] == edges;
      var childrenOf' := childrenOf[e.table := Get(childrenOf, e.table) + [e.referencedTable]];
      forall c, p ensures multiset(Get(childrenOf', c))[p] == Parallel(members, edges + [e], c, p) {
        assert multiset(Get(childrenOf, c))[p] == Parallel(members, edges, c, p);
      }
    }
  }

  method CountChildren(members: set<Table>, edges: seq<FkEdge>)
    returns (pendingChildren: map<Table, int>, childrenOf: map<Table, seq<Table>>)
    ensures Counts(members, edges, pendingChildren, childrenOf, {})
  {
    pendingChildren := map t | t in members :: 0;
    childrenOf := map[];
    for i := 0 to |edges|
      invariant Counts(members, edges[..i], pendingChildren, childrenOf, {})
    {
      var e := edges[i];
      assert edges[..i + 1] == edges[..i] + [e];
      CountsSkip(members, edges[..i], e, pendingChildren, childrenOf);
      CountsExtend(members, edges[..i], e, pendingChildren, childrenOf);
      if e.table == e.referencedTable || e.table !in members || e.referencedTable !in members {
        continue;
      }
      pendingChildren := pendingChildren[e.referencedTable := pendingChildren[e.referencedTable] + 1];
      childrenOf := childrenOf[e.table := Get(childrenOf, e.table) + [e.referencedTable]];
    }
    assert edges[..|edges|] == edges;
  }

  // ready holds exactly the members that are neither ordered nor waiting.
  ghost predicate Frontier(members: set<Table>, pendingChildren: map<Table, int>, done: set<Table>, ready: seq<Table>) {
    && pendingChildren.Keys == members
    && NoDup(ready)
    && (forall t :: t in ready <==> t in members && t !in done && pendingChildren[t] == 0)
    && (forall t :: t in done ==> t in members && pendingChildren[t] == 0)
  }

  lemma FrontierDecrement(
    members: set<Table>, pendingChildren: map<Table, int>, done: set<Table>, ready: seq<Table>, p: Table)
    requires Frontier(members, pendingChildren, done, ready)
    requires p in members && pendingChildren[p] > 0
    ensures var pending' := pendingChildren[p := pendingChildren[p] - 1];
            Frontier(members, pending', done, if pending'[p] == 0 then ready + [p] else ready)
  {
  }

  // pendingChildren still counts the edges listed in released.
  ghost predicate Owing(
    members: set<Table>, edges: seq<FkEdge>, pendingChildren: map<Table, int>, done: set<Table>, released: seq<Table>)
  {
    && pendingChildren.Keys == members
    && (forall p :: p in released ==> p in members && p !in done)
    && (forall t :: t in members ==> pendingChildren[t] == Pending(members, edges, done, t) + multiset(released)[t])
  }

  lemma OwingStep(
    members: set<Table>, edges: seq<FkEdge>, pendingChildren: map<Table, int>, done: set<Table>, released: seq<Table>)
    requires Owing(members, edges, pendingChildren, done, released) && released != []
    ensures released[0] in members && pendingChildren[released[0]] > 0
    ensures Owing(members, edges, pendingChildren[released[0] := pendingChildren[released[0]] - 1], done, released[1..])
  {
    assert released == [released[0]] + released[1..];
  }

  // One pass of the release loop: the parents of table lose one pending child
  // per edge; those that reach zero become ready.
  method Release(
    members: set<Table>, edges: seq<FkEdge>, childrenOf: map<Table, seq<Table>>, table: Table, ghost done: set<Table>,
    pending0: map<Table, int>, ready0: seq<Table>)
    returns (pendingChildren: map<Table, int>, ready: seq<Table>)
    requires Counts(members, edges, pending0, childrenOf, done)
    requires table !in done && Frontier(members, pending0, done + {table}, ready0)
    ensures Counts(members, edges, pendingChildren, childrenOf, done + {table})
    ensures Frontier(members, pendingChildren, done + {table}, ready)
  {
    pendingChildren, ready := pending0, ready0;
    var released := Sort(Get(childrenOf, table));
    ReleasedCounts(members, edges, childrenOf, table, done, pending0, released);
    for j := 0 to |released|
      invariant Owing(members, edges, pendingChildren, done + {table}, released[j..])
      invariant Frontier(members, pendingChildren, done + {table}, ready)
    {
      var parent := released[j];
      assert released[j..][0] == parent && released[j..][1..] == released[j + 1..];
      OwingStep(members, edges, pendingChildren, done + {table}, released[j..]);
      FrontierDecrement(members, pendingChildren, done + {table}, ready, parent);
      pendingChildren := pendingChildren[parent := pendingChildren[parent] - 1];
      if pendingChildren[parent] == 0 {
        ready := ready + [parent];
      }
    }
  }

  lemma ReleasedCounts(
    members: set<Table>, edges: seq<FkEdge>, childrenOf: map<Table, seq<Table>>, table: Table, done: set<Table>,
    pending0: map<Table, int>, released: seq<Table>)
    requires Counts(members, edges, pending0, childrenOf, done)
    requires table !in done && forall t :: t in done + {table} ==> t in members && pending0[t] == 0
    requires multiset(released) == multiset(Get(childrenOf, table))
    ensures Owing(members, edges, pending0, done + {table}, released)
  {
    forall t | t in members ensures pending0[t] == Pending(members, edges, done + {table}, t) + multiset(released)[t] {
      PendingAfter(members, edges, done, table, t);
    }
    forall p | p in released ensures p in members && p !in done + {table} {
      assert p in multiset(released);
      ParallelIsRelevant(members, edges, table, p);
    }
  }

  ghost predicate Searching(
    members: set<Table>, edges: seq<FkEdge>, pendingChildren: map<Table, int>, childrenOf: map<Table, seq<Table>>,
    order: seq<Table>, ready: seq<Table>)
  {
    && Greedy(members, edges, order)
    && Counts(members, edges, pendingChildren, childrenOf, Elems(order))
    && Frontier(members, pendingChildren, Elems(order), ready)
    && Sorted(ready)
  }

  lemma SearchAdvances(
    members: set<Table>, edges: seq<FkEdge>, pendingChildren: map<Table, int>, childrenOf: map<Table, seq<Table>>,
    order: seq<Table>, ready: seq<Table>)
    requires Searching(members, edges, pendingChildren, childrenOf, order, ready) && ready != []
    ensures Greedy(members, edges, order + [ready[0]])
    ensures Elems(order + [ready[0]]) == Elems(order) + {ready[0]}
    ensures ready[0] !in Elems(order)
    ensures Frontier(members, pendingChildren, Elems(order) + {ready[0]}, ready[1..])
    ensures |order| < |members|
  {
    GreedyStep(members, edges, pendingChildren, childrenOf, order, ready);
    FrontierTake(members, pendingChildren, Elems(order), ready);
    var longer := order + [ready[0]];
    GreedyIsNoDup(members, edges, longer);
    NoDupCardinality(longer);
    SubsetCardinality(Elems(longer), members);
  }

  lemma SearchFinishes(
    members: set<Table>, edges: seq<FkEdge>, pendingChildren: map<Table, int>, childrenOf: map<Table, seq<Table>>,
    order: seq<Table>)
    requires Searching(members, edges, pendingChildren, childrenOf, order, [])
    ensures |order| == |members| ==> LeastChildrenFirst(members, edges, order) && Acyclic(members, edges)
    ensures |order| != |members| ==>
      && !Acyclic(members, edges)
      && Stuck(members, edges, members - Elems(order)) && members - Elems(order) != {}
      && forall s :: Stuck(members, edges, s) ==> s <= members - Elems(order)
    ensures (set t | t in members && pendingChildren[t] > 0) == members - Elems(order)
  {
    forall t ensures !Eligible(members, edges, Elems(order), t) {
      if t in members { PendingZero(members, edges, Elems(order), t); }
    }
    if |order| == |members| {
      GreedyIsLeast(members, edges, order);
      OrderExcludesCycles(members, edges, order);
    } else {
      StuckIsLargest(members, edges, order);
    }
  }

  lemma SearchStarts(
    members: set<Table>, edges: seq<FkEdge>, pendingChildren: map<Table, int>, childrenOf: map<Table, seq<Table>>,
    zero: seq<Table>)
    requires Counts(members, edges, pendingChildren, childrenOf, {})
    requires NoDup(zero) && Elems(zero) == set t | t in members && pendingChildren[t] == 0
    ensures Searching(members, edges, pendingChildren, childrenOf, [], Sort(zero))
  {
    SortedRange(zero);
    assert forall t :: t in zero <==> t in Elems(zero);
    assert Elems<Table>([]) == {};
  }

  method OrderChildrenFirst(members: set<Table>, edges: seq<FkEdge>) returns (r: OrderResult)
    ensures r.Ordered? <==> Acyclic(members, edges)
    ensures r.Ordered? ==> LeastChildrenFirst(members, edges, r.order)
    ensures r.CycleAmong? ==> Sorted(r.remaining) && NoDup(r.remaining) && Elems(r.remaining) != {}
    ensures r.CycleAmong? ==> Stuck(members, edges, Elems(r.remaining))
    ensures r.CycleAmong? ==> forall s :: Stuck(members, edges, s) ==> s <= Elems(r.remaining)
  {
    var pendingChildren, childrenOf := CountChildren(members, edges);
    var zero := Range(set t | t in members && pendingChildren[t] == 0);
    var ready := Sort(zero);
    SearchStarts(members, edges, pendingChildren, childrenOf, zero);

    var order: seq<Table> := [];
    while ready != []
      invariant Searching(members, edges, pendingChildren, childrenOf, order, ready)
      decreases |members| - |order|
    {
      var table := ready[0];
      SearchAdvances(members, edges, pendingChildren, childrenOf, order, ready);
      ready := ready[1..];
      pendingChildren, ready := Release(members, edges, childrenOf, table, Elems(order), pendingChildren, ready);
      SortedRange(ready);
      ready := Sort(ready);
      order := order + [table];
    }

    SearchFinishes(members, edges, pendingChildren, childrenOf, order);
    if |order| != |members| {
      var remaining := Range(set t | t in members && pendingChildren[t] > 0);
      SortedRange(remaining);
      return CycleAmong(Sort(remaining));
    }
    return Ordered(order);
  }

  lemma FrontierTake(members: set<Table>, pendingChildren: map<Table, int>, done: set<Table>, ready: seq<Table>)
    requires Frontier(members, pendingChildren, done, ready) && ready != []
    ensures ready[0] !in done && Frontier(members, pendingChildren, done + {ready[0]}, ready[1..])
  {
    assert ready == [ready[0]] + ready[1..];
    assert ready[0] in ready;
  }

  lemma SortedRange(s: seq<Table>)
    requires NoDup(s)
    ensures Sorted(Sort(s)) && NoDup(Sort(s)) && Elems(Sort(s)) == Elems(s)
    ensures forall t :: t in Sort(s) <==> t in s
  {
    SortSorts(s);
    SortKeeps(s);
    SortNoDup(s);
  }

  lemma SortNoDup(s: seq<Table>)
    requires NoDup(s)
    ensures NoDup(Sort(s))
  {
    forall t ensures multiset(Sort(s))[t] <= 1 {
      NoDupCounts(s, t);
    }
    CountsNoDup(Sort(s));
  }

  lemma {:induction false} NoDupCounts(s: seq<Table>, t: Table)
    requires NoDup(s)
    ensures multiset(s)[t] <= 1
  {
    if s != [] {
      NoDupCounts(s[1..], t);
      assert s == [s[0]] + s[1..];
      assert t == s[0] ==> t !in s[1..];
    }
  }

  lemma {:induction false} CountsNoDup(s: seq<Table>)
    requires forall t :: multiset(s)[t] <= 1
    ensures NoDup(s)
  {
    if s != [] {
      assert s == [s[0]] + s[1..];
      forall t ensures multiset(s[1..])[t] <= 1 {
        assert multiset(s)[t] >= multiset(s[1..])[t];
      }
      CountsNoDup(s[1..]);
      assert multiset(s)[s[0]] == 1 + multiset(s[1..])[s[0]];
      assert forall j :: 0 < j < |s| ==> s[j] == s[1..][j - 1] && s[j] in multiset(s[1..]);
    }
  }

  lemma GreedyStep(
    members: set<Table>, edges: seq<FkEdge>, pendingChildren: map<Table, int>, childrenOf: map<Table, seq<Table>>,
    order: seq<Table>, ready: seq<Table>)
    requires Greedy(members, edges, order)
    requires Counts(members, edges, pendingChildren, childrenOf, Elems(order))
    requires Sorted(ready) && ready != []
    requires forall t :: t in ready <==> t in members && t !in order && pendingChildren[t] == 0
    ensures Greedy(members, edges, order + [ready[0]])
  {
    var longer := order + [ready[0]];
    assert longer[..|order|] == order;
    forall t ensures Eligible(members, edges, Elems(order), t) <==> t in ready {
      if t in members { PendingZero(members, edges, Elems(order), t); }
    }
    assert ready[0] in ready;
    forall t | t in ready ensures !Less(t, ready[0]) {
      LessIrreflexive(t);
    }
    forall i | 0 <= i < |order| ensures longer[..i] == order[..i] {}
  }

  // What a greedy order cannot reach is the largest stuck set, and it holds a cycle.
  lemma StuckIsLargest(members: set<Table>, edges: seq<FkEdge>, order: seq<Table>)
    requires Greedy(members, edges, order)
    requires forall t :: !Eligible(members, edges, Elems(order), t)
    requires |order| != |members|
    ensures Stuck(members, edges, members - Elems(order)) && members - Elems(order) != {}
    ensures forall s :: Stuck(members, edges, s) ==> s <= members - Elems(order)
    ensures !Acyclic(members, edges)
  {
    GreedyIsNoDup(members, edges, order);
    NoDupCardinality(order);
    var stuck := members - Elems(order);
    assert |stuck| == |members| - |Elems(order)|;
    RemainderIsStuck(members, edges, Elems(order));
    var t :| t in stuck;
    assert IsWalk(members, edges, [t]);
    var walk := StuckHasCycle(members, edges, stuck, [t]);
    forall s | Stuck(members, edges, s) ensures s <= stuck {
      StuckAvoidsPrefix(members, edges, order, s, |order|);
      assert order[..|order|] == order;
    }
  }

  lemma RemainderIsStuck(members: set<Table>, edges: seq<FkEdge>, done: set<Table>)
    requires forall t :: !Eligible(members, edges, done, t)
    ensures Stuck(members, edges, members - done)
  {
    forall t | t in members - done ensures HasChildIn(members, edges, members - done, t) {
      assert !Eligible(members, edges, done, t);
      var c :| ChildOf(members, edges, c, t) && c !in done;
    }
  }

  lemma {:induction false} StuckAvoidsPrefix(
    members: set<Table>, edges: seq<FkEdge>, order: seq<Table>, s: set<Table>, i: nat)
    requires Greedy(members, edges, order) && Stuck(members, edges, s) && i <= |order|
    ensures s !! Elems(order[..i])
  {
    if i > 0 {
      StuckAvoidsPrefix(members, edges, order, s, i - 1);
      assert order[..i] == order[..i - 1] + [order[i - 1]];
      var t := order[i - 1];
      assert Eligible(members, edges, Elems(order[..i - 1]), t);
      assert t in s ==> HasChildIn(members, edges, s, t);
    }
  }

  // ------------------------------------------------------------ parents first

  // Parents before children: the reverse of a children-first order.
  ghost predicate ParentsFirst(members: set<Table>, edges: seq<FkEdge>, tables: seq<Table>) {
    && NoDup(tables) && Elems(tables) == members
    && forall i, j {:trigger ChildOf(members, edges, tables[i], tables[j])} ::
      0 <= i < |tables| && 0 <= j < |tables| && ChildOf(members, edges, tables[i], tables[j]) ==> j < i
  }

  // slices.Reverse
  function Backward(s: seq<Table>): (r: seq<Table>)
    ensures |r| == |s| && forall k :: 0 <= k < |s| ==> r[k] == s[|s| - 1 - k]
  {
    if s == [] then [] else Backward(s[1..]) + [s[0]]
  }

  lemma BackwardIsParentsFirst(members: set<Table>, edges: seq<FkEdge>, order: seq<Table>)
    requires ChildrenFirst(members, edges, order)
    ensures ParentsFirst(members, edges, Backward(order))
  {
    var r := Backward(order);
    forall t ensures t in r <==> t in order {
      if t in order {
        var k :| 0 <= k < |order| && order[k] == t;
        assert r[|order| - 1 - k] == t;
      }
    }
    forall i, j | 0 <= i < |r| && 0 <= j < |r| && ChildOf(members, edges, r[i], r[j]) ensures j < i {
      assert ChildOf(members, edges, order[|order| - 1 - i], order[|order| - 1 - j]);
    }
  }
}
