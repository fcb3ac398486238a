// aianalytics/agents_data.go: the list of AI agents, its normal form and the
// rules its tokens obey.
module AgentList {
  import opened Text

  datatype Agent = Agent(token: string, name: string, family: string, category: string, url: string,
      sources: seq<string>)

  // ------------------------------------------------------------------ tokens

  const MinTokenLength := 4

  const TokenDenylist: seq<string> := [
    "agent", "agents", "assistant", "browser", "chat", "client", "code", "crawl", "crawler", "curl",
    "fetch", "fetcher", "http", "https", "index", "java", "mozilla", "node", "python", "robot",
    "scan", "scraper", "search", "spider", "wget", "facebookexternalhit"
  ]

  predicate Printable(token: string) {
    forall i :: 0 <= i < |token| ==>
      ' ' <= token[i] <= '~' && token[i] != '\'' && token[i] != '%' && token[i] != '\\' && token[i] != '"'
  }

  // validateToken
  predicate ValidToken(token: string) {
    |token| >= MinTokenLength && token !in TokenDenylist && Printable(token)
  }

  // A quote, a percent sign, a backslash and a double quote are refused, and so is
  // everything that is not printable, too short or on the denylist.
  lemma ValidTokenMeans(token: string)
    ensures ValidToken(token) <==>
      && |token| >= 4 && token !in TokenDenylist
      && forall c :: c in token ==> 32 <= c as int <= 126 && c as int !in {34, 37, 39, 92}
  {
    hide TokenDenylist;
    assert forall i :: 0 <= i < |token| ==> token[i] in token;
    assert forall c :: c in token ==> exists i :: 0 <= i < |token| && token[i] == c;
  }

  function NormalToken(token: string): string {
    Lower(TrimSpace(token))
  }

  predicate IsNormal(token: string) {
    token != "" && NormalToken(token) == token
  }

  lemma NormalTokenStays(token: string)
    ensures NormalToken(NormalToken(token)) == NormalToken(token)
    ensures var t := NormalToken(token); t != "" ==> !IsSpace(t[0]) && !IsSpace(t[|t| - 1])
  {
    var lo, hi := TrimCuts(token, IsSpace);
    TrimNothing(NormalToken(token));
    LowerOfLower(TrimSpace(token));
  }

  // ------------------------------------------------------ normalizeTokenList

  // What the values say once trimmed, blanks dropped.
  ghost predicate Says(values: seq<string>, x: string) {
    x != "" && exists v :: v in values && TrimSpace(v) == x
  }

  ghost predicate IsTokenList(out: seq<string>, values: seq<string>) {
    Ascending(out) && forall x :: x in out <==> Says(values, x)
  }

  function CleanValue(v: string, lower: bool): string {
    if lower then Lower(TrimSpace(v)) else TrimSpace(v)
  }

  // What the values say once trimmed and, for hosts, lowered
  ghost predicate SaysAs(values: seq<string>, lower: bool, x: string) {
    x != "" && exists v :: v in values && CleanValue(v, lower) == x
  }

  // normalizeTokenList
  method NormalizeTokenList(values: seq<string>, lower: bool) returns (out: seq<string>)
    ensures Ascending(out) && forall x :: x in out <==> SaysAs(values, lower, x)
    ensures !lower ==> IsTokenList(out, values)
  {
    out := [];
    var seen: set<string> := {};
    for i := 0 to |values|
      invariant forall x :: x in seen <==> x in out
      invariant forall x :: x in out <==> SaysAs(values[..i], lower, x)
      invariant forall j, k :: 0 <= j < k < |out| ==> out[j] != out[k]
    {
      var trimmed := TrimSpace(values[i]);
      if lower {
        trimmed := Lower(trimmed);
      }
      assert values[..i + 1] == values[..i] + [values[i]] && trimmed == CleanValue(values[i], lower);
      if trimmed == "" || trimmed in seen {
        continue;
      }
      seen := seen + {trimmed};
      out := out + [trimmed];
    }
    assert values[..|values|] == values;
    ghost var unsorted := out;
    out := Sort(out);
    SortSorts(unsorted);
    SortKeeps(unsorted);
    DistinctByCounts(out, unsorted);
    SortedDistinctIsAscending(out);
    assert !lower ==> forall x :: Says(values, x) <==> SaysAs(values, lower, x);
  }

  // --------------------------------------------------------- stable sorting

  // before is a strict order whose ties are transitive, as Compare functions give.
  ghost predicate Ranks(before: (Agent, Agent) -> bool) {
    && (forall a, b :: before(a, b) ==> !before(b, a))
    && (forall a, b, c :: before(a, c) ==> before(a, b) || before(b, c))
  }

  ghost predicate Ordered(before: (Agent, Agent) -> bool, agents: seq<Agent>) {
    forall i, j :: 0 <= i < j < |agents| ==> !before(agents[j], agents[i])
  }

  function InsertBy(before: (Agent, Agent) -> bool, a: Agent, agents: seq<Agent>): (r: seq<Agent>)
    ensures multiset(r) == multiset{a} + multiset(agents)
  {
    if agents == [] then [a]
    else
      assert agents == [agents[0]] + agents[1..];
      if before(agents[0], a) then [agents[0]] + InsertBy(before, a, agents[1..]) else [a] + agents
  }

  // slices.SortStableFunc
  function SortBy(before: (Agent, Agent) -> bool, agents: seq<Agent>): (r: seq<Agent>)
    ensures multiset(r) == multiset(agents)
  {
    if agents == [] then []
    else
      assert agents == [agents[0]] + agents[1..];
      InsertBy(before, agents[0], SortBy(before, agents[1..]))
  }

  lemma {:induction false} InsertByOrdered(before: (Agent, Agent) -> bool, a: Agent, agents: seq<Agent>)
    requires Ranks(before) && Ordered(before, agents)
    ensures Ordered(before, InsertBy(before, a, agents))
  {
    if agents != [] {
      var r := InsertBy(before, a, agents);
      if before(agents[0], a) {
        InsertByOrdered(before, a, agents[1..]);
        forall j | 0 < j < |r| ensures !before(r[j], r[0]) {
          var t := InsertBy(before, a, agents[1..]);
          assert r[j] == t[j - 1] && t[j - 1] in multiset(t);
          assert r[j] == a || r[j] in agents[1..];
        }
      } else {
        forall j | 0 < j < |r| ensures !before(r[j], r[0]) {
          assert j == 1 || !before(agents[j - 1], agents[0]);
        }
      }
    }
  }

  lemma {:induction false} SortByOrdered(before: (Agent, Agent) -> bool, agents: seq<Agent>)
    requires Ranks(before)
    ensures Ordered(before, SortBy(before, agents))
  {
    if agents != [] {
      SortByOrdered(before, agents[1..]);
      InsertByOrdered(before, agents[0], SortBy(before, agents[1..]));
    }
  }

  // The entries whose token normalises to t, in list order.
  function Group(agents: seq<Agent>, t: string): seq<Agent> {
    if agents == [] then [] else Pick(agents[0], t) + Group(agents[1..], t)
  }

  function Pick(a: Agent, t: string): seq<Agent> {
    if NormalToken(a.token) == t then [a] else []
  }

  lemma {:induction false} GroupAppend(a: seq<Agent>, b: seq<Agent>, t: string)
    ensures Group(a + b, t) == Group(a, t) + Group(b, t)
  {
    hide Pick;
    if a == [] {
      assert a + b == b;
    } else {
      GroupAppend(a[1..], b, t);
      assert (a + b)[1..] == a[1..] + b && (a + b)[0] == a[0];
      assert Group(a + b, t) == Pick(a[0], t) + (Group(a[1..], t) + Group(b, t));
    }
  }

  lemma GroupCons(a: Agent, agents: seq<Agent>, t: string)
    ensures Group([a] + agents, t) == Pick(a, t) + Group(agents, t)
  {
    assert ([a] + agents)[1..] == agents;
  }

  lemma GroupSnoc(agents: seq<Agent>, a: Agent, t: string)
    ensures Group(agents + [a], t) == Group(agents, t) + Pick(a, t)
  {
    GroupAppend(agents, [a], t);
    assert [a][1..] == [];
  }

  lemma {:induction false} GroupMembers(agents: seq<Agent>, t: string)
    ensures forall a :: a in Group(agents, t) <==> a in agents && NormalToken(a.token) == t
  {
    if agents != [] {
      GroupMembers(agents[1..], t);
      assert agents == [agents[0]] + agents[1..];
    }
  }

  predicate ByToken(a: Agent, b: Agent) {
    Less(a.token, b.token)
  }

  lemma ByTokenRanks()
    ensures Ranks(ByToken)
  {
    forall a: Agent, b: Agent ensures ByToken(a, b) ==> !ByToken(b, a) {
      LessTrichotomy(a.token, b.token);
    }
    forall a: Agent, b: Agent, c: Agent | ByToken(a, c) ensures ByToken(a, b) || ByToken(b, c) {
      LessTrichotomy(a.token, b.token);
      if Less(b.token, a.token) { LessTransitive(b.token, a.token, c.token); }
    }
  }

  // Sorting by token leaves the entries of one token in the order they had.
  lemma {:induction false} InsertKeepsGroup(a: Agent, agents: seq<Agent>, t: string)
    requires forall i :: 0 <= i < |agents| ==> NormalToken(agents[i].token) == agents[i].token
    requires NormalToken(a.token) == a.token
    ensures Group(InsertBy(ByToken, a, agents), t) == Group([a] + agents, t)
  {
    hide NormalToken, Less;
    GroupCons(a, agents, t);
    if agents != [] && ByToken(agents[0], a) {
      LessIrreflexive(a.token);
      InsertKeepsGroup(a, agents[1..], t);
      GroupCons(a, agents[1..], t);
      GroupCons(agents[0], InsertBy(ByToken, a, agents[1..]), t);
      assert Pick(a, t) == [] || Pick(agents[0], t) == [];
      assert Group(agents, t) == Pick(agents[0], t) + Group(agents[1..], t);
    }
  }

  lemma {:induction false} SortKeepsGroup(agents: seq<Agent>, t: string)
    requires forall i :: 0 <= i < |agents| ==> NormalToken(agents[i].token) == agents[i].token
    ensures Group(SortBy(ByToken, agents), t) == Group(agents, t)
  {
    if agents != [] {
      var rest := SortBy(ByToken, agents[1..]);
      SortKeepsGroup(agents[1..], t);
      forall i | 0 <= i < |rest| ensures NormalToken(rest[i].token) == rest[i].token {
        assert rest[i] in multiset(rest) && rest[i] in multiset(agents[1..]);
      }
      InsertKeepsGroup(agents[0], rest, t);
      GroupCons(agents[0], rest, t);
    }
  }

  // -------------------------------------------------------------- normalize

  function AllSources(group: seq<Agent>): seq<string> {
    if group == [] then [] else AllSources(group[..|group| - 1]) + group[|group| - 1].sources
  }

  predicate SameFields(a: Agent, b: Agent) {
    a.name == b.name && a.family == b.family && a.category == b.category && a.url == b.url
  }

  // One entry for a group: the first one's fields, everybody's sources.
  ghost predicate MergedFrom(a: Agent, group: seq<Agent>) {
    && group != []
    && SameFields(a, group[0])
    && IsTokenList(a.sources, AllSources(group))
  }

  ghost predicate HasToken(out: seq<Agent>, t: string) {
    exists k :: 0 <= k < |out| && out[k].token == t
  }

  ghost predicate TokensAscend(out: seq<Agent>) {
    forall i, j :: 0 <= i < j < |out| ==> Less(out[i].token, out[j].token)
  }

  ghost predicate Kept(a: Agent, agents: seq<Agent>) {
    a.token != "" && MergedFrom(a, Group(agents, a.token))
  }

  ghost predicate IsNormalForm(out: seq<Agent>, agents: seq<Agent>) {
    && TokensAscend(out)
    && (forall k :: 0 <= k < |out| ==> Kept(out[k], agents))
    && (forall t {:trigger HasToken(out, t)} {:trigger Group(agents, t)} ::
      t != "" && Group(agents, t) != [] ==> HasToken(out, t))
  }

  // m is what the first loop of normalize makes of a.
  ghost predicate Cleaned(m: Agent, a: Agent) {
    && m.token == NormalToken(a.token)
    && SameFields(m, a)
    && IsTokenList(m.sources, a.sources)
  }

  lemma TokenListSaysTheSame(out: seq<string>, values: seq<string>)
    requires IsTokenList(out, values)
    ensures forall x :: Says(out, x) <==> Says(values, x)
  {
    forall v | v in out ensures TrimSpace(v) == v {
      assert Says(values, v);
      var w :| w in values && TrimSpace(w) == v;
      var lo, hi := TrimCuts(w, IsSpace);
      TrimNothing(v);
    }
    forall x ensures Says(out, x) <==> Says(values, x) {
      if x in out { assert TrimSpace(x) == x; }
    }
  }

  lemma SaysAppend(a: seq<string>, b: seq<string>)
    ensures forall x :: Says(a + b, x) <==> Says(a, x) || Says(b, x)
  {
    forall x ensures Says(a + b, x) <==> Says(a, x) || Says(b, x) {
      if Says(a, x) {
        var v :| v in a && TrimSpace(v) == x;
        assert v in a + b;
      }
      if Says(b, x) {
        var v :| v in b && TrimSpace(v) == x;
        assert v in a + b;
      }
    }
  }

  // Two groups from which the same entry is merged.
  ghost predicate Alike(g: seq<Agent>, h: seq<Agent>) {
    && |g| == |h|
    && (g != [] ==> SameFields(g[0], h[0]))
    && forall x :: Says(AllSources(g), x) <==> Says(AllSources(h), x)
  }

  lemma AlikeMerge(g: seq<Agent>, h: seq<Agent>, a: Agent)
    requires Alike(g, h)
    ensures MergedFrom(a, g) <==> MergedFrom(a, h)
  {
  }

  lemma AlikeExtends(g: seq<Agent>, h: seq<Agent>, m: Agent, a: Agent)
    requires Alike(g, h) && Cleaned(m, a)
    ensures Alike(g + [m], h + [a])
  {
    GroupExtends(g, m);
    GroupExtends(h, a);
    TokenListSaysTheSame(m.sources, a.sources);
  }

  lemma AlikeStep(g: seq<Agent>, h: seq<Agent>, m: Agent, a: Agent, t: string)
    requires Alike(g, h) && Cleaned(m, a)
    ensures Alike(g + Pick(m, t), h + Pick(a, t))
  {
    NormalTokenStays(a.token);
    if m.token == t {
      AlikeExtends(g, h, m, a);
    } else {
      assert g + [] == g && h + [] == h;
    }
  }

  lemma SplitLast<T>(s: seq<T>)
    requires s != []
    ensures s == s[..|s| - 1] + [s[|s| - 1]]
  {
  }

  lemma {:induction false} CleaningKeepsGroups(m: seq<Agent>, a: seq<Agent>, t: string)
    requires |m| == |a| && forall i :: 0 <= i < |a| ==> Cleaned(m[i], a[i])
    ensures Alike(Group(m, t), Group(a, t))
  {
    if |m| > 0 {
      hide Alike, Cleaned, Pick;
      var n := |m| - 1;
      var m', a' := m[..n], a[..n];
      CleaningKeepsGroups(m', a', t);
      AlikeStep(Group(m', t), Group(a', t), m[n], a[n], t);
      GroupSnoc(m', m[n], t);
      GroupSnoc(a', a[n], t);
      SplitLast(m);
      SplitLast(a);
    }
  }

  lemma GroupExtends(group: seq<Agent>, a: Agent)
    ensures forall x :: Says(AllSources(group + [a]), x) <==> Says(AllSources(group), x) || Says(a.sources, x)
  {
    assert (group + [a])[..|group|] == group;
    SaysAppend(AllSources(group), a.sources);
  }

  // ------------------------------------------------- dropping repeated tokens

  ghost predicate SourcesClean(agents: seq<Agent>) {
    forall i :: 0 <= i < |agents| ==> IsTokenList(agents[i].sources, agents[i].sources)
  }

  ghost predicate Clean(agents: seq<Agent>) {
    forall i :: 0 <= i < |agents| ==> NormalToken(agents[i].token) == agents[i].token
  }

  lemma GroupOfOther(agents: seq<Agent>, a: Agent, t: string)
    requires NormalToken(a.token) == a.token
    ensures Group(agents + [a], t) == if a.token == t then Group(agents, t) + [a] else Group(agents, t)
  {
    GroupSnoc(agents, a, t);
  }

  lemma DropBlank(out: seq<Agent>, agents: seq<Agent>, a: Agent)
    requires IsNormalForm(out, agents) && a.token == ""
    requires NormalToken(a.token) == a.token
    ensures IsNormalForm(out, agents + [a])
  {
    forall t | t != "" ensures Group(agents + [a], t) == Group(agents, t) {
      GroupOfOther(agents, a, t);
    }
  }

  lemma StaysKept(b: Agent, agents: seq<Agent>, a: Agent)
    requires Kept(b, agents) && b.token != a.token && NormalToken(a.token) == a.token
    ensures Kept(b, agents + [a])
  {
    GroupOfOther(agents, a, b.token);
  }

  lemma MergedIsKept(b: Agent, agents: seq<Agent>, a: Agent, sources: seq<string>)
    requires Kept(b, agents) && b.token == a.token && NormalToken(a.token) == a.token
    requires IsTokenList(sources, b.sources + a.sources)
    ensures Kept(b.(sources := sources), agents + [a])
  {
    var g := Group(agents, a.token);
    GroupOfOther(agents, a, b.token);
    GroupExtends(g, a);
    SaysAppend(b.sources, a.sources);
    TokenListSaysTheSame(b.sources, AllSources(g));
  }

  lemma FirstIsKept(agents: seq<Agent>, a: Agent)
    requires a.token != "" && NormalToken(a.token) == a.token && Group(agents, a.token) == []
    requires IsTokenList(a.sources, a.sources)
    ensures Kept(a, agents + [a])
  {
    GroupOfOther(agents, a, a.token);
    assert [a][..0] == [];
    assert AllSources([a]) == a.sources;
  }

  // An entry whose token is that of the last one kept is merged into it.
  lemma MergeIntoLast(out: seq<Agent>, agents: seq<Agent>, a: Agent, sources: seq<string>)
    requires IsNormalForm(out, agents) && out != [] && out[|out| - 1].token == a.token
    requires NormalToken(a.token) == a.token
    requires IsTokenList(sources, out[|out| - 1].sources + a.sources)
    ensures IsNormalForm(out[|out| - 1 := out[|out| - 1].(sources := sources)], agents + [a])
  {
    hide NormalToken, Less, Group, Kept, IsTokenList;
    var n := |out| - 1;
    var out' := out[n := out[n].(sources := sources)];
    forall t | t != "" && Group(agents + [a], t) != [] ensures HasToken(out', t) {
      GroupOfOther(agents, a, t);
      assert out'[n].token == a.token;
      if t != a.token {
        assert HasToken(out, t);
        var k :| 0 <= k < |out| && out[k].token == t;
        assert out'[k].token == t;
      }
    }
    forall k | 0 <= k < |out'| ensures Kept(out'[k], agents + [a]) {
      if k < n {
        LessIrreflexive(out[k].token);
        StaysKept(out[k], agents, a);
      } else {
        MergedIsKept(out[n], agents, a, sources);
      }
    }
  }

  lemma EndOrder(out: seq<Agent>, t: string)
    requires TokensAscend(out) && (out == [] || Less(out[|out| - 1].token, t))
    ensures !HasToken(out, t) && forall k :: 0 <= k < |out| ==> Less(out[k].token, t)
  {
    forall k | 0 <= k < |out| ensures Less(out[k].token, t) {
      if k < |out| - 1 { LessTransitive(out[k].token, out[|out| - 1].token, t); }
    }
    LessIrreflexive(t);
  }

  // An entry with a larger token than the last one kept is kept itself.
  lemma KeepNext(out: seq<Agent>, agents: seq<Agent>, a: Agent)
    requires IsNormalForm(out, agents) && a.token != "" && (out == [] || Less(out[|out| - 1].token, a.token))
    requires NormalToken(a.token) == a.token && IsTokenList(a.sources, a.sources)
    ensures IsNormalForm(out + [a], agents + [a])
  {
    var out' := out + [a];
    EndOrder(out, a.token);
    forall t | t != "" && Group(agents + [a], t) != [] ensures HasToken(out', t) {
      GroupOfOther(agents, a, t);
      assert out'[|out|].token == a.token;
      if t != a.token {
        assert HasToken(out, t);
        var k :| 0 <= k < |out| && out[k].token == t;
        assert out'[k].token == t;
      }
    }
    forall k | 0 <= k < |out'| ensures Kept(out'[k], agents + [a]) {
      if k < |out| {
        LessIrreflexive(out[k].token);
        StaysKept(out[k], agents, a);
      } else {
        FirstIsKept(agents, a);
      }
    }
  }

  // In a list sorted by token, the last token kept is at most the next one.
  lemma LastIsAtMost(out: seq<Agent>, agents: seq<Agent>, a: Agent)
    requires IsNormalForm(out, agents) && out != [] && Clean(agents)
    requires forall i :: 0 <= i < |agents| ==> !Less(a.token, agents[i].token)
    ensures out[|out| - 1].token == a.token || Less(out[|out| - 1].token, a.token)
  {
    var t := out[|out| - 1].token;
    assert MergedFrom(out[|out| - 1], Group(agents, t));
    var b := Group(agents, t)[0];
    GroupMembers(agents, t);
    assert b in Group(agents, t);
    LessTrichotomy(t, a.token);
  }

  // AIAgentData
  class AgentData {
    var agents: seq<Agent>

    constructor (list: seq<Agent>)
      ensures agents == list
    {
      agents := list;
    }

    // The first loop of normalize.
    method CleanEntries()
      modifies this
      ensures |agents| == |old(agents)| && forall i :: 0 <= i < |agents| ==> Cleaned(agents[i], old(agents)[i])
    {
      var i := 0;
      while i < |agents|
        invariant 0 <= i <= |agents| == |old(agents)|
        invariant forall j :: 0 <= j < i ==> Cleaned(agents[j], old(agents)[j])
        invariant forall j :: i <= j < |agents| ==> agents[j] == old(agents)[j]
      {
        var sources := NormalizeTokenList(agents[i].sources, false);
        agents := agents[i := agents[i].(token := NormalToken(agents[i].token), sources := sources)];
        i := i + 1;
      }
    }

    // The last loop of normalize, on a list sorted by token.
    method DropRepeats()
      requires Ordered(ByToken, agents) && Clean(agents)
      requires SourcesClean(agents)
      modifies this
      ensures IsNormalForm(agents, old(agents))
    {
      hide NormalToken, Less, IsNormalForm, IsTokenList;
      var list, deduped: seq<Agent> := agents, [];
      NothingIsNormal();
      for i := 0 to |list|
        invariant IsNormalForm(deduped, list[..i])
      {
        deduped := KeepOrMerge(deduped, list[..i], list[i]);
        assert list[..i + 1] == list[..i] + [list[i]];
      }
      assert list[..|list|] == list;
      agents := deduped;
    }

    static method KeepOrMerge(deduped: seq<Agent>, ghost past: seq<Agent>, agent: Agent) returns (r: seq<Agent>)
      requires IsNormalForm(deduped, past) && Clean(past)
      requires NormalToken(agent.token) == agent.token && IsTokenList(agent.sources, agent.sources)
      requires forall i :: 0 <= i < |past| ==> !Less(agent.token, past[i].token)
      ensures IsNormalForm(r, past + [agent])
    {
      var n := |deduped|;
      if agent.token == "" {
        DropBlank(deduped, past, agent);
        return deduped;
      }
      if n > 0 && deduped[n - 1].token == agent.token {
        var sources := NormalizeTokenList(deduped[n - 1].sources + agent.sources, false);
        MergeIntoLast(deduped, past, agent, sources);
        return deduped[n - 1 := deduped[n - 1].(sources := sources)];
      }
      if n > 0 {
        LastIsAtMost(deduped, past, agent);
      }
      KeepNext(deduped, past, agent);
      return deduped + [agent];
    }

    // normalize: one entry per token, in token order. The first entry written
    // for a token wins, and it is credited with every source of its token.
    method Normalize()
      modifies this
      ensures Normalized(agents, old(agents))
      ensures IsNormalForm(agents, old(agents))
    {
      CleanEntries();
      ghost var cleaned := agents;
      CleanedIsClean(cleaned, old(agents));
      agents := SortBy(ByToken, agents);
      ByTokenRanks();
      SortByOrdered(ByToken, cleaned);
      SortKeepsEntries(cleaned);
      ghost var sorted := agents;
      DropRepeats();
      NormalFormOfSorted(agents, cleaned, old(agents));
      NormalFormMeans(agents, old(agents));
    }
  }

  // ------------------------------------------- the normal form, entry by entry

  // Entry i of the list is the first with this token, trimmed and lowered.
  ghost predicate FirstWith(agents: seq<Agent>, i: nat, t: string) {
    && i < |agents| && Lower(TrimSpace(agents[i].token)) == t
    && forall j :: 0 <= j < i ==> Lower(TrimSpace(agents[j].token)) != t
  }

  ghost predicate FieldsOfFirst(agents: seq<Agent>, a: Agent) {
    exists i: nat :: FirstWith(agents, i, a.token) && a == agents[i].(token := a.token, sources := a.sources)
  }

  // Some entry with this token has the source, spaces around it aside.
  ghost predicate Sourced(agents: seq<Agent>, t: string, source: string) {
    exists i, v ::
      0 <= i < |agents| && v in agents[i].sources
        && Lower(TrimSpace(agents[i].token)) == t && TrimSpace(v) == source
  }

  // The tokens ascend; each non-blank token of the list is there; and an entry has
  // the fields of the first entry with its token, and the non-blank sources of all
  // of them, ascending.
  ghost predicate Normalized(out: seq<Agent>, agents: seq<Agent>) {
    && (forall i, j :: 0 <= i < j < |out| ==> Less(out[i].token, out[j].token))
    && (forall i :: 0 <= i < |agents| && Lower(TrimSpace(agents[i].token)) != "" ==>
         exists k :: 0 <= k < |out| && out[k].token == Lower(TrimSpace(agents[i].token)))
    && forall k :: 0 <= k < |out| ==>
         && out[k].token != ""
         && FieldsOfFirst(agents, out[k])
         && Ascending(out[k].sources)
         && forall x :: x in out[k].sources <==> x != "" && Sourced(agents, out[k].token, x)
  }

  lemma {:induction false} FirstOfGroup(agents: seq<Agent>, t: string) returns (i: nat)
    requires Group(agents, t) != []
    ensures FirstWith(agents, i, t) && Group(agents, t)[0] == agents[i]
  {
    if NormalToken(agents[0].token) == t {
      i := 0;
    } else {
      assert Group(agents, t) == Group(agents[1..], t);
      var k := FirstOfGroup(agents[1..], t);
      i := k + 1;
    }
  }

  lemma {:induction false} SourcesOfGroup(group: seq<Agent>, v: string)
    ensures v in AllSources(group) <==> exists a :: a in group && v in a.sources
  {
    if group != [] {
      var n := |group| - 1;
      SourcesOfGroup(group[..n], v);
      assert group == group[..n] + [group[n]];
    }
  }

  lemma SaysIsSourced(agents: seq<Agent>, t: string, x: string)
    ensures Says(AllSources(Group(agents, t)), x) <==> x != "" && Sourced(agents, t, x)
  {
    var group := Group(agents, t);
    GroupMembers(agents, t);
    if Says(AllSources(group), x) {
      var v :| v in AllSources(group) && TrimSpace(v) == x;
      SourcesOfGroup(group, v);
      var a :| a in group && v in a.sources;
      var i :| 0 <= i < |agents| && agents[i] == a;
    }
    if x != "" && Sourced(agents, t, x) {
      var i, v :| 0 <= i < |agents| && v in agents[i].sources
        && Lower(TrimSpace(agents[i].token)) == t && TrimSpace(v) == x;
      assert agents[i] in group;
      SourcesOfGroup(group, v);
    }
  }

  lemma NormalFormMeans(out: seq<Agent>, agents: seq<Agent>)
    requires IsNormalForm(out, agents)
    ensures Normalized(out, agents)
  {
    hide Lower, TrimSpace, Less, Ascending, AllSources, Group, Sourced;
    forall i | 0 <= i < |agents| && Lower(TrimSpace(agents[i].token)) != ""
      ensures exists k :: 0 <= k < |out| && out[k].token == Lower(TrimSpace(agents[i].token))
    {
      var t := Lower(TrimSpace(agents[i].token));
      GroupMembers(agents, t);
      assert agents[i] in Group(agents, t);
      assert HasToken(out, t);
    }
    forall k | 0 <= k < |out|
      ensures out[k].token != ""
      ensures FieldsOfFirst(agents, out[k])
      ensures Ascending(out[k].sources)
      ensures forall x :: x in out[k].sources <==> x != "" && Sourced(agents, out[k].token, x)
    {
      assert Kept(out[k], agents);
      var i := FirstOfGroup(agents, out[k].token);
      forall x
        ensures Says(AllSources(Group(agents, out[k].token)), x) <==> x != "" && Sourced(agents, out[k].token, x)
      {
        SaysIsSourced(agents, out[k].token, x);
      }
    }
  }

  lemma NothingIsNormal()
    ensures IsNormalForm([], [])
  {
  }

  lemma CleanedIsClean(m: seq<Agent>, a: seq<Agent>)
    requires |m| == |a| && forall i :: 0 <= i < |a| ==> Cleaned(m[i], a[i])
    ensures Clean(m) && SourcesClean(m)
  {
    forall i | 0 <= i < |m| ensures NormalToken(m[i].token) == m[i].token && IsTokenList(m[i].sources, m[i].sources) {
      NormalTokenStays(a[i].token);
      TokenListSaysTheSame(m[i].sources, a[i].sources);
    }
  }

  lemma SortKeepsEntries(agents: seq<Agent>)
    requires Clean(agents) && SourcesClean(agents)
    ensures Clean(SortBy(ByToken, agents)) && SourcesClean(SortBy(ByToken, agents))
  {
    var r := SortBy(ByToken, agents);
    forall i | 0 <= i < |r| ensures NormalToken(r[i].token) == r[i].token && IsTokenList(r[i].sources, r[i].sources) {
      assert r[i] in multiset(r) && r[i] in multiset(agents);
    }
  }

  lemma NormalFormOfSorted(out: seq<Agent>, cleaned: seq<Agent>, agents: seq<Agent>)
    requires |cleaned| == |agents| && forall i :: 0 <= i < |agents| ==> Cleaned(cleaned[i], agents[i])
    requires Clean(cleaned) && IsNormalForm(out, SortBy(ByToken, cleaned))
    ensures IsNormalForm(out, agents)
  {
    forall t ensures Alike(Group(SortBy(ByToken, cleaned), t), Group(agents, t)) {
      SortKeepsGroup(cleaned, t);
      CleaningKeepsGroups(cleaned, agents, t);
    }
    forall k | 0 <= k < |out| ensures Kept(out[k], agents) {
      AlikeMerge(Group(SortBy(ByToken, cleaned), out[k].token), Group(agents, out[k].token), out[k]);
    }
  }

  // ----------------------------------------------- what the normal form means

  ghost predicate UniqueTokens(agents: seq<Agent>) {
    forall i, j :: 0 <= i < j < |agents| ==> agents[i].token != agents[j].token
  }

  // A normal form has normal tokens, each once.
  lemma NormalFormIsNormal(out: seq<Agent>, agents: seq<Agent>)
    requires IsNormalForm(out, agents)
    ensures UniqueTokens(out) && forall k :: 0 <= k < |out| ==> IsNormal(out[k].token)
  {
    forall k | 0 <= k < |out| ensures IsNormal(out[k].token) {
      var g := Group(agents, out[k].token);
      GroupMembers(agents, out[k].token);
      assert g[0] in g;
      NormalTokenStays(g[0].token);
    }
    forall i, j | 0 <= i < j < |out| ensures out[i].token != out[j].token {
      LessIrreflexive(out[i].token);
    }
  }

  function Tokens(agents: seq<Agent>): (r: seq<string>)
    ensures |r| == |agents| && forall i :: 0 <= i < |agents| ==> r[i] == agents[i].token
  {
    seq(|agents|, i requires 0 <= i < |agents| => agents[i].token)
  }

  lemma SameTokensIn(a: seq<Agent>, b: seq<Agent>, agents: seq<Agent>)
    requires IsNormalForm(a, agents) && IsNormalForm(b, agents)
    ensures forall t :: t in Tokens(a) ==> t in Tokens(b)
  {
    forall t | t in Tokens(a) ensures t in Tokens(b) {
      var i :| 0 <= i < |a| && a[i].token == t;
      assert Kept(a[i], agents);
      assert HasToken(b, t);
      var k :| 0 <= k < |b| && b[k].token == t;
      assert Tokens(b)[k] == t;
    }
  }

  // There is one normal form of a list.
  lemma NormalFormIsUnique(a: seq<Agent>, b: seq<Agent>, agents: seq<Agent>)
    requires IsNormalForm(a, agents) && IsNormalForm(b, agents)
    ensures a == b
  {
    SameTokensIn(a, b, agents);
    SameTokensIn(b, a, agents);
    AscendingIsUnique(Tokens(a), Tokens(b));
    forall k | 0 <= k < |a| ensures a[k] == b[k] {
      assert Tokens(a)[k] == Tokens(b)[k];
      assert Kept(a[k], agents) && Kept(b[k], agents);
      AscendingIsUnique(a[k].sources, b[k].sources);
    }
  }

  // Normalising a normal form changes nothing.
  lemma NormalizeTwice(a: seq<Agent>, b: seq<Agent>, agents: seq<Agent>)
    requires IsNormalForm(a, agents) && IsNormalForm(b, a)
    ensures b == a
  {
    NormalFormIsNormal(a, agents);
    forall k | 0 <= k < |a| ensures Group(a, a[k].token) == [a[k]] && IsTokenList(a[k].sources, a[k].sources) {
      GroupOfUnique(a, k);
      TokenListSaysTheSame(a[k].sources, AllSources(Group(agents, a[k].token)));
    }
    forall t | t != "" && Group(a, t) != [] ensures HasToken(a, t) {
      GroupMembers(a, t);
      assert Group(a, t)[0] in a;
    }
    forall k | 0 <= k < |a| ensures Kept(a[k], a) {
      assert [a[k]][..0] == [];
      assert AllSources([a[k]]) == a[k].sources;
    }
    assert IsNormalForm(a, a);
    NormalFormIsUnique(a, b, a);
  }

  lemma {:induction false} GroupOfUnique(a: seq<Agent>, k: nat)
    requires k < |a| && UniqueTokens(a) && Clean(a)
    ensures Group(a, a[k].token) == [a[k]]
  {
    var t := a[k].token;
    assert a == a[..k] + ([a[k]] + a[k + 1..]);
    GroupAppend(a[..k], [a[k]] + a[k + 1..], t);
    GroupEmpty(a[..k], t);
    GroupEmpty(a[k + 1..], t);
  }

  lemma {:induction false} GroupEmpty(agents: seq<Agent>, t: string)
    requires forall i :: 0 <= i < |agents| ==> NormalToken(agents[i].token) != t
    ensures Group(agents, t) == []
  {
    if agents != [] { GroupEmpty(agents[1..], t); }
  }
}
