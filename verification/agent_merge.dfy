// mergeAgentEntries and rankOf of aianalytics/updater.go: the entries of several
// upstream lists that share a token become one.
module AgentMerge {
  import opened Text
  import opened AgentList

  // sourceRank
  const RankedSources := ["hitkeep_curated", "ai_robots_txt", "device_detector_bots", "crawler_user_agents"]

  // Any other source ranks last.
  function SourceRank(source: string): nat {
    if source == RankedSources[0] then 0
    else if source == RankedSources[1] then 1
    else if source == RankedSources[2] then 2
    else if source == RankedSources[3] then 3
    else 4
  }

  ghost predicate IsRank(rank: nat, sources: seq<string>) {
    && (forall s :: s in sources ==> rank <= SourceRank(s))
    && rank <= 4
    && (rank == 4 || exists s :: s in sources && SourceRank(s) == rank)
  }

  lemma RankMeans(sources: seq<string>)
    ensures forall rank :: IsRank(rank, sources) ==>
      rank == if "hitkeep_curated" in sources then 0
              else if "ai_robots_txt" in sources then 1
              else if "device_detector_bots" in sources then 2
              else if "crawler_user_agents" in sources then 3 else 4
  {
    assert SourceRank("hitkeep_curated") == 0 && SourceRank("ai_robots_txt") == 1;
    assert SourceRank("device_detector_bots") == 2 && SourceRank("crawler_user_agents") == 3;
  }

  // rankOf
  method RankOf(sources: seq<string>) returns (best: nat)
    ensures IsRank(best, sources)
    ensures best == if "hitkeep_curated" in sources then 0
                    else if "ai_robots_txt" in sources then 1
                    else if "device_detector_bots" in sources then 2
                    else if "crawler_user_agents" in sources then 3 else 4
  {
    RankMeans(sources);
    hide SourceRank;
    best := 4;
    for i := 0 to |sources|
      invariant IsRank(best, sources[..i])
    {
      var rank := SourceRank(sources[i]);
      assert sources[..i + 1] == sources[..i] + [sources[i]];
      if rank < best {
        best := rank;
      }
    }
    assert sources[..|sources|] == sources;
  }

  // ------------------------------------------------------------- the winner

  // What the entry merged from a group is credited with: a single entry keeps
  // its sources as written, joined ones are trimmed.
  ghost predicate Credited(group: seq<Agent>, x: string) {
    if |group| == 1 then x in group[0].sources else Says(AllSources(group), x)
  }

  ghost predicate Credits(sources: seq<string>, group: seq<Agent>) {
    forall x :: x in sources <==> Credited(group, x)
  }

  // The entry at j ranks better than what the ones before it have merged into.
  ghost predicate Beats(group: seq<Agent>, j: nat)
    requires j < |group|
  {
    j == 0 || forall r, p, sources ::
      IsRank(r, group[j].sources) && IsRank(p, sources) && Credits(sources, group[..j]) ==> r < p
  }

  // The last entry that does
  ghost predicate Wins(group: seq<Agent>, w: nat) {
    w < |group| && Beats(group, w) && forall j :: w < j < |group| ==> !Beats(group, j)
  }

  ghost predicate HasUrl(group: seq<Agent>) {
    exists a :: a in group && a.url != ""
  }

  // What the entries of one token merge into: the fields of the winner, every
  // source, and a URL if any entry has one, the winner's before others.
  ghost predicate MergedAs(m: Agent, t: string, group: seq<Agent>, w: nat) {
    && Wins(group, w)
    && m.token == t
    && m.name == group[w].name && m.family == group[w].family && m.category == group[w].category
    && Credits(m.sources, group)
    && (m.url != "" <==> HasUrl(group))
    && (group[w].url != "" ==> m.url == group[w].url)
  }

  ghost predicate Merged(m: Agent, t: string, group: seq<Agent>) {
    exists w :: MergedAs(m, t, group, w)
  }

  lemma RankIsOne(a: nat, b: nat, s: seq<string>, t: seq<string>)
    requires IsRank(a, s) && IsRank(b, t) && forall x :: x in s <==> x in t
    ensures a == b
  {
  }

  lemma {:induction false} RankExists(sources: seq<string>) returns (r: nat)
    ensures IsRank(r, sources)
  {
    hide SourceRank;
    if sources == [] {
      r := 4;
    } else {
      var n := |sources| - 1;
      r := RankExists(sources[..n]);
      assert sources == sources[..n] + [sources[n]];
      if SourceRank(sources[n]) < r { r := SourceRank(sources[n]); }
    }
  }

  // Two ranks decide.
  lemma BeatsIs(group: seq<Agent>, a: Agent, r: nat, p: nat, sources: seq<string>)
    requires group != [] && IsRank(r, a.sources) && IsRank(p, sources) && Credits(sources, group)
    ensures Beats(group + [a], |group|) <==> r < p
  {
    hide IsRank, Credited;
    var longer := group + [a];
    assert longer[..|group|] == group && longer[|group|] == a;
    if r < p {
      forall r', p', sources' | IsRank(r', a.sources) && IsRank(p', sources') && Credits(sources', group)
        ensures r' < p'
      {
        RankIsOne(r', r, a.sources, a.sources);
        RankIsOne(p', p, sources', sources);
      }
    }
  }

  lemma BeatsBefore(group: seq<Agent>, a: Agent, j: nat)
    requires j < |group|
    ensures Beats(group + [a], j) <==> Beats(group, j)
  {
    hide IsRank, Credits;
    assert (group + [a])[..j] == group[..j] && (group + [a])[j] == group[j];
  }

  lemma WinnerStep(group: seq<Agent>, w: nat, a: Agent, r: nat, p: nat, sources: seq<string>)
    requires Wins(group, w) && IsRank(r, a.sources) && IsRank(p, sources) && Credits(sources, group)
    ensures Wins(group + [a], if r < p then |group| else w)
  {
    hide Beats, IsRank, Credits;
    BeatsIs(group, a, r, p, sources);
    forall j: nat | j < |group| ensures Beats(group + [a], j) <==> Beats(group, j) {
      BeatsBefore(group, a, j);
    }
  }

  // Credit for a longer group: what the joined sources say
  lemma CreditStep(sources: seq<string>, group: seq<Agent>, a: Agent, joined: seq<string>)
    requires group != [] && Credits(sources, group) && IsTokenList(joined, sources + a.sources)
    ensures Credits(joined, group + [a])
  {
    SaysAppend(sources, a.sources);
    SaysAppend(AllSources(group), a.sources);
    AllSourcesSnoc(group, a);
    forall x ensures Says(sources, x) <==> Says(AllSources(group), x) {
      if |group| == 1 {
        AllSourcesSnoc([], group[0]);
        assert group == [] + [group[0]];
      } else {
        CreditedSayThemselves(sources, group, x);
      }
    }
  }

  lemma SaidIsTrimmed(values: seq<string>, x: string)
    requires Says(values, x)
    ensures TrimSpace(x) == x && x != ""
  {
    var v :| v in values && TrimSpace(v) == x;
    var lo, hi := TrimCuts(v, IsSpace);
    TrimNothing(x);
  }

  lemma CreditedSayThemselves(sources: seq<string>, group: seq<Agent>, x: string)
    requires |group| != 1 && Credits(sources, group)
    ensures Says(sources, x) <==> Says(AllSources(group), x)
  {
    hide TrimSpace, AllSources;
    var all := AllSources(group);
    assert x in sources <==> Says(all, x);
    if Says(all, x) {
      SaidIsTrimmed(all, x);
      assert x in sources && TrimSpace(x) == x;
    }
    if Says(sources, x) {
      var v :| v in sources && TrimSpace(v) == x;
      assert Credited(group, v);
      SaidIsTrimmed(all, v);
      assert v == x;
    }
  }

  lemma AllSourcesSnoc(group: seq<Agent>, a: Agent)
    ensures AllSources(group + [a]) == AllSources(group) + a.sources
  {
    assert (group + [a])[..|group|] == group;
  }

  lemma FirstMerge(a: Agent)
    ensures MergedAs(a.(token := NormalToken(a.token)), NormalToken(a.token), [a], 0)
  {
    assert a.url != "" ==> a in [a];
  }

  lemma NextMerge(
    m: Agent, t: string, group: seq<Agent>, w: nat, a: Agent, r: nat, p: nat, merged: Agent)
    requires MergedAs(m, t, group, w) && IsRank(r, a.sources) && IsRank(p, m.sources)
    requires IsTokenList(merged.sources, m.sources + a.sources)
    requires var (first, second) := if r < p then (a.(token := t), m) else (m, a.(token := t));
             merged == first.(url := if first.url == "" then second.url else first.url, sources := merged.sources)
    ensures Merged(merged, t, group + [a])
  {
    hide Beats, IsRank, Credits, IsTokenList;
    WinnerStep(group, w, a, r, p, m.sources);
    CreditStep(m.sources, group, a, merged.sources);
    assert HasUrl(group + [a]) <==> HasUrl(group) || a.url != "" by {
      assert a in group + [a];
      assert HasUrl(group) ==> exists b :: b in group + [a] && b.url != "";
    }
    assert MergedAs(merged, t, group + [a], if r < p then |group| else w);
  }

  // ------------------------------------------------------------ the whole list

  ghost predicate MergedSoFar(byToken: map<string, Agent>, entries: seq<Agent>) {
    forall t {:trigger Group(entries, t)} ::
      (t in byToken <==> Group(entries, t) != []) && (t in byToken ==> Merged(byToken[t], t, Group(entries, t)))
  }

  lemma MergedStep(byToken: map<string, Agent>, entries: seq<Agent>, a: Agent, merged: Agent)
    requires MergedSoFar(byToken, entries)
    requires Merged(merged, NormalToken(a.token), Group(entries, NormalToken(a.token)) + [a])
    ensures MergedSoFar(byToken[NormalToken(a.token) := merged], entries + [a])
  {
    hide Merged, Group, NormalToken;
    forall t
      ensures Group(entries + [a], t) ==
        if NormalToken(a.token) == t then Group(entries, t) + [a] else Group(entries, t)
    {
      GroupSnoc(entries, a, t);
      assert Group(entries, t) + [] == Group(entries, t);
    }
  }

  // mergeAgentEntries, up to the arbitrary order of its result
  method MergeAgentEntries(entries: seq<Agent>) returns (byToken: map<string, Agent>)
    ensures MergedSoFar(byToken, entries)
  {
    hide Merged, MergedAs, IsRank, Group, NormalToken, MergedSoFar;
    byToken := map[];
    NothingMerged();
    for i := 0 to |entries|
      invariant MergedSoFar(byToken, entries[..i])
    {
      var entry := entries[i].(token := NormalToken(entries[i].token));
      assert entries[..i + 1] == entries[..i] + [entries[i]];
      var merged := MergeOne(byToken, entries[..i], entries[i], entry);
      MergedStep(byToken, entries[..i], entries[i], merged);
      byToken := byToken[entry.token := merged];
    }
    assert entries[..|entries|] == entries;
  }

  lemma NothingMerged()
    ensures MergedSoFar(map[], [])
  {
  }

  // The step for one entry
  method MergeOne(byToken: map<string, Agent>, ghost past: seq<Agent>, ghost raw: Agent, entry: Agent)
    returns (merged: Agent)
    requires MergedSoFar(byToken, past) && entry == raw.(token := NormalToken(raw.token))
    ensures Merged(merged, entry.token, Group(past, entry.token) + [raw])
  {
    hide IsRank, NormalToken, Credits, Beats;
    ghost var group := Group(past, entry.token);
    if entry.token !in byToken {
      FirstMerge(raw);
      assert group + [raw] == [raw];
      return entry;
    }
    var existing := byToken[entry.token];
    ghost var w :| MergedAs(existing, entry.token, group, w);
    var rank := RankOf(entry.sources);
    var existingRank := RankOf(existing.sources);
    var other := entry;
    merged := existing;
    if rank < existingRank {
      merged, other := entry, existing;
    }
    if merged.url == "" {
      merged := merged.(url := other.url);
    }
    var sources := NormalizeTokenList(existing.sources + entry.sources, false);
    merged := merged.(sources := sources);
    NextMerge(existing, entry.token, group, w, raw, rank, existingRank, merged);
  }

  // ------------------------------------------------------------ trimmed sources

  ghost predicate Trimmed(values: seq<string>) {
    forall v :: v in values ==> v != "" && TrimSpace(v) == v
  }

  // The first entry of the best rank in a group
  ghost predicate FirstBest(group: seq<Agent>, w: nat, rank: nat) {
    && w < |group| && IsRank(rank, group[w].sources)
    && (forall j, r :: 0 <= j < |group| && IsRank(r, group[j].sources) ==> rank <= r)
    && (forall j, r :: 0 <= j < w && IsRank(r, group[j].sources) ==> rank < r)
  }

  lemma {:induction false} SourceHasEntry(group: seq<Agent>, s: string)
    ensures s in AllSources(group) <==> exists j :: 0 <= j < |group| && s in group[j].sources
  {
    if group != [] {
      var n := |group| - 1;
      SourceHasEntry(group[..n], s);
      assert group == group[..n] + [group[n]];
    }
  }

  lemma BestRankOfAll(group: seq<Agent>, w: nat, rank: nat)
    requires FirstBest(group, w, rank)
    ensures IsRank(rank, AllSources(group))
  {
    forall s | s in AllSources(group) ensures rank <= SourceRank(s) {
      SourceHasEntry(group, s);
      var j :| 0 <= j < |group| && s in group[j].sources;
      var r := RankExists(group[j].sources);
    }
    if rank < 4 {
      var s :| s in group[w].sources && SourceRank(s) == rank;
      SourceHasEntry(group, s);
    }
  }

  lemma {:induction false} TrimmedCredits(group: seq<Agent>)
    requires forall a :: a in group ==> Trimmed(a.sources)
    ensures group != [] ==> Credits(AllSources(group), group)
  {
    forall s | s in AllSources(group) ensures s != "" && TrimSpace(s) == s {
      SourceHasEntry(group, s);
      var j :| 0 <= j < |group| && s in group[j].sources;
      assert group[j] in group;
    }
    if |group| == 1 {
      AllSourcesSnoc([], group[0]);
      assert group == [] + [group[0]];
    }
  }

  // Among sources written without surrounding spaces, as all of the program's
  // own are, the winner is the first entry of the best rank.
  lemma {:induction false} WinnerIsFirstBest(group: seq<Agent>, w: nat)
    requires Wins(group, w) && forall a :: a in group ==> Trimmed(a.sources)
    ensures exists rank :: FirstBest(group, w, rank)
  {
    hide Beats, IsRank, Credits, Trimmed;
    var n := |group| - 1;
    var init, last := group[..n], group[n];
    assert group == init + [last];
    var r := RankExists(last.sources);
    if n == 0 {
      forall q | IsRank(q, last.sources) ensures q == r {
        RankIsOne(q, r, last.sources, last.sources);
      }
      assert FirstBest(group, w, r);
    } else {
      var v := LastBeating(init);
      WinnerIsFirstBest(init, v);
      var best :| FirstBest(init, v, best);
      BestRankOfAll(init, v, best);
      TrimmedCredits(init);
      WinnerStep(init, v, last, r, best, AllSources(init));
      WinnerIsOne(group, w, if r < best then n else v);
      FirstBestStep(init, v, best, last, r);
      assert FirstBest(group, w, if r < best then r else best);
    }
  }

  lemma FirstBestStep(group: seq<Agent>, w: nat, rank: nat, a: Agent, r: nat)
    requires FirstBest(group, w, rank) && IsRank(r, a.sources)
    ensures if r < rank then FirstBest(group + [a], |group|, r) else FirstBest(group + [a], w, rank)
  {
    hide IsRank;
    forall q | IsRank(q, a.sources) ensures q == r {
      RankIsOne(q, r, a.sources, a.sources);
    }
  }

  lemma WinnerIsOne(group: seq<Agent>, w: nat, v: nat)
    requires Wins(group, w) && Wins(group, v)
    ensures w == v
  {
  }

  lemma {:induction false} LastBeating(group: seq<Agent>) returns (w: nat)
    requires group != []
    ensures Wins(group, w)
  {
    hide Beats;
    var n := |group| - 1;
    assert Beats(group, 0) by { ZeroBeats(group); }
    w := n;
    while !Beats(group, w)
      invariant w <= n && forall j :: w < j < |group| ==> !Beats(group, j)
      decreases w
    {
      w := w - 1;
    }
  }

  lemma ZeroBeats(group: seq<Agent>)
    requires group != []
    ensures Beats(group, 0)
  {
  }
}
