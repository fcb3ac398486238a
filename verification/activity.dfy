// database/store_activity.go: a batch of hits or events is summarised per site
// and upserted once, where the earlier code upserted every entry by itself.
module Activity {
  import opened Wrappers
  import opened Text

  type Site = nat
  type Tenant = nat
  const NilSite: Site := 0

  // Times in Go are in nanoseconds; a TIMESTAMPTZ column holds microseconds.
  const Second := 1_000_000_000
  const Hour := 3_600 * Second

  function Micro(at: int): int {
    at / 1_000
  }

  datatype Hit = Hit(site: Site, at: int, source: string, version: string, hostname: Option<string>)
  datatype Event = Event(site: Site, at: int, source: string, version: string, name: string)

  // What the batch loop keeps of one hit or event: the label is the trimmed
  // hostname or event name.
  datatype Entry = Entry(at: int, name: string, source: string, version: string, automatic: bool)
  datatype Logged = Logged(site: Site, entry: Entry)
  datatype Kind = Hits | Events

  const AutomaticEvents := ["outbound_click", "file_download", "form_submit"]

  function Cut(s: string): string {
    if |s| > 64 then s[..64] else s
  }

  // normalizeTrackerMetadata
  function TrackerSource(source: string): string {
    var trimmed := TrimSpace(source);
    Cut(if trimmed == "" then "hk.js" else trimmed)
  }

  function TrackerVersion(version: string): string {
    Cut(TrimSpace(version))
  }

  function CleanHit(hit: Hit): Entry {
    var hostname := if hit.hostname.None? then "" else TrimSpace(hit.hostname.value);
    Entry(hit.at, hostname, TrackerSource(hit.source), TrackerVersion(hit.version), false)
  }

  function CleanEvent(event: Event): Entry {
    var name := TrimSpace(event.name);
    Entry(event.at, name, TrackerSource(event.source), TrackerVersion(event.version), name in AutomaticEvents)
  }

  // Entries without a site are skipped.
  function LogHit(hit: Option<Hit>): seq<Logged> {
    if hit.None? || hit.value.site == NilSite then [] else [Logged(hit.value.site, CleanHit(hit.value))]
  }

  function LogEvent(event: Option<Event>): seq<Logged> {
    if event.None? || event.value.site == NilSite then [] else [Logged(event.value.site, CleanEvent(event.value))]
  }

  function HitLog(hits: seq<Option<Hit>>): seq<Logged> {
    if hits == [] then [] else HitLog(hits[..|hits| - 1]) + LogHit(hits[|hits| - 1])
  }

  function EventLog(events: seq<Option<Event>>): seq<Logged> {
    if events == [] then [] else EventLog(events[..|events| - 1]) + LogEvent(events[|events| - 1])
  }

  function Sites(log: seq<Logged>): set<Site> {
    set l | l in log :: l.site
  }

  function OfSite(log: seq<Logged>, site: Site): seq<Entry> {
    if log == [] then []
    else
      var last := log[|log| - 1];
      OfSite(log[..|log| - 1], site) + if last.site == site then [last.entry] else []
  }

  function Bucket(at: int): int {
    at / Hour * 3_600
  }

  function InBucket(entries: seq<Entry>, bucket: int): nat {
    if entries == [] then 0
    else InBucket(entries[..|entries| - 1], bucket) + if Bucket(entries[|entries| - 1].at) == bucket then 1 else 0
  }

  // ------------------------------------------- what a batch says about a site

  function Oldest(entries: seq<Entry>): int
    requires entries != []
  {
    var last := entries[|entries| - 1].at;
    if |entries| == 1 then last
    else
      var before := Oldest(entries[..|entries| - 1]);
      if last < before then last else before
  }

  function Newest(entries: seq<Entry>): int
    requires entries != []
  {
    var last := entries[|entries| - 1].at;
    if |entries| == 1 then last
    else
      var before := Newest(entries[..|entries| - 1]);
      if last < before then before else last
  }

  // The last entry with a label that was not older than those before it.
  function Labelled(entries: seq<Entry>): Option<Entry> {
    if entries == [] then None
    else
      var init, last := entries[..|entries| - 1], entries[|entries| - 1];
      if last.name != "" && (init == [] || last.at >= Newest(init)) then Some(last) else Labelled(init)
  }

  function Label(entries: seq<Entry>): string {
    if Labelled(entries).Some? then Labelled(entries).value.name else ""
  }

  function LastVersion(entries: seq<Entry>): string {
    if entries == [] then ""
    else if entries[|entries| - 1].version != "" then entries[|entries| - 1].version
    else LastVersion(entries[..|entries| - 1])
  }

  function Automatic(entries: seq<Entry>): seq<Entry> {
    if entries == [] then []
    else Automatic(entries[..|entries| - 1]) + if entries[|entries| - 1].automatic then [entries[|entries| - 1]] else []
  }

  datatype HitSummary = HitSummary(firstAt: int, lastAt: int, hostname: string, source: string, version: string)

  datatype EventSummary = EventSummary(
    lastAt: int, lastName: string, automatic: Option<(int, string)>, source: string, version: string)

  function SummarizeHits(entries: seq<Entry>): HitSummary
    requires entries != []
  {
    HitSummary(Oldest(entries), Newest(entries), Label(entries), entries[|entries| - 1].source, LastVersion(entries))
  }

  function SummarizeEvents(entries: seq<Entry>): EventSummary
    requires entries != []
  {
    var automatic := Automatic(entries);
    EventSummary(Newest(entries), Label(entries),
      if automatic == [] then None else Some((Newest(automatic), Label(automatic))),
      entries[|entries| - 1].source, LastVersion(entries))
  }

  // ------------------------------------------------------------- the upserts

  // site_activity_summary; None is NULL.
  datatype Row = Row(
    tenant: Tenant,
    firstHit: Option<int>, lastHit: Option<int>, hostname: Option<string>,
    lastEvent: Option<int>, eventName: Option<string>,
    automaticAt: Option<int>, automaticName: Option<string>,
    source: Option<string>, version: Option<string>)

  function NullIfBlank(s: string): Option<string> {
    if s == "" then None else Some(s)
  }

  function Coalesce<T>(a: Option<T>, b: Option<T>): Option<T> {
    if a.Some? then a else b
  }

  // stored IS NULL OR at >= stored
  predicate Reaches(stored: Option<int>, at: int) {
    stored.None? || at >= stored.value
  }

  // upsertSiteHitActivity; the parameters become microseconds before SQL
  // compares or stores them.
  function UpsertHits(row: Option<Row>, tenant: Tenant, agg: HitSummary): Row {
    match row
    case None =>
      Row(tenant, Some(Micro(agg.firstAt)), Some(Micro(agg.lastAt)), NullIfBlank(agg.hostname), None, None, None, None,
        NullIfBlank(agg.source), NullIfBlank(agg.version))
    case Some(r) =>
      var firstAt, lastAt := Micro(agg.firstAt), Micro(agg.lastAt);
      var newer := Reaches(r.lastHit, lastAt);
      r.(tenant := tenant,
         firstHit := if r.firstHit.None? || firstAt < r.firstHit.value then Some(firstAt) else r.firstHit,
         lastHit := if newer then Some(lastAt) else r.lastHit,
         hostname := if newer then Coalesce(NullIfBlank(agg.hostname), r.hostname) else r.hostname,
         source := Coalesce(NullIfBlank(agg.source), r.source),
         version := Coalesce(NullIfBlank(agg.version), r.version))
  }

  // upsertSiteEventActivity
  function UpsertEvents(row: Option<Row>, tenant: Tenant, agg: EventSummary): Row {
    match row
    case None =>
      Row(tenant, None, None, None, Some(Micro(agg.lastAt)), NullIfBlank(agg.lastName),
        if agg.automatic.None? then None else Some(Micro(agg.automatic.value.0)),
        if agg.automatic.None? then None else NullIfBlank(agg.automatic.value.1),
        NullIfBlank(agg.source), NullIfBlank(agg.version))
    case Some(r) =>
      var lastAt := Micro(agg.lastAt);
      var newer := Reaches(r.lastEvent, lastAt);
      var newerAutomatic := agg.automatic.Some? && Reaches(r.automaticAt, Micro(agg.automatic.value.0));
      r.(tenant := tenant,
         lastEvent := if newer then Some(lastAt) else r.lastEvent,
         eventName := if newer then Coalesce(NullIfBlank(agg.lastName), r.eventName) else r.eventName,
         automaticAt := if newerAutomatic then Some(Micro(agg.automatic.value.0)) else r.automaticAt,
         automaticName := if newerAutomatic then Coalesce(NullIfBlank(agg.automatic.value.1), r.automaticName)
                          else r.automaticName,
         source := Coalesce(NullIfBlank(agg.source), r.source),
         version := Coalesce(NullIfBlank(agg.version), r.version))
  }

  function Upsert(kind: Kind, row: Option<Row>, tenant: Tenant, entries: seq<Entry>): Row
    requires entries != []
  {
    match kind
    case Hits => UpsertHits(row, tenant, SummarizeHits(entries))
    case Events => UpsertEvents(row, tenant, SummarizeEvents(entries))
  }

  // The row after upserting every entry by itself.
  function UpsertSingly(kind: Kind, row: Option<Row>, tenant: Tenant, entries: seq<Entry>): Option<Row> {
    if entries == [] then row
    else
      var n := |entries| - 1;
      Some(Upsert(kind, UpsertSingly(kind, row, tenant, entries[..n]), tenant, [entries[n]]))
  }

  // ------------------------------------------------------- latest with a label

  datatype Latest = Latest(at: Option<int>, name: Option<string>)

  function Touch(s: Latest, at: int, name: string): Latest {
    if Reaches(s.at, at) then Latest(Some(at), Coalesce(NullIfBlank(name), s.name)) else s
  }

  function TouchAll(s: Latest, entries: seq<Entry>): Latest {
    if entries == [] then s
    else
      var last := entries[|entries| - 1];
      Touch(TouchAll(s, entries[..|entries| - 1]), last.at, last.name)
  }

  // The entries as their upserts see them, one by one
  function InMicros(entries: seq<Entry>): (r: seq<Entry>)
    ensures |r| == |entries| && forall i :: 0 <= i < |r| ==> r[i] == entries[i].(at := Micro(entries[i].at))
  {
    seq(|entries|, i requires 0 <= i < |entries| => entries[i].(at := Micro(entries[i].at)))
  }

  // What a batch makes of a stored time and label, and what single upserts do.
  function BatchLatest(s: Latest, entries: seq<Entry>): Latest {
    if entries == [] then s else Touch(s, Micro(Newest(entries)), Label(entries))
  }

  function SingleLatest(s: Latest, entries: seq<Entry>): Latest {
    TouchAll(s, InMicros(entries))
  }

  // The batch takes its label from the last named entry not older than those
  // before it, and writes it if its newest entry reaches the stored time. Single
  // upserts take theirs from the last named entry not older than those before it
  // to the microsecond, and write it if that entry itself reaches the stored time.
  predicate LabelDiffers(s: Latest, entries: seq<Entry>) {
    var batch, single := Labelled(entries), Labelled(InMicros(entries));
    && entries != [] && Reaches(s.at, Micro(Newest(entries)))
    && if single.Some? && Reaches(s.at, single.value.at)
       then Some(single.value.name) != (if batch.Some? then Some(batch.value.name) else s.name)
       else batch.Some? && Some(batch.value.name) != s.name
  }

  // The batch gives the label of an entry that is older than the stored time.
  predicate StaleLabel(s: Latest, entries: seq<Entry>) {
    && entries != [] && s.at.Some? && Micro(Newest(entries)) >= s.at.value
    && Labelled(entries).Some? && Micro(Labelled(entries).value.at) < s.at.value
    && Some(Labelled(entries).value.name) != s.name
  }

  // No entry is older than an earlier one by less than the columns can hold.
  ghost predicate InStep(entries: seq<Entry>) {
    forall i, j :: 0 <= i < j < |entries| && entries[j].at < entries[i].at ==>
      Micro(entries[j].at) < Micro(entries[i].at)
  }

  lemma {:induction false} LabelledIsNoNewer(entries: seq<Entry>)
    ensures Labelled(entries).Some? ==>
      Labelled(entries).value in entries && Labelled(entries).value.at <= Newest(entries)
      && Labelled(entries).value.name != ""
  {
    if entries != [] {
      var n := |entries| - 1;
      LabelledIsNoNewer(entries[..n]);
    }
  }

  // The end state of touching one by one, in closed form.
  lemma {:induction false} TouchAllMeans(s: Latest, entries: seq<Entry>)
    requires entries != []
    ensures TouchAll(s, entries).at == Some(if Reaches(s.at, Newest(entries)) then Newest(entries) else s.at.value)
    ensures TouchAll(s, entries).name
         == if Labelled(entries).Some? && Reaches(s.at, Labelled(entries).value.at)
            then Some(Labelled(entries).value.name) else s.name
  {
    var n := |entries| - 1;
    if n > 0 {
      TouchAllMeans(s, entries[..n]);
      LabelledIsNoNewer(entries[..n]);
    } else {
      assert entries[..n] == [];
    }
  }

  lemma {:induction false} ExtremesInMicros(entries: seq<Entry>)
    requires entries != []
    ensures Newest(InMicros(entries)) == Micro(Newest(entries)) && Oldest(InMicros(entries)) == Micro(Oldest(entries))
  {
    var n := |entries| - 1;
    assert InMicros(entries)[..n] == InMicros(entries[..n]);
    if n > 0 { ExtremesInMicros(entries[..n]); }
  }

  // The batch and the single upserts agree on the time always, and on the label
  // exactly when it does not differ in the way defined.
  lemma LatestAgree(s: Latest, entries: seq<Entry>)
    ensures BatchLatest(s, entries).at == SingleLatest(s, entries).at
    ensures BatchLatest(s, entries).name == SingleLatest(s, entries).name <==> !LabelDiffers(s, entries)
  {
    if entries != [] {
      ExtremesInMicros(entries);
      TouchAllMeans(s, InMicros(entries));
      LabelledIsNoNewer(entries);
      LabelledIsNoNewer(InMicros(entries));
    } else {
      assert InMicros(entries) == [];
    }
  }

  lemma {:induction false} NewestIsIn(entries: seq<Entry>)
    requires entries != []
    ensures exists i :: 0 <= i < |entries| && entries[i].at == Newest(entries)
  {
    var n := |entries| - 1;
    if n > 0 {
      NewestIsIn(entries[..n]);
      var i :| 0 <= i < n && entries[..n][i].at == Newest(entries[..n]);
      assert entries[if entries[n].at < Newest(entries[..n]) then i else n].at == Newest(entries);
    } else {
      assert entries[n].at == Newest(entries);
    }
  }

  ghost predicate Follows(init: seq<Entry>, last: Entry) {
    forall e :: e in init && last.at < e.at ==> Micro(last.at) < Micro(e.at)
  }

  lemma InStepSnoc(init: seq<Entry>, last: Entry)
    ensures InStep(init + [last]) <==> InStep(init) && Follows(init, last)
  {
    hide Micro;
    var entries := init + [last];
    assert forall i :: 0 <= i < |init| ==> entries[i] == init[i];
    if InStep(entries) {
      assert InStep(init);
      forall e | e in init && last.at < e.at ensures Micro(last.at) < Micro(e.at) {
        var i :| 0 <= i < |init| && init[i] == e;
        assert entries[i] == e && entries[|init|] == last;
      }
    }
    if InStep(init) && Follows(init, last) {
      forall i, j | 0 <= i < j < |entries| && entries[j].at < entries[i].at
        ensures Micro(entries[j].at) < Micro(entries[i].at)
      {
        assert entries[i] == init[i] && init[i] in init;
      }
    }
  }

  lemma FollowsFewer(all: seq<Entry>, some: seq<Entry>, last: Entry)
    requires forall e :: e in some ==> e in all
    ensures Follows(all, last) ==> Follows(some, last)
  {
  }

  // In step, an entry reaches those before it to the microsecond only if it does.
  lemma InStepReaches(init: seq<Entry>, last: Entry)
    requires init != [] && Follows(init, last)
    ensures Micro(last.at) >= Micro(Newest(init)) <==> last.at >= Newest(init)
  {
    hide Newest;
    NewestIsIn(init);
    var i :| 0 <= i < |init| && init[i].at == Newest(init);
    assert init[i] in init;
  }

  ghost predicate SameLabel(entries: seq<Entry>) {
    Labelled(InMicros(entries)) == if Labelled(entries).None? then None
      else Some(Labelled(entries).value.(at := Micro(Labelled(entries).value.at)))
  }

  lemma SameLabelStep(init: seq<Entry>, last: Entry)
    requires SameLabel(init) && (init == [] || (Micro(last.at) >= Micro(Newest(init)) <==> last.at >= Newest(init)))
    ensures SameLabel(init + [last])
  {
    hide Newest, Micro, Labelled;
    var e := last.(at := Micro(last.at));
    assert InMicros(init + [last]) == InMicros(init) + [e];
    LabelledStep(init, last);
    LabelledStep(InMicros(init), e);
    if init != [] { ExtremesInMicros(init); }
  }

  // Entries in step have the same label to the microsecond.
  lemma {:induction false} InStepLabels(entries: seq<Entry>)
    requires InStep(entries)
    ensures SameLabel(entries)
  {
    if entries == [] {
      NothingIsLabelled(entries, InMicros(entries));
    } else {
      hide Newest, Micro, InStep, Follows, SameLabel;
      var n := |entries| - 1;
      var init, last := entries[..n], entries[n];
      assert entries == init + [last];
      InStepSnoc(init, last);
      InStepLabels(init);
      if n > 0 { InStepReaches(init, last); }
      SameLabelStep(init, last);
    }
  }

  lemma NothingIsLabelled(a: seq<Entry>, b: seq<Entry>)
    requires |a| == |b| == 0
    ensures Labelled(a).None? && Labelled(b).None?
  {
  }

  // For entries in step, which whole microseconds always are, only a stale label
  // differs.
  lemma InStepDiffersWhenStale(s: Latest, entries: seq<Entry>)
    requires InStep(entries)
    ensures LabelDiffers(s, entries) <==> StaleLabel(s, entries)
  {
    InStepLabels(entries);
    LabelledIsNoNewer(entries);
  }

  lemma WholeMicrosAreInStep(entries: seq<Entry>)
    requires forall e :: e in entries ==> e.at % 1_000 == 0
    ensures InStep(entries)
  {
    forall i, j | 0 <= i < j < |entries| && entries[j].at < entries[i].at
      ensures Micro(entries[j].at) < Micro(entries[i].at)
    {
      assert entries[i] in entries && entries[j] in entries;
    }
  }

  // With no blank label the newest entry is the labelled one.
  lemma {:induction false} NoBlankLabels(entries: seq<Entry>)
    requires entries != [] && forall e :: e in entries ==> e.name != ""
    ensures Labelled(entries).Some? && Labelled(entries).value.at == Newest(entries)
  {
    var n := |entries| - 1;
    if n > 0 { NoBlankLabels(entries[..n]); }
  }

  lemma {:induction false} AutomaticIsLabelled(entries: seq<Entry>)
    requires forall e :: e in entries && e.automatic ==> e.name != ""
    ensures forall e :: e in Automatic(entries) ==> e in entries && e.name != ""
  {
    if entries != [] { AutomaticIsLabelled(entries[..|entries| - 1]); }
  }

  // ------------------------------------------------------- one site, one batch

  const NullRow := Row(0, None, None, None, None, None, None, None, None, None)

  function Stored(row: Option<Row>): Row {
    if row.None? then NullRow else row.value
  }

  // The state the labelled fields of a kind are in.
  function LatestOf(kind: Kind, row: Row): Latest {
    match kind
    case Hits => Latest(row.lastHit, row.hostname)
    case Events => Latest(row.lastEvent, row.eventName)
  }

  function AutomaticOf(row: Row): Latest {
    Latest(row.automaticAt, row.automaticName)
  }

  // The labels of one row put into another
  function WithLabels(kind: Kind, row: Row, labels: Row): Row {
    match kind
    case Hits => row.(hostname := labels.hostname)
    case Events => row.(eventName := labels.eventName, automaticName := labels.automaticName)
  }

  // A label of the row depends on how the entries are written.
  ghost predicate RowDiffers(kind: Kind, old_: Row, entries: seq<Entry>) {
    || LabelDiffers(LatestOf(kind, old_), entries)
    || (kind == Events && LabelDiffers(AutomaticOf(old_), Automatic(entries)))
  }

  // A label is set for every automatic event, and a source for every entry.
  predicate Proper(e: Entry) {
    e.source != "" && (e.automatic ==> e.name != "")
  }

  // The row after the entries, given the labelled states it ends in
  ghost predicate Written(
    kind: Kind, old_: Row, tenant: Tenant, entries: seq<Entry>, latest: Latest, automatic: Latest, r: Row)
    requires entries != []
  {
    var firstAt := Micro(Oldest(entries));
    && r.tenant == tenant
    && r.source == Some(entries[|entries| - 1].source)
    && r.version == Coalesce(NullIfBlank(LastVersion(entries)), old_.version)
    && LatestOf(kind, r) == latest && AutomaticOf(r) == automatic
    && match kind
       case Hits =>
         && r.firstHit == Some(if old_.firstHit.Some? && old_.firstHit.value <= firstAt then old_.firstHit.value
           else firstAt)
         && LatestOf(Events, r) == LatestOf(Events, old_)
       case Events =>
         r.firstHit == old_.firstHit && LatestOf(Hits, r) == LatestOf(Hits, old_)
  }

  function BatchAutomatic(kind: Kind, old_: Row, entries: seq<Entry>): Latest {
    if kind == Hits then AutomaticOf(old_) else BatchLatest(AutomaticOf(old_), Automatic(entries))
  }

  function SingleAutomatic(kind: Kind, old_: Row, entries: seq<Entry>): Latest {
    if kind == Hits then AutomaticOf(old_) else SingleLatest(AutomaticOf(old_), Automatic(entries))
  }

  lemma BatchWritesHits(row: Option<Row>, tenant: Tenant, entries: seq<Entry>)
    requires entries != [] && entries[|entries| - 1].source != ""
    ensures Written(Hits, Stored(row), tenant, entries, BatchLatest(LatestOf(Hits, Stored(row)), entries),
              AutomaticOf(Stored(row)), Upsert(Hits, row, tenant, entries))
  {
    hide Newest, Oldest, Label, LastVersion, Micro;
  }

  lemma AutomaticLabel(automatic: seq<Entry>)
    requires automatic != [] && forall e :: e in automatic ==> e.name != ""
    ensures Label(automatic) != ""
  {
    NoBlankLabels(automatic);
    LabelledIsNoNewer(automatic);
  }

  lemma BatchWritesEvents(row: Option<Row>, tenant: Tenant, entries: seq<Entry>)
    requires entries != [] && forall e :: e in entries ==> Proper(e)
    ensures Written(Events, Stored(row), tenant, entries, BatchLatest(LatestOf(Events, Stored(row)), entries),
              BatchLatest(AutomaticOf(Stored(row)), Automatic(entries)), Upsert(Events, row, tenant, entries))
  {
    hide Newest, Label, LastVersion, Automatic, Micro;
    AutomaticIsLabelled(entries);
    if Automatic(entries) != [] {
      AutomaticLabel(Automatic(entries));
    }
    assert Proper(entries[|entries| - 1]);
  }

  lemma TouchNothing(s: Latest)
    ensures TouchAll(s, []) == s
  {
  }

  lemma BatchWrites(kind: Kind, row: Option<Row>, tenant: Tenant, entries: seq<Entry>)
    requires entries != [] && forall e :: e in entries ==> Proper(e)
    ensures Written(kind, Stored(row), tenant, entries, BatchLatest(LatestOf(kind, Stored(row)), entries),
              BatchAutomatic(kind, Stored(row), entries), Upsert(kind, row, tenant, entries))
  {
    assert Proper(entries[|entries| - 1]);
    match kind
    case Hits => BatchWritesHits(row, tenant, entries);
    case Events => BatchWritesEvents(row, tenant, entries);
  }

  // One more entry after a prefix, for every summary at once.
  lemma OneMore(s: Latest, entries: seq<Entry>, e: Entry)
    ensures TouchAll(s, entries + [e]) == Touch(TouchAll(s, entries), e.at, e.name)
    ensures LastVersion(entries + [e]) == if e.version != "" then e.version else LastVersion(entries)
    ensures Automatic(entries + [e]) == Automatic(entries) + if e.automatic then [e] else []
    ensures Newest(entries + [e]) == if entries != [] && e.at < Newest(entries) then Newest(entries) else e.at
    ensures Oldest(entries + [e]) == if entries != [] && Oldest(entries) <= e.at then Oldest(entries) else e.at
    ensures Label(entries + [e])
         == if e.name != "" && (entries == [] || e.at >= Newest(entries)) then e.name else Label(entries)
  {
    assert (entries + [e])[..|entries|] == entries;
  }

  lemma OnlyOne(s: Latest, e: Entry)
    ensures TouchAll(s, [e]) == Touch(s, e.at, e.name) && LastVersion([e]) == e.version
    ensures Automatic([e]) == if e.automatic then [e] else []
    ensures Newest([e]) == e.at && Oldest([e]) == e.at && Label([e]) == e.name
  {
    assert [] + [e] == [e];
    OneMore(s, [], e);
  }

  // Upserting the last entry alone extends what the prefix has written.
  lemma WrittenStep(
    kind: Kind, old_: Row, mid: Row, tenant: Tenant, init: seq<Entry>, last: Entry, r: Row,
    latest: Latest, automatic: Latest, latest': Latest, automatic': Latest)
    requires init != []
    requires Written(kind, old_, tenant, init, latest, automatic, mid)
    requires Written(kind, mid, tenant, [last], latest', automatic', r)
    ensures Written(kind, old_, tenant, init + [last], latest', automatic', r)
  {
    hide LastVersion, Newest, Oldest, Automatic, Label, TouchAll;
    OneMore(latest, init, last);
    OnlyOne(latest, last);
  }

  lemma SingleStep(s: Latest, init: seq<Entry>, last: Entry)
    ensures SingleLatest(s, init + [last]) == BatchLatest(SingleLatest(s, init), [last])
    ensures SingleLatest(s, Automatic(init + [last]))
      == BatchLatest(SingleLatest(s, Automatic(init)), Automatic([last]))
  {
    hide TouchAll, Automatic, Touch, Newest, Oldest, Label, LastVersion, Micro;
    OneMore(s, init, last);
    OnlyOne(s, last);
    SingleTouch(s, init, last);
    if last.automatic {
      SingleTouch(s, Automatic(init), last);
    } else {
      assert Automatic(init) + [] == Automatic(init);
    }
  }

  lemma SingleTouch(s: Latest, init: seq<Entry>, last: Entry)
    ensures SingleLatest(s, init + [last]) == Touch(SingleLatest(s, init), Micro(last.at), last.name)
  {
    hide TouchAll, Touch;
    var e := last.(at := Micro(last.at));
    assert InMicros(init + [last]) == InMicros(init) + [e];
    OneMore(s, InMicros(init), e);
  }

  lemma SingleOfOne(s: Latest, last: Entry)
    ensures SingleLatest(s, [last]) == BatchLatest(s, [last])
    ensures SingleLatest(s, Automatic([last])) == BatchLatest(s, Automatic([last]))
  {
    assert [] + [last] == [last];
    assert InMicros([]) == [];
    SingleStep(s, [], last);
  }

  lemma {:induction false} SinglyWrites(kind: Kind, row: Option<Row>, tenant: Tenant, entries: seq<Entry>)
    requires entries != [] && forall e :: e in entries ==> Proper(e)
    ensures var r := UpsertSingly(kind, row, tenant, entries);
            && r.Some?
            && Written(kind, Stored(row), tenant, entries, SingleLatest(LatestOf(kind, Stored(row)), entries),
                 SingleAutomatic(kind, Stored(row), entries), r.value)
  {
    hide Upsert, Touch, TouchAll, Proper, SingleLatest, BatchLatest;
    var n := |entries| - 1;
    var init, last := entries[..n], entries[n];
    assert entries == init + [last];
    var mid := UpsertSingly(kind, row, tenant, init);
    BatchWrites(kind, mid, tenant, [last]);
    if n == 0 {
      assert init == [] && entries == [last];
      SingleOfOne(LatestOf(kind, Stored(row)), last);
      SingleOfOne(AutomaticOf(Stored(row)), last);
    } else {
      SinglyWrites(kind, row, tenant, init);
      SingleStep(LatestOf(kind, Stored(row)), init, last);
      SingleStep(AutomaticOf(Stored(row)), init, last);
      WrittenStep(kind, Stored(row), mid.value, tenant, init, last, UpsertSingly(kind, row, tenant, entries).value,
        LatestOf(kind, mid.value), AutomaticOf(mid.value),
        SingleLatest(LatestOf(kind, Stored(row)), entries), SingleAutomatic(kind, Stored(row), entries));
    }
  }

  // One site: the batch writes what single upserts write but for the labels, and
  // the same labels exactly when none of them differs.
  lemma BatchRefinesSingle(kind: Kind, row: Option<Row>, tenant: Tenant, entries: seq<Entry>)
    requires entries != [] && forall e :: e in entries ==> Proper(e)
    ensures var batch := Upsert(kind, row, tenant, entries);
            var singly := UpsertSingly(kind, row, tenant, entries);
            && singly.Some? && singly.value == WithLabels(kind, batch, singly.value)
            && (batch == singly.value <==> !RowDiffers(kind, Stored(row), entries))
  {
    hide BatchLatest, SingleLatest, Upsert, UpsertSingly, LabelDiffers;
    BatchWrites(kind, row, tenant, entries);
    SinglyWrites(kind, row, tenant, entries);
    LatestAgree(LatestOf(kind, Stored(row)), entries);
    LatestAgree(AutomaticOf(Stored(row)), Automatic(entries));
  }

  lemma {:induction false} AutomaticAreIn(entries: seq<Entry>)
    ensures forall e :: e in Automatic(entries) ==> e in entries
  {
    if entries != [] {
      var n := |entries| - 1;
      AutomaticAreIn(entries[..n]);
      assert entries == entries[..n] + [entries[n]];
    }
  }

  lemma {:induction false} AutomaticInStep(entries: seq<Entry>)
    requires InStep(entries)
    ensures InStep(Automatic(entries))
  {
    if entries != [] {
      hide InStep, Follows;
      var n := |entries| - 1;
      var init, last := entries[..n], entries[n];
      assert entries == init + [last];
      InStepSnoc(init, last);
      AutomaticInStep(init);
      AutomaticAreIn(init);
      InStepSnoc(Automatic(init), last);
      assert Follows(init, last) ==> Follows(Automatic(init), last) by { FollowsFewer(init, Automatic(init), last); }
      assert Automatic(init) + [] == Automatic(init);
    }
  }

  // Entries in step leave the automatic name alone, whatever is stored; and the
  // label too when none is blank or none is older than the stored time.
  lemma NeverDiffers(kind: Kind, row: Row, entries: seq<Entry>)
    requires entries != [] && InStep(entries) && forall e :: e in entries ==> Proper(e)
    requires
      || (forall e :: e in entries ==> e.name != "")
      || (forall e :: e in entries ==> Reaches(LatestOf(kind, row).at, Micro(e.at)))
    ensures !RowDiffers(kind, row, entries)
  {
    InStepDiffersWhenStale(LatestOf(kind, row), entries);
    NeverStale(LatestOf(kind, row), entries);
    AutomaticInStep(entries);
    InStepDiffersWhenStale(AutomaticOf(row), Automatic(entries));
    AutomaticIsLabelled(entries);
    if Automatic(entries) != [] { NeverStale(AutomaticOf(row), Automatic(entries)); }
  }

  // No stale label when no label is blank, or no entry is older than the
  // stored time.
  lemma {:induction false} NeverStale(s: Latest, entries: seq<Entry>)
    requires entries != []
    requires (forall e :: e in entries ==> e.name != "") || (forall e :: e in entries ==> Reaches(s.at, Micro(e.at)))
    ensures !StaleLabel(s, entries)
  {
    if forall e :: e in entries ==> e.name != "" {
      NoBlankLabels(entries);
    } else {
      LabelledIsNoNewer(entries);
    }
  }

  function Named(at: int, name: string): Entry {
    Entry(at, name, "hk.js", "", name != "")
  }

  // A late hit with a hostname, then a current hit without one: the batch
  // replaces the stored hostname, single upserts keep it.
  lemma StaleLabelHappens()
    ensures var row := NullRow.(lastHit := Some(100), hostname := Some("a.example"));
            var entries := [Named(50_000, "b.example"), Named(150_000, "")];
            var singly := UpsertSingly(Hits, Some(row), 0, entries);
            && Upsert(Hits, Some(row), 0, entries).hostname == Some("b.example")
            && singly.Some? && singly.value.hostname == Some("a.example")
  {
    var entries := [Named(50_000, "b.example"), Named(150_000, "")];
    var s := Latest(Some(100), Some("a.example"));
    TwoEntries(s, Named(50_000, "b.example"), Named(150_000, ""));
    var row := NullRow.(lastHit := Some(100), hostname := Some("a.example"));
    BatchWrites(Hits, Some(row), 0, entries);
    SinglyWrites(Hits, Some(row), 0, entries);
  }

  // Two events of one microsecond, the newer first: the batch keeps the newer
  // name, single upserts the one written last. Both names are set, the time is
  // the same, and the automatic name differs in the same way.
  lemma SameMicrosecondHappens()
    ensures var entries := [Named(1_500, "file_download"), Named(1_200, "form_submit")];
            var batch := Upsert(Events, None, 0, entries);
            var singly := UpsertSingly(Events, None, 0, entries);
            && batch.eventName == Some("file_download") && batch.automaticName == Some("file_download")
            && singly.Some? && singly.value.eventName == Some("form_submit")
            && singly.value.automaticName == Some("form_submit")
            && singly.value.lastEvent == batch.lastEvent == Some(1)
  {
    var a, b := Named(1_500, "file_download"), Named(1_200, "form_submit");
    assert Proper(a) && Proper(b);
    hide Upsert, UpsertSingly;
    LaterWrittenDiffers(a, b);
  }

  lemma LaterWrittenDiffers(a: Entry, b: Entry)
    requires Proper(a) && Proper(b) && a.automatic && b.automatic && b.at < a.at && Micro(b.at) == Micro(a.at)
    ensures var batch, singly := Upsert(Events, None, 0, [a, b]), UpsertSingly(Events, None, 0, [a, b]);
            && batch.eventName == Some(a.name) && batch.automaticName == Some(a.name)
            && singly.Some? && singly.value.eventName == Some(b.name) && singly.value.automaticName == Some(b.name)
            && singly.value.lastEvent == batch.lastEvent == Some(Micro(a.at))
  {
    hide Upsert, UpsertSingly, Automatic, Newest, Oldest, Label, SingleLatest, LastVersion, Micro;
    var none := Latest(None, None);
    TwoEntries(none, a, b);
    BothAutomatic(a, b);
    BatchWrites(Events, None, 0, [a, b]);
    SinglyWrites(Events, None, 0, [a, b]);
  }

  lemma BothAutomatic(a: Entry, b: Entry)
    requires a.automatic && b.automatic
    ensures Automatic([a, b]) == [a, b]
  {
    assert [a] + [b] == [a, b];
    OnlyOne(Latest(None, None), a);
    OneMore(Latest(None, None), [a], b);
  }

  lemma TwoEntries(s: Latest, a: Entry, b: Entry)
    ensures SingleLatest(s, [a, b]) == Touch(Touch(s, Micro(a.at), a.name), Micro(b.at), b.name)
    ensures Newest([a, b]) == if b.at < a.at then a.at else b.at
    ensures Label([a, b]) == if b.name != "" && b.at >= a.at then b.name else a.name
  {
    assert [a] + [b] == [a, b] && [] + [a] == [a] && InMicros([]) == [];
    SingleTouch(s, [], a);
    SingleTouch(s, [a], b);
    OneMore(s, [a], b);
    OnlyOne(s, a);
  }

  // ---------------------------------------------------------- the whole store

  datatype Count = Count(tenant: Tenant, hits: nat, events: nat)

  datatype Activities = Activities(summary: map<Site, Row>, counts: map<(Site, int), Count>)

  function RowOf(summary: map<Site, Row>, site: Site): Option<Row> {
    if site in summary then Some(summary[site]) else None
  }

  function CountOf(counts: map<(Site, int), Count>, key: (Site, int)): Option<Count> {
    if key in counts then Some(counts[key]) else None
  }

  // flushSiteActivityCounts, one upsert
  function AddCount(kind: Kind, count: Option<Count>, tenant: Tenant, n: nat): Count {
    var hits, events := if kind == Hits then n else 0, if kind == Events then n else 0;
    if count.None? then Count(tenant, hits, events)
    else Count(tenant, count.value.hits + hits, count.value.events + events)
  }

  function Keys(log: seq<Logged>): set<(Site, int)> {
    set l | l in log :: (l.site, Bucket(l.entry.at))
  }

  function Tally(log: seq<Logged>, key: (Site, int)): nat {
    InBucket(OfSite(log, key.0), key.1)
  }

  lemma {:induction false} OfSiteNonEmpty(log: seq<Logged>, site: Site)
    ensures OfSite(log, site) != [] <==> site in Sites(log)
    ensures forall e :: e in OfSite(log, site) ==> Logged(site, e) in log
  {
    if log != [] {
      var n := |log| - 1;
      OfSiteNonEmpty(log[..n], site);
      assert log == log[..n] + [log[n]];
    }
  }

  // What one batch does to the store.
  ghost predicate Recorded(
    kind: Kind, tenants: map<Site, Tenant>, before: Activities, log: seq<Logged>, after: Activities)
  {
    && (forall site {:trigger RowOf(after.summary, site)} ::
        RowOf(after.summary, site)
        == if OfSite(log, site) == [] || site !in tenants then RowOf(before.summary, site)
           else Some(Upsert(kind, RowOf(before.summary, site), tenants[site], OfSite(log, site))))
    && CountsAfter(kind, tenants, before.counts, log, after.counts)
  }

  ghost predicate CountsAfter(
    kind: Kind, tenants: map<Site, Tenant>, before: map<(Site, int), Count>, log: seq<Logged>,
    after: map<(Site, int), Count>)
  {
    forall key: (Site, int) {:trigger CountOf(after, key)} ::
      CountOf(after, key)
      == if key.0 !in tenants then CountOf(before, key)
         else Grown(kind, CountOf(before, key), tenants[key.0], Tally(log, key))
  }

  // Every entry recorded as a batch of its own, one after the other.
  ghost predicate RecordedSingly(kind: Kind, tenants: map<Site, Tenant>, trace: seq<Activities>, log: seq<Logged>) {
    && |trace| == |log| + 1
    && forall i :: 0 <= i < |log| ==> Recorded(kind, tenants, trace[i], [log[i]], trace[i + 1])
  }

  lemma OneLogged(l: Logged, site: Site, key: (Site, int))
    ensures OfSite([l], site) == if l.site == site then [l.entry] else []
    ensures Tally([l], key) == if l.site == key.0 && Bucket(l.entry.at) == key.1 then 1 else 0
  {
    assert [l][..0] == [] && [l.entry][..0] == [];
    assert [] + [l] == [l];
    LogSnoc([], l, site, key);
  }

  lemma LogSnoc(log: seq<Logged>, l: Logged, site: Site, key: (Site, int))
    ensures OfSite(log + [l], site) == if l.site == site then OfSite(log, site) + [l.entry] else OfSite(log, site)
    ensures Tally(log + [l], key) == Tally(log, key) + if l.site == key.0 && Bucket(l.entry.at) == key.1 then 1 else 0
  {
    assert (log + [l])[..|log|] == log;
    var entries := OfSite(log, key.0);
    assert (entries + [l.entry])[..|entries|] == entries;
    assert entries + [] == entries;
  }

  lemma RowOfOne(
    kind: Kind, tenants: map<Site, Tenant>, before: Activities, l: Logged, after: Activities, site: Site)
    requires Recorded(kind, tenants, before, [l], after) && site in tenants
    ensures RowOf(after.summary, site)
         == if l.site == site then Some(Upsert(kind, RowOf(before.summary, site), tenants[site], [l.entry]))
            else RowOf(before.summary, site)
  {
    hide Upsert, Bucket;
    OneLogged(l, site, (site, 0));
  }

  lemma SinglySnoc(kind: Kind, row: Option<Row>, tenant: Tenant, entries: seq<Entry>, e: Entry)
    ensures UpsertSingly(kind, row, tenant, entries + [e])
         == Some(Upsert(kind, UpsertSingly(kind, row, tenant, entries), tenant, [e]))
  {
    hide Upsert;
    assert (entries + [e])[..|entries|] == entries;
  }

  // The row and the counter a run of single records ends with.
  lemma {:induction false} SinglyPerSite(
    kind: Kind, tenants: map<Site, Tenant>, trace: seq<Activities>, log: seq<Logged>, site: Site)
    requires RecordedSingly(kind, tenants, trace, log) && site in tenants
    ensures RowOf(trace[|log|].summary, site)
         == UpsertSingly(kind, RowOf(trace[0].summary, site), tenants[site], OfSite(log, site))
  {
    if log != [] {
      hide Upsert, Bucket, OfSite, UpsertSingly, Recorded, RowOf;
      var n := |log| - 1;
      SinglyPerSite(kind, tenants, trace[..n + 1], log[..n], site);
      assert log == log[..n] + [log[n]];
      LogSnoc(log[..n], log[n], site, (site, 0));
      RowOfOne(kind, tenants, trace[n], log[n], trace[n + 1], site);
      SinglySnoc(kind, RowOf(trace[0].summary, site), tenants[site], OfSite(log[..n], site), log[n].entry);
    }
  }

  // The counter after n entries
  function Grown(kind: Kind, count: Option<Count>, tenant: Tenant, n: nat): Option<Count> {
    if n == 0 then count else Some(AddCount(kind, count, tenant, n))
  }

  lemma GrownOnceMore(kind: Kind, count: Option<Count>, tenant: Tenant, n: nat)
    ensures Grown(kind, Grown(kind, count, tenant, n), tenant, 1) == Grown(kind, count, tenant, n + 1)
  {
  }

  lemma CountOfOne(
    kind: Kind, tenants: map<Site, Tenant>, before: Activities, l: Logged, after: Activities, key: (Site, int))
    requires Recorded(kind, tenants, before, [l], after) && key.0 in tenants
    ensures var n := if l.site == key.0 && Bucket(l.entry.at) == key.1 then 1 else 0;
            CountOf(after.counts, key) == Grown(kind, CountOf(before.counts, key), tenants[key.0], n)
  {
    OneLogged(l, key.0, key);
  }

  lemma {:induction false} SinglyCounts(
    kind: Kind, tenants: map<Site, Tenant>, trace: seq<Activities>, log: seq<Logged>, key: (Site, int))
    requires RecordedSingly(kind, tenants, trace, log) && key.0 in tenants
    ensures CountOf(trace[|log|].counts, key)
         == Grown(kind, CountOf(trace[0].counts, key), tenants[key.0], Tally(log, key))
    ensures Raised(CountOf(trace[0].counts, key), CountOf(trace[|log|].counts, key), tenants[key.0],
              if kind == Hits then Tally(log, key) else 0, if kind == Events then Tally(log, key) else 0)
  {
    GrownIsRaised(kind, CountOf(trace[0].counts, key), tenants[key.0], Tally(log, key));
    if log != [] {
      hide Upsert, Bucket, Tally, OfSite, Grown, CountOf, Recorded, Raised;
      var n := |log| - 1;
      SinglyCounts(kind, tenants, trace[..n + 1], log[..n], key);
      assert log == log[..n] + [log[n]];
      LogSnoc(log[..n], log[n], key.0, key);
      CountOfOne(kind, tenants, trace[n], log[n], trace[n + 1], key);
      GrownOnceMore(kind, CountOf(trace[0].counts, key), tenants[key.0], Tally(log[..n], key));
      GrownByNone(kind, CountOf(trace[n].counts, key), tenants[key.0]);
    } else {
      assert Tally(log, key) == 0;
    }
  }

  lemma GrownIsRaised(kind: Kind, count: Option<Count>, tenant: Tenant, n: nat)
    ensures Raised(count, Grown(kind, count, tenant, n), tenant, if kind == Hits then n else 0,
              if kind == Events then n else 0)
  {
  }

  lemma GrownByNone(kind: Kind, count: Option<Count>, tenant: Tenant)
    ensures Grown(kind, count, tenant, 0) == count
  {
  }

  ghost predicate ProperLog(log: seq<Logged>) {
    forall l :: l in log ==> Proper(l.entry)
  }

  ghost predicate SameButLabels(kind: Kind, a: Option<Row>, b: Option<Row>) {
    a.Some? && b.Some? && b.value == WithLabels(kind, a.value, b.value)
  }

  ghost predicate SiteDiffers(kind: Kind, before: Activities, log: seq<Logged>, site: Site) {
    OfSite(log, site) != [] && RowDiffers(kind, Stored(RowOf(before.summary, site)), OfSite(log, site))
  }

  // One batch and the single records of its entries, from the same store: same
  // sites, same counters, same rows except for the labels; and the same rows
  // exactly when no site's labels differ.
  lemma BatchRefinesSingleRecords(
    kind: Kind, tenants: map<Site, Tenant>, log: seq<Logged>, before: Activities, after: Activities,
    trace: seq<Activities>)
    requires ProperLog(log) && Sites(log) <= tenants.Keys
    requires Recorded(kind, tenants, before, log, after)
    requires RecordedSingly(kind, tenants, trace, log) && trace[0] == before
    ensures forall key: (Site, int) :: key.0 in tenants ==>
      CountOf(after.counts, key) == CountOf(trace[|log|].counts, key)
    ensures forall site :: site in Sites(log) ==>
      SameButLabels(kind, RowOf(after.summary, site), RowOf(trace[|log|].summary, site))
    ensures (forall site :: site in tenants ==> RowOf(after.summary, site) == RowOf(trace[|log|].summary, site))
       <==> (forall site :: site in tenants ==> !SiteDiffers(kind, before, log, site))
  {
    var singly := trace[|log|];
    hide Recorded, RecordedSingly, SameButLabels, SiteDiffers, RowOf, CountOf, Tally;
    forall key: (Site, int) | key.0 in tenants ensures CountOf(after.counts, key) == CountOf(singly.counts, key) {
      OneCounter(kind, tenants, log, before, after, trace, key);
    }
    forall site | site in tenants
      ensures site in Sites(log) ==> SameButLabels(kind, RowOf(after.summary, site), RowOf(singly.summary, site))
      ensures RowOf(after.summary, site) == RowOf(singly.summary, site) <==> !SiteDiffers(kind, before, log, site)
    {
      OneSite(kind, tenants, log, before, after, trace, site);
    }
  }

  lemma OneCounter(
    kind: Kind, tenants: map<Site, Tenant>, log: seq<Logged>, before: Activities, after: Activities,
    trace: seq<Activities>,
    key: (Site, int))
    requires key.0 in tenants
    requires Recorded(kind, tenants, before, log, after)
    requires RecordedSingly(kind, tenants, trace, log) && trace[0] == before
    ensures CountOf(after.counts, key) == CountOf(trace[|log|].counts, key)
  {
    SinglyCounts(kind, tenants, trace, log, key);
  }

  lemma OneSite(
    kind: Kind, tenants: map<Site, Tenant>, log: seq<Logged>, before: Activities, after: Activities,
    trace: seq<Activities>,
    site: Site)
    requires ProperLog(log) && site in tenants
    requires Recorded(kind, tenants, before, log, after)
    requires RecordedSingly(kind, tenants, trace, log) && trace[0] == before
    ensures site in Sites(log) ==>
      SameButLabels(kind, RowOf(after.summary, site), RowOf(trace[|log|].summary, site))
    ensures RowOf(after.summary, site) == RowOf(trace[|log|].summary, site) <==> !SiteDiffers(kind, before, log, site)
  {
    hide RowDiffers, Upsert, WithLabels, OfSite, RecordedSingly;
    OfSiteNonEmpty(log, site);
    SinglyPerSite(kind, tenants, trace, log, site);
    assert RowOf(after.summary, site)
        == if OfSite(log, site) == [] then RowOf(before.summary, site)
           else Some(Upsert(kind, RowOf(before.summary, site), tenants[site], OfSite(log, site)));
    var entries := OfSite(log, site);
    forall e | e in entries ensures Proper(e) {
      assert Logged(site, e) in log;
    }
    if entries != [] {
      BatchRefinesSingle(kind, RowOf(before.summary, site), tenants[site], entries);
    }
  }

  lemma {:induction false} HitLogIsProper(hits: seq<Option<Hit>>)
    ensures ProperLog(HitLog(hits))
  {
    if hits != [] {
      HitLogIsProper(hits[..|hits| - 1]);
      if hits[|hits| - 1].Some? { CleanIsProper(hits[|hits| - 1].value.source); }
    }
  }

  lemma {:induction false} EventLogIsProper(events: seq<Option<Event>>)
    ensures ProperLog(EventLog(events))
  {
    if events != [] {
      EventLogIsProper(events[..|events| - 1]);
      if events[|events| - 1].Some? { CleanIsProper(events[|events| - 1].value.source); }
    }
  }

  lemma CleanIsProper(source: string)
    ensures TrackerSource(source) != ""
    ensures forall name :: name in AutomaticEvents ==> name != ""
  {
  }

  // ------------------------------------------------------------- the methods

  lemma SummaryStep(entries: seq<Entry>, e: Entry)
    ensures Newest(entries + [e]) == if entries == [] || e.at >= Newest(entries) then e.at else Newest(entries)
    ensures Oldest(entries + [e]) == if entries == [] || e.at < Oldest(entries) then e.at else Oldest(entries)
    ensures Label(entries + [e])
         == if e.name != "" && (entries == [] || e.at >= Newest(entries)) then e.name else Label(entries)
    ensures LastVersion(entries + [e]) == if e.version != "" then e.version else LastVersion(entries)
    ensures Automatic(entries + [e]) == Automatic(entries) + if e.automatic then [e] else []
  {
    OneMore(Latest(None, None), entries, e);
  }

  // The accumulated summaries and counters of a log.
  ghost predicate HitsSummed(log: seq<Logged>, summaries: map<Site, HitSummary>) {
    && summaries.Keys == Sites(log)
    && forall site :: site in summaries ==>
      OfSite(log, site) != [] && summaries[site] == SummarizeHits(OfSite(log, site))
  }

  ghost predicate EventsSummed(log: seq<Logged>, summaries: map<Site, EventSummary>) {
    && summaries.Keys == Sites(log)
    && forall site :: site in summaries ==>
      OfSite(log, site) != [] && summaries[site] == SummarizeEvents(OfSite(log, site))
  }

  ghost predicate Counted(log: seq<Logged>, counts: map<(Site, int), nat>) {
    forall key: (Site, int) ::
      (key in counts <==> Tally(log, key) > 0) && (key in counts ==> counts[key] == Tally(log, key))
  }

  lemma SitesSnoc(log: seq<Logged>, l: Logged)
    ensures Sites(log + [l]) == Sites(log) + {l.site}
  {
  }

  lemma HitsSummedStep(log: seq<Logged>, summaries: map<Site, HitSummary>, l: Logged, agg: HitSummary)
    requires HitsSummed(log, summaries) && agg == SummarizeHits(OfSite(log, l.site) + [l.entry])
    ensures HitsSummed(log + [l], summaries[l.site := agg])
  {
    hide SummarizeHits, OfSite, Bucket;
    SitesSnoc(log, l);
    forall site
      ensures OfSite(log + [l], site) == if l.site == site then OfSite(log, site) + [l.entry] else OfSite(log, site)
    {
      LogSnoc(log, l, site, (site, 0));
    }
  }

  lemma EventsSummedStep(log: seq<Logged>, summaries: map<Site, EventSummary>, l: Logged, agg: EventSummary)
    requires EventsSummed(log, summaries) && agg == SummarizeEvents(OfSite(log, l.site) + [l.entry])
    ensures EventsSummed(log + [l], summaries[l.site := agg])
  {
    hide SummarizeEvents, OfSite, Bucket;
    SitesSnoc(log, l);
    forall site
      ensures OfSite(log + [l], site) == if l.site == site then OfSite(log, site) + [l.entry] else OfSite(log, site)
    {
      LogSnoc(log, l, site, (site, 0));
    }
  }

  lemma CountedStep(log: seq<Logged>, counts: map<(Site, int), nat>, l: Logged, key: (Site, int))
    requires Counted(log, counts) && key == (l.site, Bucket(l.entry.at))
    ensures Counted(log + [l], counts[key := if key in counts then counts[key] + 1 else 1])
  {
    hide Tally, OfSite, Bucket;
    forall k: (Site, int) ensures Tally(log + [l], k) == Tally(log, k) + if k == key then 1 else 0 {
      LogSnoc(log, l, l.site, k);
    }
  }

  // Summary rows after some of the summaries have been upserted.
  ghost predicate HitRows(
    tenants: map<Site, Tenant>, before: map<Site, Row>, summaries: map<Site, HitSummary>, done: set<Site>,
    after: map<Site, Row>)
    requires done <= summaries.Keys && done <= tenants.Keys
  {
    forall site {:trigger RowOf(after, site)} :: RowOf(after, site)
      == if site in done then Some(UpsertHits(RowOf(before, site), tenants[site], summaries[site]))
        else RowOf(before, site)
  }

  ghost predicate EventRows(
    tenants: map<Site, Tenant>, before: map<Site, Row>, summaries: map<Site, EventSummary>, done: set<Site>,
    after: map<Site, Row>)
    requires done <= summaries.Keys && done <= tenants.Keys
  {
    forall site {:trigger RowOf(after, site)} :: RowOf(after, site)
      == if site in done then Some(UpsertEvents(RowOf(before, site), tenants[site], summaries[site]))
        else RowOf(before, site)
  }

  ghost predicate Flushed(
    kind: Kind, tenants: map<Site, Tenant>, before: map<(Site, int), Count>, counts: map<(Site, int), nat>,
    done: set<(Site, int)>, after: map<(Site, int), Count>)
    requires done <= counts.Keys && forall key :: key in done ==> key.0 in tenants
  {
    forall key: (Site, int) {:trigger CountOf(after, key)} :: CountOf(after, key)
      == if key in done then Some(AddCount(kind, CountOf(before, key), tenants[key.0], counts[key]))
        else CountOf(before, key)
  }

  lemma HitRowsStep(
    tenants: map<Site, Tenant>, before: map<Site, Row>, summaries: map<Site, HitSummary>, done: set<Site>,
    after: map<Site, Row>,
    site: Site)
    requires done <= summaries.Keys && done <= tenants.Keys && HitRows(tenants, before, summaries, done, after)
    requires site in tenants && site in summaries && site !in done
    ensures HitRows(tenants, before, summaries, done + {site},
              after[site := UpsertHits(RowOf(after, site), tenants[site], summaries[site])])
  {
    hide UpsertHits;
    var after' := after[site := UpsertHits(RowOf(after, site), tenants[site], summaries[site])];
    forall s ensures RowOf(after', s) == if s == site then Some(after'[site]) else RowOf(after, s) {
    }
  }

  lemma EventRowsStep(
    tenants: map<Site, Tenant>, before: map<Site, Row>, summaries: map<Site, EventSummary>, done: set<Site>,
    after: map<Site, Row>, site: Site)
    requires done <= summaries.Keys && done <= tenants.Keys && EventRows(tenants, before, summaries, done, after)
    requires site in tenants && site in summaries && site !in done
    ensures EventRows(tenants, before, summaries, done + {site},
              after[site := UpsertEvents(RowOf(after, site), tenants[site], summaries[site])])
  {
    hide UpsertEvents;
    var after' := after[site := UpsertEvents(RowOf(after, site), tenants[site], summaries[site])];
    forall s ensures RowOf(after', s) == if s == site then Some(after'[site]) else RowOf(after, s) {
    }
  }

  lemma FlushedStep(
    kind: Kind, tenants: map<Site, Tenant>, before: map<(Site, int), Count>, counts: map<(Site, int), nat>,
    done: set<(Site, int)>, after: map<(Site, int), Count>, key: (Site, int))
    requires done <= counts.Keys && forall key :: key in done ==> key.0 in tenants
    requires Flushed(kind, tenants, before, counts, done, after)
    requires key in counts && key !in done && key.0 in tenants
    ensures Flushed(kind, tenants, before, counts, done + {key},
              after[key := AddCount(kind, CountOf(after, key), tenants[key.0], counts[key])])
  {
    hide AddCount;
    var after' := after[key := AddCount(kind, CountOf(after, key), tenants[key.0], counts[key])];
    forall k: (Site, int) ensures CountOf(after', k) == if k == key then Some(after'[key]) else CountOf(after, k) {
    }
  }

  // A batch that fails on an unknown site has upserted some of its sites whole
  // and left the other rows, and every counter, as they were.
  ghost predicate Partly(
    kind: Kind, tenants: map<Site, Tenant>, before: Activities, log: seq<Logged>, after: Activities)
  {
    && after.counts == before.counts
    && forall site {:trigger RowOf(after.summary, site)} ::
      || RowOf(after.summary, site) == RowOf(before.summary, site)
      || (&& site in tenants && OfSite(log, site) != []
          && RowOf(after.summary, site)
            == Some(Upsert(kind, RowOf(before.summary, site), tenants[site], OfSite(log, site))))
  }

  lemma AutomaticStep(entries: seq<Entry>, e: Entry)
    ensures Automatic(entries) == [] ==> Automatic(entries + [e]) == if e.automatic then [e] else []
    ensures var a := Automatic(entries + [e]);
            a != [] && e.automatic ==>
              && Newest(a) == (if Automatic(entries) == [] || e.at >= Newest(Automatic(entries)) then e.at
                else Newest(Automatic(entries)))
              && (e.name != "" ==>
                Label(a) ==
                  if Automatic(entries) == [] || e.at >= Newest(Automatic(entries)) then e.name
                    else Label(Automatic(entries)))
    ensures !e.automatic ==> Automatic(entries + [e]) == Automatic(entries)
  {
    SummaryStep(entries, e);
    SummaryStep(Automatic(entries), e);
  }

  lemma AutomaticIsNamed(event: Event)
    ensures CleanEvent(event).automatic ==> CleanEvent(event).name != ""
  {
  }

  lemma NothingSummed()
    ensures HitsSummed([], map[]) && EventsSummed([], map[]) && Counted([], map[])
  {
  }

  lemma HitKnown(log: seq<Logged>, summaries: map<Site, HitSummary>, site: Site)
    requires HitsSummed(log, summaries)
    ensures site in summaries <==> OfSite(log, site) != []
    ensures site in summaries ==> summaries[site] == SummarizeHits(OfSite(log, site))
  {
    OfSiteNonEmpty(log, site);
  }

  lemma EventKnown(log: seq<Logged>, summaries: map<Site, EventSummary>, site: Site)
    requires EventsSummed(log, summaries)
    ensures site in summaries <==> OfSite(log, site) != []
    ensures site in summaries ==> summaries[site] == SummarizeEvents(OfSite(log, site))
  {
    OfSiteNonEmpty(log, site);
  }

  lemma HitsRecorded(
    tenants: map<Site, Tenant>, before: Activities, log: seq<Logged>, summaries: map<Site, HitSummary>,
    after: Activities)
    requires HitsSummed(log, summaries) && Sites(log) <= tenants.Keys
    requires HitRows(tenants, before.summary, summaries, summaries.Keys, after.summary)
    requires CountsAfter(Hits, tenants, before.counts, log, after.counts)
    ensures Recorded(Hits, tenants, before, log, after)
  {
    forall site ensures site in summaries <==> OfSite(log, site) != [] {
      HitKnown(log, summaries, site);
    }
  }

  lemma EventsRecorded(
    tenants: map<Site, Tenant>, before: Activities, log: seq<Logged>, summaries: map<Site, EventSummary>,
    after: Activities)
    requires EventsSummed(log, summaries) && Sites(log) <= tenants.Keys
    requires EventRows(tenants, before.summary, summaries, summaries.Keys, after.summary)
    requires CountsAfter(Events, tenants, before.counts, log, after.counts)
    ensures Recorded(Events, tenants, before, log, after)
  {
    forall site ensures site in summaries <==> OfSite(log, site) != [] {
      EventKnown(log, summaries, site);
    }
  }

  // ------------------------------- what a batch means, said of the batch itself

  // The entries of one site at their places in the batch
  type View = seq<Option<Entry>>

  // At most 64 characters of it
  ghost predicate Shortened(full: string, r: string) {
    r <= full && |r| <= 64 && (r == full || |r| == 64)
  }

  ghost predicate Tracked(source: string, version: string, e: Entry) {
    && Shortened(if TrimSpace(source) == "" then "hk.js" else TrimSpace(source), e.source)
    && Shortened(TrimSpace(version), e.version)
  }

  ghost predicate ViewsHits(hits: seq<Option<Hit>>, site: Site, view: View) {
    && |view| == |hits|
    && forall i :: 0 <= i < |hits| ==>
      if hits[i].Some? && hits[i].value.site == site then
        && view[i].Some? && view[i].value.at == hits[i].value.at && !view[i].value.automatic
        && view[i].value.name == (if hits[i].value.hostname.None? then "" else TrimSpace(hits[i].value.hostname.value))
        && Tracked(hits[i].value.source, hits[i].value.version, view[i].value)
      else view[i].None?
  }

  ghost predicate ViewsEvents(events: seq<Option<Event>>, site: Site, view: View) {
    && |view| == |events|
    && forall i :: 0 <= i < |events| ==>
      if events[i].Some? && events[i].value.site == site then
        && view[i].Some? && view[i].value.at == events[i].value.at
        && view[i].value.name == TrimSpace(events[i].value.name)
        && (view[i].value.automatic <==>
             TrimSpace(events[i].value.name) in {"outbound_click", "file_download", "form_submit"})
        && Tracked(events[i].value.source, events[i].value.version, view[i].value)
      else view[i].None?
  }

  // The automatic events among them
  ghost predicate ViewsAutomatic(view: View, some: View) {
    && |some| == |view|
    && forall i :: 0 <= i < |view| ==> some[i] == if view[i].Some? && view[i].value.automatic then view[i] else None
  }

  ghost predicate Empty(view: View) {
    forall i :: 0 <= i < |view| ==> view[i].None?
  }

  // An entry with a label that is not older than those before it
  ghost predicate Names(view: View, k: int) {
    && 0 <= k < |view| && view[k].Some? && view[k].value.name != ""
    && forall j :: 0 <= j < k && view[j].Some? ==> view[j].value.at <= view[k].value.at
  }

  // A stored time and label after a batch: nothing changes if every entry is
  // older. Otherwise the time is that of the newest entry in microseconds, and the
  // label that of the last entry that names one, if any does.
  ghost predicate LatestMeans(view: View, s: Latest, r: Latest) {
    if forall i :: 0 <= i < |view| && view[i].Some? ==> s.at.Some? && view[i].value.at / 1_000 < s.at.value then r == s
    else
      && r.at.Some?
      && (forall i :: 0 <= i < |view| && view[i].Some? ==> view[i].value.at / 1_000 <= r.at.value)
      && (exists i :: 0 <= i < |view| && view[i].Some? && view[i].value.at / 1_000 == r.at.value)
      && ((forall k :: !Names(view, k)) ==> r.name == s.name)
      && forall k :: Names(view, k) && (forall j :: k < j < |view| ==> !Names(view, j)) ==>
        r.name == Some(view[k].value.name)
  }

  // The oldest time, with the stored one
  ghost predicate FirstMeans(view: View, before: Option<int>, after: Option<int>) {
    && after.Some?
    && (forall i :: 0 <= i < |view| && view[i].Some? ==> after.value <= view[i].value.at / 1_000)
    && (before.Some? ==> after.value <= before.value)
    && (after == before || exists i :: 0 <= i < |view| && view[i].Some? && after.value == view[i].value.at / 1_000)
  }

  ghost predicate Versions(view: View, k: int) {
    0 <= k < |view| && view[k].Some? && view[k].value.version != ""
  }

  ghost predicate LastPlace(view: View, k: int) {
    0 <= k < |view| && view[k].Some? && forall j :: k < j < |view| ==> view[j].None?
  }

  ghost predicate LastVersions(view: View, k: int) {
    Versions(view, k) && forall j :: k < j < |view| ==> !Versions(view, j)
  }

  // The last source, and the last version that is set
  ghost predicate TrackerMeans(view: View, before: Row, after: Row) {
    && (forall k :: LastPlace(view, k) ==> after.source == Some(view[k].value.source))
    && (forall k :: LastVersions(view, k) ==> after.version == Some(view[k].value.version))
    && ((forall k :: !Versions(view, k)) ==> after.version == before.version)
  }

  ghost predicate HitRow(view: View, tenant: Tenant, before: Option<Row>, after: Option<Row>) {
    if Empty(view) then after == before
    else
      && after.Some? && after.value.tenant == tenant
      && var b, a := Stored(before), after.value;
         && FirstMeans(view, b.firstHit, a.firstHit)
         && LatestMeans(view, Latest(b.lastHit, b.hostname), Latest(a.lastHit, a.hostname))
         && TrackerMeans(view, b, a)
         && a.lastEvent == b.lastEvent && a.eventName == b.eventName
         && a.automaticAt == b.automaticAt && a.automaticName == b.automaticName
  }

  ghost predicate EventRow(view: View, some: View, tenant: Tenant, before: Option<Row>, after: Option<Row>) {
    if Empty(view) then after == before
    else
      && after.Some? && after.value.tenant == tenant
      && var b, a := Stored(before), after.value;
         && LatestMeans(view, Latest(b.lastEvent, b.eventName), Latest(a.lastEvent, a.eventName))
         && LatestMeans(some, Latest(b.automaticAt, b.automaticName), Latest(a.automaticAt, a.automaticName))
         && TrackerMeans(view, b, a)
         && a.firstHit == b.firstHit && a.lastHit == b.lastHit && a.hostname == b.hostname
  }

  // The places of a site's entries within the hour, counted from the epoch
  ghost function HitsInHour(hits: seq<Option<Hit>>, site: Site, hour: int): set<int> {
    set i | 0 <= i < |hits| && hits[i].Some? && hits[i].value.site == site
      && hour * 3_600_000_000_000 <= hits[i].value.at < (hour + 1) * 3_600_000_000_000
  }

  ghost function EventsInHour(events: seq<Option<Event>>, site: Site, hour: int): set<int> {
    set i | 0 <= i < |events| && events[i].Some? && events[i].value.site == site
      && hour * 3_600_000_000_000 <= events[i].value.at < (hour + 1) * 3_600_000_000_000
  }

  // One counter after so many more hits and events; a missing one starts from zero.
  ghost predicate Raised(before: Option<Count>, after: Option<Count>, tenant: Tenant, hits: nat, events: nat) {
    if hits == 0 && events == 0 then after == before
    else
      && after.Some? && after.value.tenant == tenant
      && after.value.hits == hits + (if before.Some? then before.value.hits else 0)
      && after.value.events == events + (if before.Some? then before.value.events else 0)
  }

  ghost function Lookup<K, V>(m: map<K, V>, k: K): Option<V> {
    if k in m then Some(m[k]) else None
  }

  ghost predicate HitsInRow(
    hits: seq<Option<Hit>>, site: Site, tenant: Tenant, before: Option<Row>, after: Option<Row>)
  {
    exists view :: ViewsHits(hits, site, view) && HitRow(view, tenant, before, after)
  }

  ghost predicate EventsInRow(
    events: seq<Option<Event>>, site: Site, tenant: Tenant, before: Option<Row>, after: Option<Row>)
  {
    exists view, some ::
      ViewsEvents(events, site, view) && ViewsAutomatic(view, some) && EventRow(view, some, tenant, before, after)
  }

  // What a batch of hits leaves: of each site the row, and the counter of every
  // hour; nothing else changes.
  ghost predicate HitsLeave(
    hits: seq<Option<Hit>>, tenants: map<Site, Tenant>, before: Activities, after: Activities)
  {
    && (forall site {:trigger Lookup(after.summary, site)} ::
         if site == 0 || site !in tenants then Lookup(after.summary, site) == Lookup(before.summary, site)
         else HitsInRow(hits, site, tenants[site], Lookup(before.summary, site), Lookup(after.summary, site)))
    && (forall site, hour {:trigger HitsInHour(hits, site, hour)} :: site != 0 && site in tenants ==>
         Raised(Lookup(before.counts, (site, hour * 3_600)), Lookup(after.counts, (site, hour * 3_600)), tenants[site],
           |HitsInHour(hits, site, hour)|, 0))
    && CountersStay(tenants, before.counts, after.counts)
  }

  // The same of events, whose counters are the others
  ghost predicate EventsLeave(
    events: seq<Option<Event>>, tenants: map<Site, Tenant>, before: Activities, after: Activities)
  {
    && (forall site {:trigger Lookup(after.summary, site)} ::
         if site == 0 || site !in tenants then Lookup(after.summary, site) == Lookup(before.summary, site)
         else EventsInRow(events, site, tenants[site], Lookup(before.summary, site), Lookup(after.summary, site)))
    && (forall site, hour {:trigger EventsInHour(events, site, hour)} :: site != 0 && site in tenants ==>
         Raised(Lookup(before.counts, (site, hour * 3_600)), Lookup(after.counts, (site, hour * 3_600)), tenants[site],
           0, |EventsInHour(events, site, hour)|))
    && CountersStay(tenants, before.counts, after.counts)
  }

  ghost predicate CountersStay(
    tenants: map<Site, Tenant>, before: map<(Site, int), Count>, after: map<(Site, int), Count>)
  {
    forall key: (Site, int) {:trigger Lookup(after, key)} ::
      key.0 == 0 || key.0 !in tenants || key.1 % 3_600 != 0 ==> Lookup(after, key) == Lookup(before, key)
  }

  // ------------------------------------------------ and why the summaries say so

  function Compact(view: View): seq<Entry> {
    if view == [] then []
    else Compact(view[..|view| - 1]) + if view[|view| - 1].Some? then [view[|view| - 1].value] else []
  }

  lemma {:induction false} CompactEmpty(view: View)
    ensures Compact(view) == [] <==> Empty(view)
  {
    if view != [] {
      var n := |view| - 1;
      CompactEmpty(view[..n]);
      assert view == view[..n] + [view[n]];
    }
  }

  lemma {:induction false} NewestOfView(view: View)
    requires !Empty(view)
    ensures Compact(view) != []
    ensures forall i :: 0 <= i < |view| && view[i].Some? ==> view[i].value.at <= Newest(Compact(view))
    ensures exists i :: 0 <= i < |view| && view[i].Some? && view[i].value.at == Newest(Compact(view))
  {
    var n := |view| - 1;
    var init := view[..n];
    CompactEmpty(view);
    CompactEmpty(init);
    if !Empty(init) { NewestOfView(init); }
    if view[n].Some? {
      OneMore(Latest(None, None), Compact(init), view[n].value);
      if !Empty(init) && view[n].value.at < Newest(Compact(init)) {
        var i :| 0 <= i < n && init[i].Some? && init[i].value.at == Newest(Compact(init));
        assert view[i] == init[i];
      }
    } else {
      assert Compact(view) == Compact(init);
      var i :| 0 <= i < n && init[i].Some? && init[i].value.at == Newest(Compact(init));
      assert view[i] == init[i];
    }
    forall i | 0 <= i < |view| && view[i].Some? ensures view[i].value.at <= Newest(Compact(view)) {
      if i < n { assert init[i] == view[i]; }
    }
  }

  lemma {:induction false} OldestOfView(view: View)
    requires !Empty(view)
    ensures Compact(view) != []
    ensures forall i :: 0 <= i < |view| && view[i].Some? ==> Oldest(Compact(view)) <= view[i].value.at
    ensures exists i :: 0 <= i < |view| && view[i].Some? && view[i].value.at == Oldest(Compact(view))
  {
    var n := |view| - 1;
    var init := view[..n];
    CompactEmpty(view);
    CompactEmpty(init);
    if !Empty(init) { OldestOfView(init); }
    if view[n].Some? {
      OneMore(Latest(None, None), Compact(init), view[n].value);
      if !Empty(init) && Oldest(Compact(init)) <= view[n].value.at {
        var i :| 0 <= i < n && init[i].Some? && init[i].value.at == Oldest(Compact(init));
        assert view[i] == init[i];
      }
    } else {
      assert Compact(view) == Compact(init);
      var i :| 0 <= i < n && init[i].Some? && init[i].value.at == Oldest(Compact(init));
      assert view[i] == init[i];
    }
    forall i | 0 <= i < |view| && view[i].Some? ensures Oldest(Compact(view)) <= view[i].value.at {
      if i < n { assert init[i] == view[i]; }
    }
  }

  // The last place that names a label
  ghost predicate LastNames(view: View, k: int) {
    Names(view, k) && forall j :: k < j < |view| ==> !Names(view, j)
  }

  lemma NamesStep(init: View, last: Option<Entry>, k: int)
    requires k < |init|
    ensures Names(init + [last], k) <==> Names(init, k)
  {
    var view := init + [last];
    assert forall j :: 0 <= j < |init| ==> view[j] == init[j];
  }

  lemma NamesLast(init: View, last: Option<Entry>)
    ensures Empty(init) <==> Compact(init) == []
    ensures Names(init + [last], |init|) <==>
      last.Some? && last.value.name != "" && (Empty(init) || last.value.at >= Newest(Compact(init)))
  {
    var view, n := init + [last], |init|;
    assert view[n] == last && forall j :: 0 <= j < n ==> view[j] == init[j];
    CompactEmpty(init);
    if !Empty(init) { NewestOfView(init); }
  }

  lemma LabelledStep(entries: seq<Entry>, e: Entry)
    ensures Labelled(entries + [e])
         == if e.name != "" && (entries == [] || e.at >= Newest(entries)) then Some(e) else Labelled(entries)
  {
    assert (entries + [e])[..|entries|] == entries;
  }

  lemma LastNamesStep(init: View, last: Option<Entry>)
    ensures var view := init + [last];
            if Names(view, |init|) then LastNames(view, |init|)
            else forall k :: (Names(view, k) <==> Names(init, k)) && (LastNames(init, k) ==> LastNames(view, k))
  {
    hide Names;
    var view, n := init + [last], |init|;
    NamesInside(view);
    NamesInside(init);
    forall k | k < n ensures Names(view, k) <==> Names(init, k) {
      NamesStep(init, last, k);
    }
    if !Names(view, n) {
      forall k ensures Names(view, k) <==> Names(init, k) {
      }
    }
  }

  lemma {:induction false} LabelOfView(view: View) returns (k: int)
    ensures Labelled(Compact(view)).None? ==> forall j :: !Names(view, j)
    ensures Labelled(Compact(view)).Some? ==>
      LastNames(view, k) && 0 <= k < |view| && view[k] == Labelled(Compact(view))
  {
    k := 0;
    if view == [] {
      assert Compact(view) == [] && Labelled([]).None?;
    } else {
      hide Names, LastNames, Labelled, Newest, Compact, Empty;
      var n := |view| - 1;
      var init, last := view[..n], view[n];
      assert view == init + [last];
      k := LabelOfView(init);
      CompactStep(init, last);
      NamesLast(init, last);
      assert Compact(init) + [] == Compact(init);
      if last.Some? { LabelledStep(Compact(init), last.value); }
      LastNamesStep(init, last);
      if Names(view, n) { k := n; }
    }
  }

  lemma NamesInside(view: View)
    ensures forall j :: Names(view, j) ==> 0 <= j < |view|
  {
  }

  lemma CompactStep(init: View, last: Option<Entry>)
    ensures Compact(init + [last]) == Compact(init) + if last.Some? then [last.value] else []
  {
    assert (init + [last])[..|init|] == init;
  }

  // What the batch makes of a stored time and label
  lemma BatchLatestMeans(view: View, s: Latest)
    ensures LatestMeans(view, s, BatchLatest(s, Compact(view)))
  {
    hide Newest, Labelled, Compact, Names;
    CompactEmpty(view);
    if !Empty(view) {
      NewestOfView(view);
      var k := LabelOfView(view);
      LabelIsNamed(Compact(view));
      LatestOfNewest(view, s, k);
    }
  }

  lemma LabelIsNamed(entries: seq<Entry>)
    ensures Labelled(entries).Some? ==> Labelled(entries).value.name != ""
  {
    LabelledIsNoNewer(entries);
  }

  lemma LatestOfNewest(view: View, s: Latest, k: int)
    requires Compact(view) != []
    requires forall i :: 0 <= i < |view| && view[i].Some? ==> view[i].value.at <= Newest(Compact(view))
    requires exists i :: 0 <= i < |view| && view[i].Some? && view[i].value.at == Newest(Compact(view))
    requires Labelled(Compact(view)).None? ==> forall j :: !Names(view, j)
    requires Labelled(Compact(view)).Some? ==>
      LastNames(view, k) && view[k] == Labelled(Compact(view)) && view[k].value.name != ""
    ensures LatestMeans(view, s, BatchLatest(s, Compact(view)))
  {
    hide Newest, Labelled, Compact;
    var newest := Newest(Compact(view));
    forall i | 0 <= i < |view| && view[i].Some? ensures view[i].value.at / 1_000 <= newest / 1_000 {
    }
  }

  lemma FirstOfOldest(view: View, before: Option<int>)
    requires !Empty(view) && Compact(view) != []
    ensures var oldest := Micro(Oldest(Compact(view)));
            FirstMeans(view, before, Some(if before.Some? && before.value <= oldest then before.value else oldest))
  {
    hide Oldest, Compact;
    OldestOfView(view);
  }

  lemma TrackerOfView(view: View, before: Row, after: Row)
    requires !Empty(view) && Compact(view) != []
    requires after.source == Some(Compact(view)[|Compact(view)| - 1].source)
    requires after.version == Coalesce(NullIfBlank(LastVersion(Compact(view))), before.version)
    ensures TrackerMeans(view, before, after)
  {
    hide Compact, LastVersion, LastPlace, Versions, LastVersions;
    LastOfView(view);
    var k := VersionOfView(view);
    forall j | LastVersions(view, j) ensures j == k && LastVersion(Compact(view)) != "" {
      LastVersionsIsOne(view, j, k);
    }
    assert LastVersion(Compact(view)) != "" ==> Versions(view, k) by { LastVersionsIsOne(view, k, k); }
  }

  lemma LastVersionsIsOne(view: View, j: int, k: int)
    ensures LastVersions(view, j) && LastVersions(view, k) ==> j == k
    ensures LastVersions(view, j) ==> Versions(view, j)
  {
  }

  lemma {:induction false} LastOfView(view: View)
    ensures forall k :: LastPlace(view, k) ==>
      Compact(view) != [] && Compact(view)[|Compact(view)| - 1] == view[k].value
  {
    if view != [] {
      var n := |view| - 1;
      LastOfView(view[..n]);
      assert view == view[..n] + [view[n]];
      assert view[n].None? ==> forall k :: LastPlace(view, k) ==> LastPlace(view[..n], k);
    }
  }

  lemma VersionsStep(init: View, last: Option<Entry>)
    ensures var view := init + [last];
            if last.Some? && last.value.version != "" then LastVersions(view, |init|)
            else forall k ::
              && (Versions(view, k) <==> Versions(init, k))
              && (LastVersions(init, k) ==> LastVersions(view, k))
  {
    var view, n := init + [last], |init|;
    assert view[n] == last && forall j :: 0 <= j < n ==> view[j] == init[j];
    if !(last.Some? && last.value.version != "") {
      assert !Versions(view, n);
      forall k ensures Versions(view, k) <==> Versions(init, k) {
      }
    }
  }

  lemma {:induction false} VersionOfView(view: View) returns (k: int)
    ensures LastVersion(Compact(view)) == "" ==> forall j :: !Versions(view, j)
    ensures LastVersion(Compact(view)) != "" ==>
      LastVersions(view, k) && 0 <= k < |view| && view[k].Some?
      && view[k].value.version == LastVersion(Compact(view))
  {
    k := 0;
    if view == [] {
      assert Compact(view) == [] && LastVersion([]) == "";
    } else {
      hide Compact, LastVersion, Newest, Oldest, Label, Automatic, Versions, LastVersions;
      var n := |view| - 1;
      var init, last := view[..n], view[n];
      k := VersionOfView(init);
      CompactStep(init, last);
      VersionsStep(init, last);
      assert view == init + [last] && Compact(init) + [] == Compact(init);
      if last.Some? {
        OneMore(Latest(None, None), Compact(init), last.value);
        if last.value.version != "" { k := n; }
      }
    }
  }

  lemma {:induction false} AutomaticOfView(view: View, some: View)
    requires ViewsAutomatic(view, some)
    ensures Automatic(Compact(view)) == Compact(some)
  {
    if view != [] {
      var n := |view| - 1;
      AutomaticOfView(view[..n], some[..n]);
      CompactStep(view[..n], view[n]);
      CompactStep(some[..n], some[n]);
      assert view == view[..n] + [view[n]] && some == some[..n] + [some[n]];
      assert Compact(view[..n]) + [] == Compact(view[..n]) && Compact(some[..n]) + [] == Compact(some[..n]);
      assert Compact(some[..n]) == Automatic(Compact(view[..n]));
      hide Compact, Automatic;
      if view[n].Some? { OneMore(Latest(None, None), Compact(view[..n]), view[n].value); }
    }
  }

  // ------------------------------------------------ from the batch to its views

  // The views that the summaries are taken from
  function PickHit(hit: Option<Hit>, site: Site): Option<Entry> {
    if hit.Some? && hit.value.site == site then Some(CleanHit(hit.value)) else None
  }

  function HitView(hits: seq<Option<Hit>>, site: Site): (view: View)
    ensures |view| == |hits| && forall i :: 0 <= i < |hits| ==> view[i] == PickHit(hits[i], site)
  {
    if hits == [] then [] else HitView(hits[..|hits| - 1], site) + [PickHit(hits[|hits| - 1], site)]
  }

  function PickEvent(event: Option<Event>, site: Site): Option<Entry> {
    if event.Some? && event.value.site == site then Some(CleanEvent(event.value)) else None
  }

  function EventView(events: seq<Option<Event>>, site: Site): (view: View)
    ensures |view| == |events| && forall i :: 0 <= i < |events| ==> view[i] == PickEvent(events[i], site)
  {
    if events == [] then [] else EventView(events[..|events| - 1], site) + [PickEvent(events[|events| - 1], site)]
  }

  lemma {:induction false} HitsOfSite(hits: seq<Option<Hit>>, site: Site)
    requires site != NilSite
    ensures OfSite(HitLog(hits), site) == Compact(HitView(hits, site))
  {
    if hits != [] {
      hide CleanHit, OfSite, Compact, Bucket, Tally;
      var n := |hits| - 1;
      var log, init, last := HitLog(hits[..n]), HitView(hits[..n], site), PickHit(hits[n], site);
      HitsOfSite(hits[..n], site);
      CompactStep(init, last);
      assert Compact(init) + [] == Compact(init) && log + [] == log;
      if hits[n].Some? && hits[n].value.site != NilSite {
        LogSnoc(log, Logged(hits[n].value.site, CleanHit(hits[n].value)), site, (site, 0));
      }
    }
  }
  lemma {:induction false} EventsOfSite(events: seq<Option<Event>>, site: Site)
    requires site != NilSite
    ensures OfSite(EventLog(events), site) == Compact(EventView(events, site))
  {
    if events != [] {
      hide CleanEvent, OfSite, Compact, Bucket, Tally;
      var n := |events| - 1;
      var log, init, last := EventLog(events[..n]), EventView(events[..n], site), PickEvent(events[n], site);
      EventsOfSite(events[..n], site);
      CompactStep(init, last);
      assert Compact(init) + [] == Compact(init) && log + [] == log;
      if events[n].Some? && events[n].value.site != NilSite {
        LogSnoc(log, Logged(events[n].value.site, CleanEvent(events[n].value)), site, (site, 0));
      }
    }
  }
  lemma TrackedBySource(source: string, version: string, e: Entry)
    requires e.source == TrackerSource(source) && e.version == TrackerVersion(version)
    ensures Tracked(source, version, e)
  {
    hide TrimSpace;
  }

  lemma HitViewMeans(hits: seq<Option<Hit>>, site: Site)
    ensures ViewsHits(hits, site, HitView(hits, site))
  {
    hide TrackerSource, TrackerVersion, TrimSpace, Tracked;
    var view := HitView(hits, site);
    forall i | 0 <= i < |hits| && view[i].Some?
      ensures Tracked(hits[i].value.source, hits[i].value.version, view[i].value)
    {
      TrackedBySource(hits[i].value.source, hits[i].value.version, view[i].value);
    }
  }

  lemma EventViewMeans(events: seq<Option<Event>>, site: Site)
    ensures ViewsEvents(events, site, EventView(events, site))
  {
    hide TrackerSource, TrackerVersion, TrimSpace, Tracked;
    var view := EventView(events, site);
    forall i | 0 <= i < |events| && view[i].Some?
      ensures Tracked(events[i].value.source, events[i].value.version, view[i].value)
    {
      TrackedBySource(events[i].value.source, events[i].value.version, view[i].value);
    }
  }

  lemma HitRowMeans(view: View, tenant: Tenant, before: Option<Row>, after: Option<Row>)
    requires forall i :: 0 <= i < |view| && view[i].Some? ==> Proper(view[i].value)
    requires after == if Compact(view) == [] then before else Some(Upsert(Hits, before, tenant, Compact(view)))
    ensures HitRow(view, tenant, before, after)
  {
    hide Upsert, LatestMeans, FirstMeans, TrackerMeans, Proper, BatchLatest, Newest, Oldest;
    CompactEmpty(view);
    if !Empty(view) {
      CompactIsProper(view);
      BatchWrites(Hits, before, tenant, Compact(view));
      BatchLatestMeans(view, LatestOf(Hits, Stored(before)));
      FirstOfOldest(view, Stored(before).firstHit);
      TrackerOfView(view, Stored(before), after.value);
    }
  }

  lemma EventRowMeans(view: View, some: View, tenant: Tenant, before: Option<Row>, after: Option<Row>)
    requires forall i :: 0 <= i < |view| && view[i].Some? ==> Proper(view[i].value)
    requires ViewsAutomatic(view, some)
    requires after == if Compact(view) == [] then before else Some(Upsert(Events, before, tenant, Compact(view)))
    ensures EventRow(view, some, tenant, before, after)
  {
    hide Upsert, LatestMeans, FirstMeans, TrackerMeans, Proper, BatchLatest, Newest, Oldest, ViewsAutomatic;
    CompactEmpty(view);
    if !Empty(view) {
      CompactIsProper(view);
      BatchWrites(Events, before, tenant, Compact(view));
      BatchLatestMeans(view, LatestOf(Events, Stored(before)));
      AutomaticOfView(view, some);
      BatchLatestMeans(some, AutomaticOf(Stored(before)));
      TrackerOfView(view, Stored(before), after.value);
    }
  }

  lemma {:induction false} CompactIsProper(view: View)
    requires forall i :: 0 <= i < |view| && view[i].Some? ==> Proper(view[i].value)
    ensures forall e :: e in Compact(view) ==> Proper(e)
  {
    if view != [] {
      var n := |view| - 1;
      CompactIsProper(view[..n]);
    }
  }

  lemma {:induction false} TallyOfHits(hits: seq<Option<Hit>>, site: Site, hour: int)
    requires site != NilSite
    ensures Tally(HitLog(hits), (site, hour * 3_600)) == |HitsInHour(hits, site, hour)|
  {
    if hits == [] {
      assert HitsInHour(hits, site, hour) == {};
    } else {
      hide Tally, OfSite, Bucket, CleanHit;
      var n := |hits| - 1;
      TallyOfHits(hits[..n], site, hour);
      HitsInHourStep(hits, site, hour);
      var log := HitLog(hits[..n]);
      if hits[n].Some? && hits[n].value.site != NilSite {
        var l := Logged(hits[n].value.site, CleanHit(hits[n].value));
        assert l.entry.at == hits[n].value.at by { CleanHitTime(hits[n].value); }
        LogSnoc(log, l, site, (site, hour * 3_600));
        HourOf(hits[n].value.at, hour);
      } else {
        assert log + [] == log;
      }
    }
  }

  lemma CleanHitTime(hit: Hit)
    ensures CleanHit(hit).at == hit.at
  {
  }

  lemma HitsInHourStep(hits: seq<Option<Hit>>, site: Site, hour: int)
    requires hits != []
    ensures var n := |hits| - 1;
            |HitsInHour(hits, site, hour)| == |HitsInHour(hits[..n], site, hour)|
              + if hits[n].Some? && hits[n].value.site == site
                   && hour * 3_600_000_000_000 <= hits[n].value.at < (hour + 1) * 3_600_000_000_000 then 1 else 0
  {
    var n := |hits| - 1;
    var init := HitsInHour(hits[..n], site, hour);
    assert forall i :: 0 <= i < n ==> hits[..n][i] == hits[i];
    if n in HitsInHour(hits, site, hour) {
      assert HitsInHour(hits, site, hour) == init + {n};
    } else {
      assert HitsInHour(hits, site, hour) == init;
    }
  }

  lemma {:induction false} TallyOfEvents(events: seq<Option<Event>>, site: Site, hour: int)
    requires site != NilSite
    ensures Tally(EventLog(events), (site, hour * 3_600)) == |EventsInHour(events, site, hour)|
  {
    if events == [] {
      assert EventsInHour(events, site, hour) == {};
    } else {
      hide Tally, OfSite, Bucket, CleanEvent;
      var n := |events| - 1;
      TallyOfEvents(events[..n], site, hour);
      EventsInHourStep(events, site, hour);
      var log := EventLog(events[..n]);
      if events[n].Some? && events[n].value.site != NilSite {
        var l := Logged(events[n].value.site, CleanEvent(events[n].value));
        assert l.entry.at == events[n].value.at by { CleanEventTime(events[n].value); }
        LogSnoc(log, l, site, (site, hour * 3_600));
        HourOf(events[n].value.at, hour);
      } else {
        assert log + [] == log;
      }
    }
  }

  lemma CleanEventTime(event: Event)
    ensures CleanEvent(event).at == event.at
  {
  }

  lemma EventsInHourStep(events: seq<Option<Event>>, site: Site, hour: int)
    requires events != []
    ensures var n := |events| - 1;
            |EventsInHour(events, site, hour)| == |EventsInHour(events[..n], site, hour)|
              + if events[n].Some? && events[n].value.site == site
                   && hour * 3_600_000_000_000 <= events[n].value.at < (hour + 1) * 3_600_000_000_000 then 1 else 0
  {
    var n := |events| - 1;
    var init := EventsInHour(events[..n], site, hour);
    assert forall i :: 0 <= i < n ==> events[..n][i] == events[i];
    if n in EventsInHour(events, site, hour) {
      assert EventsInHour(events, site, hour) == init + {n};
    } else {
      assert EventsInHour(events, site, hour) == init;
    }
  }

  lemma HourOf(at: int, hour: int)
    ensures Bucket(at) == hour * 3_600 <==> hour * 3_600_000_000_000 <= at < (hour + 1) * 3_600_000_000_000
  {
  }

  lemma HitSiteLeaves(
    hits: seq<Option<Hit>>, tenants: map<Site, Tenant>, before: Activities, after: Activities, site: Site)
    requires Recorded(Hits, tenants, before, HitLog(hits), after) && site != NilSite && site in tenants
    ensures HitsInRow(hits, site, tenants[site], Lookup(before.summary, site), Lookup(after.summary, site))
  {
    hide Upsert, OfSite, Compact, HitLog, HitRow, ViewsHits, CleanHit, Bucket, Tally, Proper;
    HitsOfSite(hits, site);
    var view := HitView(hits, site);
    HitViewMeans(hits, site);
    forall i | 0 <= i < |view| && view[i].Some? ensures Proper(view[i].value) {
      CleanHitIsProper(hits[i].value);
    }
    assert RowOf(after.summary, site)
        == if OfSite(HitLog(hits), site) == [] then RowOf(before.summary, site)
           else Some(Upsert(Hits, RowOf(before.summary, site), tenants[site], OfSite(HitLog(hits), site)));
    HitRowMeans(view, tenants[site], RowOf(before.summary, site), RowOf(after.summary, site));
  }

  lemma CleanHitIsProper(hit: Hit)
    ensures Proper(CleanHit(hit))
  {
    CleanIsProper(hit.source);
  }

  lemma HitCountersRise(
    hits: seq<Option<Hit>>, tenants: map<Site, Tenant>, before: Activities, after: Activities, site: Site, hour: int)
    requires Recorded(Hits, tenants, before, HitLog(hits), after) && site != NilSite && site in tenants
    ensures Raised(Lookup(before.counts, (site, hour * 3_600)), Lookup(after.counts, (site, hour * 3_600)),
              tenants[site], |HitsInHour(hits, site, hour)|, 0)
  {
    hide Tally, HitLog, HitsInHour, Bucket;
    TallyOfHits(hits, site, hour);
    var key := (site, hour * 3_600);
    assert CountOf(after.counts, key)
        == Grown(Hits, CountOf(before.counts, key), tenants[site], Tally(HitLog(hits), key));
  }

  lemma HitsLeaveThis(hits: seq<Option<Hit>>, tenants: map<Site, Tenant>, before: Activities, after: Activities)
    requires Recorded(Hits, tenants, before, HitLog(hits), after)
    ensures HitsLeave(hits, tenants, before, after)
  {
    hide HitLog, HitsInHour, Recorded, HitRow, ViewsHits, Raised, ViewsAutomatic, HitsInRow, EventsInRow;
    forall site
      ensures
        if site == 0 || site !in tenants then Lookup(after.summary, site) == Lookup(before.summary, site)
        else HitsInRow(hits, site, tenants[site], Lookup(before.summary, site), Lookup(after.summary, site))
    {
      if site == 0 || site !in tenants {
        NilSiteHasNoHits(hits);
        StaysOut(Hits, tenants, before, HitLog(hits), after, site);
      } else {
        HitSiteLeaves(hits, tenants, before, after, site);
      }
    }
    forall site, hour | site != 0 && site in tenants
      ensures Raised(Lookup(before.counts, (site, hour * 3_600)), Lookup(after.counts, (site, hour * 3_600)),
                tenants[site], |HitsInHour(hits, site, hour)|, 0)
    {
      HitCountersRise(hits, tenants, before, after, site, hour);
    }
    NilSiteHasNoHits(hits);
    OtherCountersStay(Hits, tenants, before, HitLog(hits), after);
  }

  lemma {:induction false} NilSiteHasNoHits(hits: seq<Option<Hit>>)
    ensures forall l :: l in HitLog(hits) ==> l.site != NilSite
  {
    if hits != [] {
      NilSiteHasNoHits(hits[..|hits| - 1]);
    }
  }

  lemma {:induction false} SitesOfHits(hits: seq<Option<Hit>>, site: Site)
    ensures site in Sites(HitLog(hits)) <==>
      site != 0 && exists i :: 0 <= i < |hits| && hits[i].Some? && hits[i].value.site == site
  {
    if hits != [] {
      var n := |hits| - 1;
      SitesOfHits(hits[..n], site);
      assert hits == hits[..n] + [hits[n]];
      SitesJoin(HitLog(hits[..n]), LogHit(hits[n]), site);
    }
  }

  lemma EventSiteLeaves(
    events: seq<Option<Event>>, tenants: map<Site, Tenant>, before: Activities, after: Activities, site: Site)
    requires Recorded(Events, tenants, before, EventLog(events), after) && site != NilSite && site in tenants
    ensures EventsInRow(events, site, tenants[site], Lookup(before.summary, site), Lookup(after.summary, site))
  {
    hide Upsert, OfSite, Compact, EventLog, EventRow, ViewsEvents, CleanEvent, Bucket, Tally, Proper;
    EventsOfSite(events, site);
    var view := EventView(events, site);
    EventViewMeans(events, site);
    forall i | 0 <= i < |view| && view[i].Some? ensures Proper(view[i].value) {
      CleanEventIsProper(events[i].value);
    }
    assert RowOf(after.summary, site)
        == if OfSite(EventLog(events), site) == [] then RowOf(before.summary, site)
           else Some(Upsert(Events, RowOf(before.summary, site), tenants[site], OfSite(EventLog(events), site)));
    var some := AutomaticView(view);
    EventRowMeans(view, some, tenants[site], RowOf(before.summary, site), RowOf(after.summary, site));
  }

  lemma CleanEventIsProper(event: Event)
    ensures Proper(CleanEvent(event))
  {
    CleanIsProper(event.source);
  }

  lemma EventCountersRise(
    events: seq<Option<Event>>, tenants: map<Site, Tenant>, before: Activities, after: Activities, site: Site,
    hour: int)
    requires Recorded(Events, tenants, before, EventLog(events), after) && site != NilSite && site in tenants
    ensures Raised(Lookup(before.counts, (site, hour * 3_600)), Lookup(after.counts, (site, hour * 3_600)),
              tenants[site], 0, |EventsInHour(events, site, hour)|)
  {
    hide Tally, EventLog, EventsInHour, Bucket;
    TallyOfEvents(events, site, hour);
    var key := (site, hour * 3_600);
    assert CountOf(after.counts, key)
        == Grown(Events, CountOf(before.counts, key), tenants[site], Tally(EventLog(events), key));
  }

  lemma EventsLeaveThis(events: seq<Option<Event>>, tenants: map<Site, Tenant>, before: Activities, after: Activities)
    requires Recorded(Events, tenants, before, EventLog(events), after)
    ensures EventsLeave(events, tenants, before, after)
  {
    hide EventLog, EventsInHour, Recorded, EventRow, ViewsEvents, Raised, ViewsAutomatic, HitsInRow, EventsInRow;
    forall site
      ensures
        if site == 0 || site !in tenants then Lookup(after.summary, site) == Lookup(before.summary, site)
        else EventsInRow(events, site, tenants[site], Lookup(before.summary, site), Lookup(after.summary, site))
    {
      if site == 0 || site !in tenants {
        NilSiteHasNoEvents(events);
        StaysOut(Events, tenants, before, EventLog(events), after, site);
      } else {
        EventSiteLeaves(events, tenants, before, after, site);
      }
    }
    forall site, hour | site != 0 && site in tenants
      ensures Raised(Lookup(before.counts, (site, hour * 3_600)), Lookup(after.counts, (site, hour * 3_600)),
                tenants[site], 0, |EventsInHour(events, site, hour)|)
    {
      EventCountersRise(events, tenants, before, after, site, hour);
    }
    NilSiteHasNoEvents(events);
    OtherCountersStay(Events, tenants, before, EventLog(events), after);
  }

  lemma {:induction false} NilSiteHasNoEvents(events: seq<Option<Event>>)
    ensures forall l :: l in EventLog(events) ==> l.site != NilSite
  {
    if events != [] {
      NilSiteHasNoEvents(events[..|events| - 1]);
    }
  }

  lemma {:induction false} SitesOfEvents(events: seq<Option<Event>>, site: Site)
    ensures site in Sites(EventLog(events)) <==>
      site != 0 && exists i :: 0 <= i < |events| && events[i].Some? && events[i].value.site == site
  {
    if events != [] {
      var n := |events| - 1;
      SitesOfEvents(events[..n], site);
      assert events == events[..n] + [events[n]];
      SitesJoin(EventLog(events[..n]), LogEvent(events[n]), site);
    }
  }

  lemma SitesJoin(a: seq<Logged>, b: seq<Logged>, site: Site)
    ensures site in Sites(a + b) <==> site in Sites(a) || site in Sites(b)
  {
  }

  function AutomaticView(view: View): (some: View)
    ensures ViewsAutomatic(view, some)
  {
    seq(|view|, i requires 0 <= i < |view| => if view[i].Some? && view[i].value.automatic then view[i] else None)
  }

  lemma StaysOut(
    kind: Kind, tenants: map<Site, Tenant>, before: Activities, log: seq<Logged>, after: Activities, site: Site)
    requires Recorded(kind, tenants, before, log, after)
    requires site !in tenants || forall l :: l in log ==> l.site != site
    ensures Lookup(after.summary, site) == Lookup(before.summary, site)
  {
    hide Upsert, OfSite, CountsAfter;
    OfSiteNonEmpty(log, site);
    assert RowOf(after.summary, site) == RowOf(before.summary, site);
  }

  lemma OtherCountersStay(
    kind: Kind, tenants: map<Site, Tenant>, before: Activities, log: seq<Logged>, after: Activities)
    requires Recorded(kind, tenants, before, log, after) && forall l :: l in log ==> l.site != NilSite
    ensures CountersStay(tenants, before.counts, after.counts)
  {
    hide Upsert, OfSite, Tally;
    forall key: (Site, int) | key.0 == 0 || key.0 !in tenants || key.1 % 3_600 != 0
      ensures Lookup(after.counts, key) == Lookup(before.counts, key)
    {
      assert CountOf(after.counts, key)
          == if key.0 !in tenants then CountOf(before.counts, key)
             else Grown(kind, CountOf(before.counts, key), tenants[key.0], Tally(log, key));
      if key.0 in tenants { NothingTallied(log, key); }
    }
  }

  lemma NothingTallied(log: seq<Logged>, key: (Site, int))
    requires key.1 % 3_600 != 0 || forall l :: l in log ==> l.site != key.0
    ensures Tally(log, key) == 0
  {
    OfSiteNonEmpty(log, key.0);
    if key.1 % 3_600 != 0 { NoneInBucket(OfSite(log, key.0), key.1); }
  }

  lemma {:induction false} NoneInBucket(entries: seq<Entry>, bucket: int)
    requires bucket % 3_600 != 0
    ensures InBucket(entries, bucket) == 0
  {
    if entries != [] {
      NoneInBucket(entries[..|entries| - 1], bucket);
    }
  }

  class ActivityStore {
    const tenants: map<Site, Tenant>
    var summary: map<Site, Row>
    var counts: map<(Site, int), Count>

    constructor (tenants: map<Site, Tenant>, summary: map<Site, Row>, counts: map<(Site, int), Count>)
      ensures this.tenants == tenants && this.summary == summary && this.counts == counts
    {
      this.tenants, this.summary, this.counts := tenants, summary, counts;
    }

    function State(): Activities
      reads this
    {
      Activities(summary, counts)
    }

    // RecordHitActivity. The result is false when the tenant of a site of the
    // batch cannot be resolved.
    method RecordHitActivity(hits: seq<Option<Hit>>) returns (ok: bool)
      modifies this
      ensures ok <==> forall i :: 0 <= i < |hits| && hits[i].Some? && hits[i].value.site != 0 ==>
        hits[i].value.site in tenants
      ensures ok ==> HitsLeave(hits, tenants, old(State()), State())
      ensures !ok ==> counts == old(counts)
      ensures ok ==> Recorded(Hits, tenants, old(State()), HitLog(hits), State())
      ensures !ok ==> Partly(Hits, tenants, old(State()), HitLog(hits), State())
    {
      var summaries, tally := SumHits(hits);
      ghost var log := HitLog(hits);
      ok := WriteHitSummaries(log, summaries);
      forall site ensures site in Sites(log) <==>
        site != 0 && exists i :: 0 <= i < |hits| && hits[i].Some? && hits[i].value.site == site
      {
        SitesOfHits(hits, site);
      }
      if ok {
        FlushCounts(Hits, log, tally);
        HitsRecorded(tenants, old(State()), log, summaries, State());
        HitsLeaveThis(hits, tenants, old(State()), State());
      }
    }

    static method SumHits(hits: seq<Option<Hit>>)
      returns (summaries: map<Site, HitSummary>, tally: map<(Site, int), nat>)
      ensures HitsSummed(HitLog(hits), summaries) && Counted(HitLog(hits), tally)
    {
      hide HitsSummed, Counted, OfSite, CleanHit, SummarizeHits, Bucket;
      summaries, tally := map[], map[];
      NothingSummed();
      for i := 0 to |hits|
        invariant HitsSummed(HitLog(hits[..i]), summaries)
        invariant Counted(HitLog(hits[..i]), tally)
      {
        var hit := hits[i];
        ghost var log := HitLog(hits[..i]);
        assert hits[..i + 1][..i] == hits[..i];
        if hit.None? || hit.value.site == NilSite {
          assert log + [] == log;
          continue;
        }
        var site, e := hit.value.site, CleanHit(hit.value);
        HitKnown(log, summaries, site);
        var agg := AddHit(OfSite(log, site), if site in summaries then Some(summaries[site]) else None, e);
        var key := (site, Bucket(e.at));
        HitsSummedStep(log, summaries, Logged(site, e), agg);
        CountedStep(log, tally, Logged(site, e), key);
        summaries := summaries[site := agg];
        tally := tally[key := if key in tally then tally[key] + 1 else 1];
      }
      assert hits[..|hits|] == hits;
    }

    // The step of the batch loop for one hit.
    static method AddHit(ghost entries: seq<Entry>, known: Option<HitSummary>, e: Entry) returns (agg: HitSummary)
      requires known == if entries == [] then None else Some(SummarizeHits(entries))
      ensures agg == SummarizeHits(entries + [e])
    {
      SummaryStep(entries, e);
      if known.None? {
        agg := HitSummary(e.at, e.at, e.name, "", "");
      } else {
        agg := known.value;
        if e.at < agg.firstAt {
          agg := agg.(firstAt := e.at);
        }
        if e.at >= agg.lastAt {
          agg := agg.(lastAt := e.at);
          if e.name != "" {
            agg := agg.(hostname := e.name);
          }
        }
      }
      agg := agg.(source := e.source);
      if e.version != "" {
        agg := agg.(version := e.version);
      }
    }

    // The loop over the summaries; map order is arbitrary.
    method WriteHitSummaries(ghost log: seq<Logged>, summaries: map<Site, HitSummary>) returns (ok: bool)
      requires HitsSummed(log, summaries)
      modifies this`summary
      ensures ok <==> Sites(log) <= tenants.Keys
      ensures ok ==> HitRows(tenants, old(summary), summaries, summaries.Keys, summary)
      ensures Partly(Hits, tenants, old(State()), log, State())
    {
      var rest := summaries.Keys;
      while rest != {}
        invariant rest <= summaries.Keys && summaries.Keys - rest <= tenants.Keys
        invariant HitRows(tenants, old(summary), summaries, summaries.Keys - rest, summary)
        invariant counts == old(counts)
      {
        var site :| site in rest;
        if site !in tenants {
          return false;
        }
        HitRowsStep(tenants, old(summary), summaries, summaries.Keys - rest, summary, site);
        assert summaries.Keys - (rest - {site}) == summaries.Keys - rest + {site};
        summary := summary[site := UpsertHits(RowOf(summary, site), tenants[site], summaries[site])];
        rest := rest - {site};
      }
      return true;
    }

    // RecordEventActivity
    method RecordEventActivity(events: seq<Option<Event>>) returns (ok: bool)
      modifies this
      ensures ok <==> forall i :: 0 <= i < |events| && events[i].Some? && events[i].value.site != 0 ==>
        events[i].value.site in tenants
      ensures ok ==> EventsLeave(events, tenants, old(State()), State())
      ensures !ok ==> counts == old(counts)
      ensures ok ==> Recorded(Events, tenants, old(State()), EventLog(events), State())
      ensures !ok ==> Partly(Events, tenants, old(State()), EventLog(events), State())
    {
      var summaries, tally := SumEvents(events);
      ghost var log := EventLog(events);
      ok := WriteEventSummaries(log, summaries);
      forall site ensures site in Sites(log) <==>
        site != 0 && exists i :: 0 <= i < |events| && events[i].Some? && events[i].value.site == site
      {
        SitesOfEvents(events, site);
      }
      if ok {
        FlushCounts(Events, log, tally);
        EventsRecorded(tenants, old(State()), log, summaries, State());
        EventsLeaveThis(events, tenants, old(State()), State());
      }
    }

    static method SumEvents(events: seq<Option<Event>>)
      returns (summaries: map<Site, EventSummary>, tally: map<(Site, int), nat>)
      ensures EventsSummed(EventLog(events), summaries) && Counted(EventLog(events), tally)
    {
      hide EventsSummed, Counted, OfSite, CleanEvent, SummarizeEvents, Bucket;
      summaries, tally := map[], map[];
      NothingSummed();
      for i := 0 to |events|
        invariant EventsSummed(EventLog(events[..i]), summaries)
        invariant Counted(EventLog(events[..i]), tally)
      {
        var event := events[i];
        ghost var log := EventLog(events[..i]);
        assert events[..i + 1][..i] == events[..i];
        if event.None? || event.value.site == NilSite {
          assert log + [] == log;
          continue;
        }
        var site, e := event.value.site, CleanEvent(event.value);
        AutomaticIsNamed(event.value);
        EventKnown(log, summaries, site);
        var agg := AddEvent(OfSite(log, site), if site in summaries then Some(summaries[site]) else None, e);
        var key := (site, Bucket(e.at));
        EventsSummedStep(log, summaries, Logged(site, e), agg);
        CountedStep(log, tally, Logged(site, e), key);
        summaries := summaries[site := agg];
        tally := tally[key := if key in tally then tally[key] + 1 else 1];
      }
      assert events[..|events|] == events;
    }

    // The step of the batch loop for one event.
    static method AddEvent(ghost entries: seq<Entry>, known: Option<EventSummary>, e: Entry) returns (agg: EventSummary)
      requires known == if entries == [] then None else Some(SummarizeEvents(entries))
      requires e.automatic ==> e.name != ""
      ensures agg == SummarizeEvents(entries + [e])
    {
      SummaryStep(entries, e);
      AutomaticStep(entries, e);
      if known.None? {
        agg := EventSummary(e.at, e.name, None, "", "");
      } else {
        agg := known.value;
        if e.at >= agg.lastAt {
          agg := agg.(lastAt := e.at);
          if e.name != "" {
            agg := agg.(lastName := e.name);
          }
        }
      }
      if e.automatic && (agg.automatic.None? || e.at >= agg.automatic.value.0) {
        agg := agg.(automatic := Some((e.at, e.name)));
      }
      agg := agg.(source := e.source);
      if e.version != "" {
        agg := agg.(version := e.version);
      }
    }

    method WriteEventSummaries(ghost log: seq<Logged>, summaries: map<Site, EventSummary>) returns (ok: bool)
      requires EventsSummed(log, summaries)
      modifies this`summary
      ensures ok <==> Sites(log) <= tenants.Keys
      ensures ok ==> EventRows(tenants, old(summary), summaries, summaries.Keys, summary)
      ensures Partly(Events, tenants, old(State()), log, State())
    {
      var rest := summaries.Keys;
      while rest != {}
        invariant rest <= summaries.Keys && summaries.Keys - rest <= tenants.Keys
        invariant EventRows(tenants, old(summary), summaries, summaries.Keys - rest, summary)
        invariant counts == old(counts)
      {
        var site :| site in rest;
        if site !in tenants {
          return false;
        }
        EventRowsStep(tenants, old(summary), summaries, summaries.Keys - rest, summary, site);
        assert summaries.Keys - (rest - {site}) == summaries.Keys - rest + {site};
        summary := summary[site := UpsertEvents(RowOf(summary, site), tenants[site], summaries[site])];
        rest := rest - {site};
      }
      return true;
    }

    // flushSiteActivityCounts, for sites whose tenant is known.
    method FlushCounts(kind: Kind, ghost log: seq<Logged>, tally: map<(Site, int), nat>)
      requires Counted(log, tally) && Sites(log) <= tenants.Keys
      modifies this`counts
      ensures CountsAfter(kind, tenants, old(counts), log, counts)
    {
      forall key | key in tally ensures key.0 in tenants {
        TalliedSite(log, key);
      }
      var rest := tally.Keys;
      while rest != {}
        invariant rest <= tally.Keys
        invariant Flushed(kind, tenants, old(counts), tally, tally.Keys - rest, counts)
      {
        var key :| key in rest;
        FlushedStep(kind, tenants, old(counts), tally, tally.Keys - rest, counts, key);
        assert tally.Keys - (rest - {key}) == tally.Keys - rest + {key};
        counts := counts[key := AddCount(kind, CountOf(counts, key), tenants[key.0], tally[key])];
        rest := rest - {key};
      }
    }
  }

  lemma TalliedSite(log: seq<Logged>, key: (Site, int))
    requires Tally(log, key) > 0
    ensures key.0 in Sites(log)
  {
    OfSiteNonEmpty(log, key.0);
  }
}
