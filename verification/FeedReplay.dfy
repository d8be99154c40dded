/** When feeds may be delivered again: exactly which streams leave no trace of their rerun. */
module FeedReplay {
  import opened Options
  import opened OrderedUnion
  import opened Replay
  import opened FeedMerge

  // ---------------------------------------------------------------- merging is associative and idempotent

  lemma ColumnsAssociative<C>(a: map<C, string>, b: map<C, string>, c: map<C, string>)
    ensures (a + b) + c == a + (b + c)
  {
  }

  lemma EscalationAssociative(a: Maturity, b: Maturity, c: Maturity)
    ensures Escalated(Escalated(a, b), c) == Escalated(a, Escalated(b, c))
  {
  }

  lemma VulnerabilitiesMerge()
    ensures Associative(MergeVulnerability) && Idempotent(MergeVulnerability)
  {
    hide Extend, Escalated;
    forall a, b, c
      ensures MergeVulnerability(MergeVulnerability(a, b), c) == MergeVulnerability(a, MergeVulnerability(b, c))
    {
      ColumnsAssociative(a.columns, b.columns, c.columns);
      ExtendAssociative(a.cpes, b.cpes, c.cpes);
      ExtendAssociative(a.sources, b.sources, c.sources);
      EscalationAssociative(a.maturity, b.maturity, c.maturity);
    }
    forall a ensures MergeVulnerability(a, a) == a {
      assert a.columns + a.columns == a.columns;
      ExtendKnown(a.cpes, a.cpes);
      ExtendKnown(a.sources, a.sources);
      assert Escalated(a.maturity, a.maturity) == a.maturity by { EscalatedSelf(a.maturity); }
    }
  }

  lemma EscalatedSelf(m: Maturity)
    ensures Escalated(m, m) == m
  {
  }

  lemma VictimsMerge()
    ensures Associative(MergeVictim) && Idempotent(MergeVictim)
  {
    hide Extend;
    forall a, b, c ensures MergeVictim(MergeVictim(a, b), c) == MergeVictim(a, MergeVictim(b, c)) {
      ColumnsAssociative(a.columns, b.columns, c.columns);
      ExtendAssociative(a.rawNames, b.rawNames, c.rawNames);
      ExtendAssociative(a.sources, b.sources, c.sources);
    }
    forall a ensures MergeVictim(a, a) == a {
      assert a.columns + a.columns == a.columns;
      ExtendKnown(a.rawNames, a.rawNames);
      ExtendKnown(a.sources, a.sources);
    }
  }

  lemma IndicatorsMerge()
    ensures Associative(MergeIndicator) && Idempotent(MergeIndicator)
  {
    hide Extend;
    forall a, b, c ensures MergeIndicator(MergeIndicator(a, b), c) == MergeIndicator(a, MergeIndicator(b, c)) {
      ExtendAssociative(a.tags, b.tags, c.tags);
      ExtendAssociative(a.sources, b.sources, c.sources);
    }
    forall a ensures MergeIndicator(a, a) == a {
      ExtendKnown(a.tags, a.tags);
      ExtendKnown(a.sources, a.sources);
    }
  }

  // ---------------------------------------------------------------- a stream kind by kind

  function VulnerabilityEntries(arrivals: seq<Arrival>): seq<Entry<string, Vulnerability>> {
    if arrivals == [] then [] else
      var before, a := VulnerabilityEntries(arrivals[..|arrivals| - 1]), arrivals[|arrivals| - 1];
      if a.record.payload.CvePayload? then before + [VulnerabilityEntry(a)] else before
  }

  function VictimEntries(arrivals: seq<Arrival>): seq<Entry<VictimKey, Victim>> {
    if arrivals == [] then [] else
      var before, a := VictimEntries(arrivals[..|arrivals| - 1]), arrivals[|arrivals| - 1];
      if a.record.payload.VictimPayload? then before + [VictimEntry(a)] else before
  }

  function IndicatorEntries(arrivals: seq<Arrival>): seq<Entry<IndicatorKey, Indicator>> {
    if arrivals == [] then [] else
      var before, a := IndicatorEntries(arrivals[..|arrivals| - 1]), arrivals[|arrivals| - 1];
      if a.record.payload.IndicatorPayload? then before + [IndicatorEntry(a)] else before
  }

  predicate NoExploits(arrivals: seq<Arrival>) {
    forall i :: 0 <= i < |arrivals| ==> !arrivals[i].record.payload.ExploitPayload?
  }

  /** The same records, perhaps fetched by other runs at other times. */
  ghost predicate SameRecords(a: seq<Arrival>, b: seq<Arrival>) {
    |a| == |b| && forall i :: 0 <= i < |a| ==> a[i].record == b[i].record
  }

  ghost predicate SameTimes(a: seq<Arrival>, b: seq<Arrival>) {
    |a| == |b| && forall i :: 0 <= i < |a| ==> a[i].now == b[i].now
  }

  lemma {:induction false} IngestByKind(s: Store, arrivals: seq<Arrival>)
    requires NoExploits(arrivals)
    ensures IngestAll(s, arrivals) == Store(
      AbsorbAll(MergeVulnerability, s.vulnerabilities, VulnerabilityEntries(arrivals)), s.exploits,
      AbsorbAll(MergeVictim, s.victims, VictimEntries(arrivals)),
      AbsorbAll(MergeIndicator, s.indicators, IndicatorEntries(arrivals)))
  {
    hide Absorb, VulnerabilityEntry, VictimEntry, IndicatorEntry;
    if arrivals != [] {
      var front, a := arrivals[..|arrivals| - 1], arrivals[|arrivals| - 1];
      IngestByKind(s, front);
      match a.record.payload
      case CvePayload(_, _, _, _, _, _) =>
        AbsorbAllPush(MergeVulnerability, s.vulnerabilities, VulnerabilityEntries(front), VulnerabilityEntry(a));
      case VictimPayload(_, _, _, _, _) =>
        AbsorbAllPush(MergeVictim, s.victims, VictimEntries(front), VictimEntry(a));
      case IndicatorPayload(_, _, _, _) =>
        AbsorbAllPush(MergeIndicator, s.indicators, IndicatorEntries(front), IndicatorEntry(a));
    }
  }

  lemma AlikeVulnerability(a: Arrival, b: Arrival)
    requires a.record == b.record && a.now == b.now && a.record.payload.CvePayload?
    ensures AlikeEntries(MergeVulnerability, VulnerabilityEntry(a), VulnerabilityEntry(b))
  {
    hide MergeVulnerability, SeverityFromCvss, Extend;
  }

  lemma AlikeVictim(a: Arrival, b: Arrival)
    requires a.record == b.record && a.record.payload.VictimPayload?
    ensures AlikeEntries(MergeVictim, VictimEntry(a), VictimEntry(b))
  {
    hide Extend;
  }

  lemma AlikeIndicator(a: Arrival, b: Arrival)
    requires a.record == b.record && a.now == b.now && a.record.payload.IndicatorPayload?
    ensures AlikeEntries(MergeIndicator, IndicatorEntry(a), IndicatorEntry(b))
  {
    hide MergeIndicator, Extend;
  }

  lemma {:induction false} EntriesAlike(a: seq<Arrival>, b: seq<Arrival>)
    requires NoExploits(a) && SameRecords(a, b) && SameTimes(a, b)
    ensures Alike(MergeVulnerability, VulnerabilityEntries(a), VulnerabilityEntries(b))
    ensures Alike(MergeVictim, VictimEntries(a), VictimEntries(b))
    ensures Alike(MergeIndicator, IndicatorEntries(a), IndicatorEntries(b))
  {
    hide AlikeEntries, VulnerabilityEntry, VictimEntry, IndicatorEntry;
    if a != [] {
      var n := |a| - 1;
      EntriesAlike(a[..n], b[..n]);
      match a[n].record.payload
      case CvePayload(_, _, _, _, _, _) => AlikeVulnerability(a[n], b[n]);
      case VictimPayload(_, _, _, _, _) => AlikeVictim(a[n], b[n]);
      case IndicatorPayload(_, _, _, _) => AlikeIndicator(a[n], b[n]);
    }
  }

  lemma {:induction false} IngestConcat(s: Store, a: seq<Arrival>, b: seq<Arrival>)
    ensures IngestAll(s, a + b) == IngestAll(IngestAll(s, a), b)
  {
    hide Ingest;
    if b == [] {
      assert a + b == a;
    } else {
      assert (a + b)[..|a + b| - 1] == a + b[..|b| - 1];
      IngestConcat(s, a, b[..|b| - 1]);
    }
  }

  lemma AgainIsOnce<K(!new), R(!new)>(
      merge: (R, R) -> R, store: map<K, R>, first: seq<Entry<K, R>>, again: seq<Entry<K, R>>)
    requires Associative(merge) && Idempotent(merge) && Alike(merge, first, again)
    ensures AbsorbAll(merge, AbsorbAll(merge, store, first), again) == AbsorbAll(merge, store, first)
  {
    hide AbsorbAll, Associative, Idempotent, Alike;
    RerunIsOnce(merge, store, first, again, []);
    assert again + [] == again && first + [] == first;
  }

  lemma ReplayAtSameTimes(s: Store, first: seq<Arrival>, again: seq<Arrival>)
    requires NoExploits(first) && SameRecords(first, again) && SameTimes(first, again)
    ensures IngestAll(IngestAll(s, first), again) == IngestAll(s, first)
  {
    hide AbsorbAll, Alike, Associative, Idempotent, VulnerabilityEntries, VictimEntries, IndicatorEntries, IngestAll;
    assert NoExploits(again);
    var once := IngestAll(s, first);
    IngestByKind(s, first);
    IngestByKind(once, again);
    EntriesAlike(first, again);
    VulnerabilitiesMerge();
    VictimsMerge();
    IndicatorsMerge();
    AgainIsOnce(MergeVulnerability, s.vulnerabilities, VulnerabilityEntries(first), VulnerabilityEntries(again));
    AgainIsOnce(MergeVictim, s.victims, VictimEntries(first), VictimEntries(again));
    AgainIsOnce(MergeIndicator, s.indicators, IndicatorEntries(first), IndicatorEntries(again));
  }

  // ---------------------------------------------------------------- stores that differ in sightings only

  predicate TwinVulnerabilities(v: Vulnerability, w: Vulnerability) {
    w == v.(lastSeen := w.lastSeen)
  }

  predicate TwinIndicators(i: Indicator, j: Indicator) {
    j == i.(lastSeen := j.lastSeen)
  }

  ghost predicate Twins(s: Store, t: Store) {
    && s.vulnerabilities.Keys == t.vulnerabilities.Keys && s.indicators.Keys == t.indicators.Keys
    && (forall k :: k in s.vulnerabilities ==> TwinVulnerabilities(s.vulnerabilities[k], t.vulnerabilities[k]))
    && (forall k :: k in s.indicators ==> TwinIndicators(s.indicators[k], t.indicators[k]))
    && s.exploits == t.exploits && s.victims == t.victims
  }

  lemma TwinIngest(s: Store, t: Store, a: Arrival, b: Arrival)
    requires Twins(s, t) && a.record == b.record && a.run == b.run
    ensures Twins(Ingest(s, a), Ingest(t, b))
  {
    hide Twins, Ingest;
    match a.record.payload
    case CvePayload(_, _, _, _, _, _) => TwinCve(s, t, a, b);
    case IndicatorPayload(_, _, _, _) => TwinIndicator(s, t, a, b);
    case ExploitPayload(_, _, _, _, _) => TwinExploit(s, t, a, b);
    case VictimPayload(_, _, _, _, _) => TwinVictim(s, t, a, b);
  }

  lemma TwinCve(s: Store, t: Store, a: Arrival, b: Arrival)
    requires Twins(s, t) && a.record == b.record && a.record.payload.CvePayload?
    ensures Twins(Ingest(s, a), Ingest(t, b))
  {
    hide Extend, Escalated, SeverityFromCvss, VulnerabilityEntry;
    SameDelta(a, b);
  }

  lemma TwinIndicator(s: Store, t: Store, a: Arrival, b: Arrival)
    requires Twins(s, t) && a.record == b.record && a.record.payload.IndicatorPayload?
    ensures Twins(Ingest(s, a), Ingest(t, b))
  {
    hide Extend, IndicatorEntry;
    SameDelta(a, b);
  }

  lemma TwinExploit(s: Store, t: Store, a: Arrival, b: Arrival)
    requires Twins(s, t) && a.record == b.record && a.run == b.run && a.record.payload.ExploitPayload?
    ensures Twins(Ingest(s, a), Ingest(t, b))
  {
    hide FirstKnown, UpdatedExploit;
    var cveIds := a.record.payload.cveIds;
    assert FirstKnown(s.vulnerabilities.Keys, cveIds) == FirstKnown(t.vulnerabilities.Keys, cveIds);
    SameUpdate(a, b);
  }

  lemma TwinVictim(s: Store, t: Store, a: Arrival, b: Arrival)
    requires Twins(s, t) && a.record == b.record && a.run == b.run && a.record.payload.VictimPayload?
    ensures Twins(Ingest(s, a), Ingest(t, b))
  {
    hide Extend, VictimEntry;
    SameVictimDelta(a, b);
  }

  lemma SameVictimDelta(a: Arrival, b: Arrival)
    requires a.record == b.record && a.run == b.run && a.record.payload.VictimPayload?
    ensures VictimEntry(a) == VictimEntry(b)
  {
  }

  lemma SameDelta(a: Arrival, b: Arrival)
    requires a.record == b.record
    ensures a.record.payload.CvePayload? ==>
      && VulnerabilityEntry(a).key == VulnerabilityEntry(b).key
      && TwinVulnerabilities(VulnerabilityEntry(a).row, VulnerabilityEntry(b).row)
    ensures a.record.payload.IndicatorPayload? ==>
      && IndicatorEntry(a).key == IndicatorEntry(b).key
      && TwinIndicators(IndicatorEntry(a).row, IndicatorEntry(b).row)
  {
  }

  lemma SameUpdate(a: Arrival, b: Arrival)
    requires a.record == b.record && a.run == b.run && a.record.payload.ExploitPayload?
    ensures forall e, linked :: UpdatedExploit(e, a, linked) == UpdatedExploit(e, b, linked)
  {
  }

  lemma {:induction false} TwinIngestAll(s: Store, t: Store, a: seq<Arrival>, b: seq<Arrival>)
    requires Twins(s, t) && SameRecords(a, b) && forall i :: 0 <= i < |a| ==> a[i].run == b[i].run
    ensures Twins(IngestAll(s, a), IngestAll(t, b))
  {
    hide Twins, Ingest;
    if a != [] {
      var n := |a| - 1;
      TwinIngestAll(s, t, a[..n], b[..n]);
      TwinIngest(IngestAll(s, a[..n]), IngestAll(t, b[..n]), a[n], b[n]);
    }
  }

  lemma SelfTwins(s: Store)
    ensures Twins(s, s)
  {
  }

  /** A replay at other times can leave other sightings, and nothing else. */
  lemma ReplayLeavesTwin(s: Store, first: seq<Arrival>, again: seq<Arrival>)
    requires NoExploits(first) && SameRecords(first, again)
    ensures Twins(IngestAll(IngestAll(s, first), again), IngestAll(s, first))
  {
    hide Twins, IngestAll, NoExploits;
    var once := IngestAll(s, first);
    var onTime := seq(|first|, i requires 0 <= i < |first| => again[i].(now := first[i].now));
    ReplayAtSameTimes(s, first, onTime);
    SelfTwins(once);
    TwinIngestAll(once, once, again, onTime);
  }

  /** The rows that carry the time they were last seen. */
  datatype Sighted = CveRow(id: string) | IndicatorRow(key: IndicatorKey)

  function RowSeen(r: Record): Option<Sighted> {
    match r.payload
    case CvePayload(cveId, _, _, _, _, _) => Some(CveRow(cveId))
    case IndicatorPayload(key, _, _, _) => Some(IndicatorRow(key))
    case _ => None
  }

  function LastSeen(s: Store, k: Sighted): Option<int> {
    match k
    case CveRow(id) => if id in s.vulnerabilities then Some(s.vulnerabilities[id].lastSeen) else None
    case IndicatorRow(key) => if key in s.indicators then Some(s.indicators[key].lastSeen) else None
  }

  lemma TwinsEqual(s: Store, t: Store)
    requires Twins(s, t) && forall k :: LastSeen(s, k) == LastSeen(t, k)
    ensures s == t
  {
    forall id | id in s.vulnerabilities ensures s.vulnerabilities[id] == t.vulnerabilities[id] {
      assert LastSeen(s, CveRow(id)) == LastSeen(t, CveRow(id));
    }
    forall key | key in s.indicators ensures s.indicators[key] == t.indicators[key] {
      assert LastSeen(s, IndicatorRow(key)) == LastSeen(t, IndicatorRow(key));
    }
    assert s.vulnerabilities == t.vulnerabilities && s.indicators == t.indicators;
  }

  /** When a stream last saw a row. */
  function LastSight(arrivals: seq<Arrival>, k: Sighted): Option<int> {
    if arrivals == [] then None else
      var a := arrivals[|arrivals| - 1];
      if RowSeen(a.record) == Some(k) then Some(SeenAt(a.record, a.now)) else LastSight(arrivals[..|arrivals| - 1], k)
  }

  function Or<T>(a: Option<T>, b: Option<T>): Option<T> {
    if a.Some? then a else b
  }

  lemma SeenAfter(s: Store, a: Arrival, k: Sighted)
    ensures LastSeen(Ingest(s, a), k) ==
      if RowSeen(a.record) == Some(k) then Some(SeenAt(a.record, a.now)) else LastSeen(s, k)
  {
    hide Extend, Escalated, SeverityFromCvss, UpdatedExploit, SeenAt;
  }

  lemma {:induction false} SeenAfterAll(s: Store, arrivals: seq<Arrival>, k: Sighted)
    ensures LastSeen(IngestAll(s, arrivals), k) == Or(LastSight(arrivals, k), LastSeen(s, k))
  {
    hide Ingest, LastSeen, RowSeen;
    if arrivals != [] {
      SeenAfterAll(s, arrivals[..|arrivals| - 1], k);
      SeenAfter(IngestAll(s, arrivals[..|arrivals| - 1]), arrivals[|arrivals| - 1], k);
    }
  }

  /** The last arrival of a stream that sees a row. */
  ghost predicate IsLastSight(arrivals: seq<Arrival>, i: nat) {
    && i < |arrivals| && RowSeen(arrivals[i].record).Some?
    && forall j :: i < j < |arrivals| ==> RowSeen(arrivals[j].record) != RowSeen(arrivals[i].record)
  }

  lemma {:induction false} LastSightAt(arrivals: seq<Arrival>, i: nat)
    requires IsLastSight(arrivals, i)
    ensures LastSight(arrivals, RowSeen(arrivals[i].record).value) == Some(SeenAt(arrivals[i].record, arrivals[i].now))
  {
    hide RowSeen, SeenAt;
    var n := |arrivals| - 1;
    if i < n {
      assert arrivals[..n][i] == arrivals[i];
      LastSightAt(arrivals[..n], i);
    }
  }

  lemma {:induction false} FindLastSight(arrivals: seq<Arrival>, k: Sighted) returns (i: nat)
    requires LastSight(arrivals, k).Some?
    ensures IsLastSight(arrivals, i) && RowSeen(arrivals[i].record) == Some(k)
  {
    hide RowSeen, SeenAt;
    var n := |arrivals| - 1;
    if RowSeen(arrivals[n].record) == Some(k) {
      i := n;
    } else {
      i := FindLastSight(arrivals[..n], k);
      assert arrivals[..n][i] == arrivals[i];
    }
  }

  lemma {:induction false} NoSight(arrivals: seq<Arrival>, k: Sighted)
    ensures LastSight(arrivals, k).None? <==> forall j :: 0 <= j < |arrivals| ==> RowSeen(arrivals[j].record) != Some(k)
  {
    hide RowSeen, SeenAt;
    if arrivals != [] {
      NoSight(arrivals[..|arrivals| - 1], k);
      assert forall j :: 0 <= j < |arrivals| - 1 ==> arrivals[..|arrivals| - 1][j] == arrivals[j];
    }
  }

  // ---------------------------------------------------------------- when a rerun leaves no trace

  /** The last record of every CVE and of every indicator, if it is a rerun one, says when it was observed, or is stored
      at the same time as before. Victims need nothing. */
  ghost predicate Traceless(done: seq<Arrival>, again: seq<Arrival>, rest: seq<Arrival>)
    requires SameRecords(done, again)
  {
    forall i :: 0 <= i < |done| && IsLastSight(done + rest, i) ==>
      done[i].record.observedAt.Some? || done[i].now == again[i].now
  }

  lemma LastOfBoth(done: seq<Arrival>, again: seq<Arrival>, rest: seq<Arrival>, i: nat)
    requires SameRecords(done, again) && i < |done|
    ensures IsLastSight(done + rest, i) <==>
      IsLastSight(done, i) && LastSight(rest, RowSeen(done[i].record).value).None?
    ensures IsLastSight(done, i) <==> IsLastSight(again, i)
  {
    hide RowSeen, SeenAt, LastSight;
    var all := done + rest;
    assert forall j :: 0 <= j < |done| ==> all[j] == done[j];
    assert forall j :: 0 <= j < |rest| ==> all[|done| + j] == rest[j];
    assert forall j :: |done| <= j < |all| ==> all[j] == rest[j - |done|];
    if RowSeen(done[i].record).Some? {
      NoSight(rest, RowSeen(done[i].record).value);
    }
  }

  lemma TracelessKeepsSights(done: seq<Arrival>, again: seq<Arrival>, rest: seq<Arrival>, k: Sighted)
    requires SameRecords(done, again) && Traceless(done, again, rest) && LastSight(rest, k).None?
    ensures LastSight(again, k).None? ==> LastSight(done, k).None?
    ensures LastSight(again, k).Some? ==> LastSight(again, k) == LastSight(done, k)
  {
    hide RowSeen, LastSight;
    NoSight(done, k);
    NoSight(again, k);
    if LastSight(again, k).Some? {
      var i := FindLastSight(done, k);
      LastOfBoth(done, again, rest, i);
      LastSightAt(done, i);
      LastSightAt(again, i);
    }
  }

  lemma {:induction false} SightConcat(a: seq<Arrival>, b: seq<Arrival>, k: Sighted)
    ensures LastSight(a + b, k) == Or(LastSight(b, k), LastSight(a, k))
  {
    hide RowSeen, SeenAt;
    if b == [] {
      assert a + b == a;
    } else {
      assert (a + b)[..|a + b| - 1] == a + b[..|b| - 1];
      SightConcat(a, b[..|b| - 1], k);
    }
  }

  /** A run that broke off and is started over ends where one unbroken run ends, whatever the rest brings, exactly when
      the rerun is traceless. */
  lemma RerunExactly(s: Store, done: seq<Arrival>, again: seq<Arrival>, rest: seq<Arrival>)
    requires NoExploits(done) && SameRecords(done, again)
    ensures IngestAll(IngestAll(s, done), again + rest) == IngestAll(s, done + rest) <==> Traceless(done, again, rest)
  {
    hide IngestAll, NoExploits, SameRecords, LastSight, LastSeen, Twins, Traceless, IsLastSight;
    var once := IngestAll(s, done);
    var twice, straight := IngestAll(once, again + rest), IngestAll(s, done + rest);
    IngestConcat(once, again, rest);
    IngestConcat(s, done, rest);
    ReplayLeavesTwin(s, done, again);
    SameAsItself(rest);
    TwinIngestAll(IngestAll(once, again), once, rest, rest);
    forall k ensures LastSeen(twice, k) == Or(LastSight(rest, k), Or(LastSight(again, k), LastSeen(once, k)))
      ensures LastSeen(straight, k) == Or(LastSight(rest, k), LastSeen(once, k))
      ensures LastSeen(once, k) == Or(LastSight(done, k), LastSeen(s, k))
    {
      SeenAfterAll(s, done, k);
      SeenAfterAll(once, again + rest, k);
      SightConcat(again, rest, k);
      SeenAfterAll(once, rest, k);
    }
    if Traceless(done, again, rest) {
      forall k ensures LastSeen(twice, k) == LastSeen(straight, k) {
        if LastSight(rest, k).None? {
          TracelessKeepsSights(done, again, rest, k);
        }
      }
      TwinsEqual(twice, straight);
    } else {
      var k := TraceShows(done, again, rest);
      assert LastSeen(twice, k) != LastSeen(straight, k);
    }
  }

  lemma SameAsItself(a: seq<Arrival>)
    ensures SameRecords(a, a)
  {
  }

  lemma TraceShows(done: seq<Arrival>, again: seq<Arrival>, rest: seq<Arrival>) returns (k: Sighted)
    requires SameRecords(done, again) && !Traceless(done, again, rest)
    ensures LastSight(rest, k).None? && LastSight(done, k).Some? && LastSight(again, k).Some?
    ensures LastSight(done, k) != LastSight(again, k)
  {
    hide RowSeen, LastSight;
    var i :| 0 <= i < |done| && IsLastSight(done + rest, i)
             && !(done[i].record.observedAt.Some? || done[i].now == again[i].now);
    LastOfBoth(done, again, rest, i);
    LastSightAt(done, i);
    LastSightAt(again, i);
    k := RowSeen(done[i].record).value;
  }

  /** Without exploits, ingesting the same records again changes nothing exactly when the replay is traceless. */
  lemma ReplayExactly(s: Store, first: seq<Arrival>, again: seq<Arrival>)
    requires NoExploits(first) && SameRecords(first, again)
    ensures IngestAll(IngestAll(s, first), again) == IngestAll(s, first) <==> Traceless(first, again, [])
  {
    hide IngestAll, NoExploits, Traceless;
    RerunExactly(s, first, again, []);
    assert again + [] == again && first + [] == first;
  }

  // ---------------------------------------------------------------- exploits

  lemma {:induction false} SourceRunAfter(s: Store, arrivals: seq<Arrival>, i: nat)
    requires i < |arrivals| && arrivals[i].record.payload.ExploitPayload?
    requires forall j :: i < j < |arrivals| ==> !arrivals[j].record.payload.ExploitPayload?
    ensures
      var key := ExploitKey(arrivals[i].record.source, arrivals[i].record.payload.externalId);
      key in IngestAll(s, arrivals).exploits && IngestAll(s, arrivals).exploits[key].sourceRun == arrivals[i].run
  {
    hide Absorb;
    var n := |arrivals| - 1;
    if i < n {
      assert arrivals[..n][i] == arrivals[i];
      SourceRunAfter(s, arrivals[..n], i);
    }
  }

  lemma {:induction false} LastExploit(arrivals: seq<Arrival>) returns (i: nat)
    requires !NoExploits(arrivals)
    ensures i < |arrivals| && arrivals[i].record.payload.ExploitPayload?
    ensures forall j :: i < j < |arrivals| ==> !arrivals[j].record.payload.ExploitPayload?
  {
    var n := |arrivals| - 1;
    if arrivals[n].record.payload.ExploitPayload? {
      i := n;
    } else {
      i := LastExploit(arrivals[..n]);
      assert arrivals[..n][i] == arrivals[i];
    }
  }

  /** Every exploit delivered again by another run shows that run. */
  lemma ExploitReplayIsVisible(s: Store, first: seq<Arrival>, again: seq<Arrival>)
    requires SameRecords(first, again) && !NoExploits(first)
    requires forall i :: 0 <= i < |first| ==> first[i].run != again[i].run
    ensures IngestAll(IngestAll(s, first), again) != IngestAll(s, first)
  {
    hide IngestAll;
    var i := LastExploit(first);
    assert first[i].record == again[i].record;
    SourceRunAfter(s, first, i);
    SourceRunAfter(IngestAll(s, first), again, i);
  }

  /** A replay by another run, of any stream onto any store, changes nothing exactly when it is traceless and brings no
      exploits. */
  lemma AnotherRunReplaysExactly(s: Store, first: seq<Arrival>, again: seq<Arrival>)
    requires SameRecords(first, again) && forall i :: 0 <= i < |first| ==> first[i].run != again[i].run
    ensures IngestAll(IngestAll(s, first), again) == IngestAll(s, first) <==>
      NoExploits(first) && Traceless(first, again, [])
  {
    hide IngestAll, NoExploits, Traceless;
    if NoExploits(first) {
      ReplayExactly(s, first, again);
    } else {
      ExploitReplayIsVisible(s, first, again);
    }
  }

  /** Even the same run moves exploits: one that was linked to the second of its CVEs moves to the first when that
      became known later in the stream. */
  lemma ReplayMovesExploit(second: Arrival, exploit: Arrival, first: Arrival)
    requires first.record.payload.CvePayload? && second.record.payload.CvePayload?
    requires first.record.payload.cveId != second.record.payload.cveId
    requires exploit.record.payload.ExploitPayload?
    requires exploit.record.payload.cveIds == [first.record.payload.cveId, second.record.payload.cveId]
    ensures
      var stream := [second, exploit, first];
      var once := IngestAll(EmptyStore(), stream);
      var key := ExploitKey(exploit.record.source, exploit.record.payload.externalId);
      && key in once.exploits && once.exploits[key].vulnerability == Some(second.record.payload.cveId)
      && key in IngestAll(once, stream).exploits
      && IngestAll(once, stream).exploits[key].vulnerability == Some(first.record.payload.cveId)
  {
    hide Extend, Escalated, SeverityFromCvss, MergeVulnerability;
    IngestThree(EmptyStore(), second, exploit, first);
    IngestThree(IngestAll(EmptyStore(), [second, exploit, first]), second, exploit, first);
    LinkTwo({second.record.payload.cveId}, exploit.record.payload.cveIds);
    LinkTwo({first.record.payload.cveId, second.record.payload.cveId}, exploit.record.payload.cveIds);
  }

  lemma IngestThree(s: Store, a: Arrival, b: Arrival, c: Arrival)
    ensures IngestAll(s, [a, b, c]) == Ingest(Ingest(Ingest(s, a), b), c)
  {
    hide Ingest;
    assert [a, b, c][..2] == [a, b] && [a, b][..1] == [a] && [a][..0] == [];
    assert IngestAll(s, [a]) == Ingest(IngestAll(s, []), a);
    assert IngestAll(s, [a, b]) == Ingest(IngestAll(s, [a]), b);
  }

  lemma LinkTwo(known: set<string>, ids: seq<string>)
    requires |ids| == 2
    ensures FirstKnown(known, ids) ==
      if ids[0] in known then Some(ids[0]) else if ids[1] in known then Some(ids[1]) else None
  {
  }
}
