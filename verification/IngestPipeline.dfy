/** The ingest pipeline as it runs: rows are looked up and updated field by field, runs count what they see. */
module IngestPipeline {
  import opened Options
  import opened Sequences
  import opened OrderedUnion
  import opened FeedMerge

  datatype RunStatus = Success | Partial | Failed

  datatype RunSummary =
    RunSummary(status: RunStatus, fetched: nat, ingested: nat, quarantined: nat, error: Option<string>)

  datatype FetchResult = Fetched(arrival: Arrival) | Quarantine(source: string, reason: string)

  function Arrivals(results: seq<FetchResult>): seq<Arrival> {
    if results == [] then [] else
      var before, r := Arrivals(results[..|results| - 1]), results[|results| - 1];
      if r.Fetched? then before + [r.arrival] else before
  }

  /** Removes repetitions, keeping the first of each. */
  method FromKeys(s: seq<string>) returns (u: seq<string>)
    ensures u == Extend([], s)
  {
    u := [];
    var i := 0;
    while i < |s|
      invariant 0 <= i <= |s| && u == Extend([], s[..i])
    {
      ExtendPush([], s[..i], s[i]);
      assert s[..i + 1] == s[..i] + [s[i]];
      if s[i] !in u {
        u := u + [s[i]];
      }
      i := i + 1;
    }
    assert s[..i] == s;
  }

  method MergeLists(existing: seq<string>, given: seq<string>) returns (merged: seq<string>)
    requires Distinct(existing)
    ensures merged == Extend(existing, Extend([], given))
  {
    hide Extend, Distinct;
    ExtendFromNothing(existing, given);
    ExtendAssociative(existing, [], given);
    ExtendNothing(existing);
    merged := FromKeys(existing + given);
  }

  lemma ExtendNothing(s: seq<string>)
    ensures Extend(s, []) == s
  {
  }

  lemma ExtendByOne(s: seq<string>, x: string)
    ensures Extend(s, [x]) == if x in s then s else s + [x]
  {
    ExtendPush(s, [], x);
    assert [] + [x] == [x];
  }

  /** Appends a source that is not there yet. */
  method MergeSources(existing: seq<string>, source: string) returns (current: seq<string>)
    ensures current == Extend(existing, [source])
  {
    ExtendByOne(existing, source);
    current := existing;
    if source !in current {
      current := current + [source];
    }
  }

  // ---------------------------------------------------------------- rows before their first record

  function BlankVulnerability(a: Arrival): Vulnerability {
    Vulnerability(map[], None, None, false, [], Unknown, [], a.record.observedAt, 0)
  }

  function BlankVictim(displayName: string, run: string): Victim {
    Victim(displayName, run, map[], [], false, [])
  }

  function BlankIndicator(firstSeen: Option<int>): Indicator {
    Indicator(firstSeen, None, [], [], 0)
  }

  lemma BlankMergesToRecord(a: Arrival)
    ensures a.record.payload.CvePayload? ==>
      MergeVulnerability(BlankVulnerability(a), VulnerabilityEntry(a).row) == VulnerabilityEntry(a).row
    ensures a.record.payload.VictimPayload? ==>
      MergeVictim(BlankVictim(a.record.payload.displayName, a.run), VictimEntry(a).row) == VictimEntry(a).row
    ensures a.record.payload.IndicatorPayload? ==>
      MergeIndicator(BlankIndicator(a.record.payload.firstSeen), IndicatorEntry(a).row) == IndicatorEntry(a).row
  {
    hide Extend;
    ExtendByOne([], a.record.source);
    match a.record.payload
    case CvePayload(_, columns, _, _, cpes, _) =>
      BlankList(cpes);
      assert map[] + columns == columns;
    case VictimPayload(_, _, details, rawNames, _) =>
      BlankList(rawNames);
      assert map[] + details == details;
    case IndicatorPayload(_, _, _, tags) => BlankList(tags);
    case ExploitPayload(_, _, _, _, _) =>
  }

  lemma BlankList(given: seq<string>)
    ensures Extend([], Extend([], given)) == Extend([], given)
  {
    ExtendAssociative([], [], given);
  }

  lemma NothingIsDistinct()
    ensures Distinct<string>([])
  {
  }

  class Pipeline {
    var vulnerabilities: map<string, Vulnerability>
    var exploits: map<ExploitKey, Exploit>
    var victims: map<VictimKey, Victim>
    var indicators: map<IndicatorKey, Indicator>
    var quarantine: seq<FetchResult>
    var runs: map<string, RunSummary>

    function Contents(): Store
      reads this
    {
      Store(vulnerabilities, exploits, victims, indicators)
    }

    ghost predicate Valid()
      reads this
    {
      Tidy(Contents())
    }

    constructor ()
      ensures Valid() && Contents() == EmptyStore() && quarantine == [] && runs == map[]
    {
      vulnerabilities, exploits, victims, indicators := map[], map[], map[], map[];
      quarantine, runs := [], map[];
    }

    method UpsertVulnerability(a: Arrival)
      requires Valid() && a.record.payload.CvePayload?
      modifies this`vulnerabilities
      ensures Contents() == Ingest(old(Contents()), a)
    {
      hide Rank, SeverityFromCvss, Extend, Distinct;
      var p := a.record.payload;
      BlankMergesToRecord(a);
      NothingIsDistinct();
      var vuln := if p.cveId in vulnerabilities then vulnerabilities[p.cveId] else BlankVulnerability(a);
      ghost var start := vuln;
      forall c | c in p.columns ensures c in VULNERABILITY_COLUMNS {
        IsVulnerabilityColumn(c);
      }
      var columns := SetColumns(vuln.columns, VULNERABILITY_COLUMNS, p.columns);
      vuln := vuln.(columns := columns);
      if p.score.Some? {
        vuln := vuln.(score := p.score, severity := SeverityFromCvss(p.score));
      }
      if p.isKev {
        vuln := vuln.(isKev := true);
      }
      if p.cpes != [] {
        var cpes := MergeLists(vuln.cpes, p.cpes);
        vuln := vuln.(cpes := cpes);
      } else {
        ExtendNothing([]);
        ExtendNothing(vuln.cpes);
      }
      EscalatedFromUnknown(vuln.maturity);
      if p.maturity.Some? && Rank(p.maturity.value) > Rank(vuln.maturity) {
        vuln := vuln.(maturity := p.maturity.value);
      }
      var sources := MergeSources(vuln.sources, a.record.source);
      vuln := vuln.(sources := sources, lastSeen := SeenAt(a.record, a.now));
      assert vuln == MergeVulnerability(start, VulnerabilityEntry(a).row);
      vulnerabilities := vulnerabilities[p.cveId := vuln];
    }

    method UpsertExploit(a: Arrival)
      requires a.record.payload.ExploitPayload?
      modifies this`vulnerabilities, this`exploits
      ensures Contents() == Ingest(old(Contents()), a)
    {
      hide StandsFirst;
      var p := a.record.payload;
      var key := ExploitKey(a.record.source, p.externalId);
      var exploit := if key in exploits then exploits[key] else NewExploit();
      exploit := exploit.(texts := exploit.texts + p.texts);
      if p.stars.Some? {
        exploit := exploit.(stars := p.stars.value);
      }
      if p.confidence.Some? {
        exploit := exploit.(confidence := p.confidence);
      }
      exploit := exploit.(sourceRun := a.run);
      var i := 0;
      while i < |p.cveIds| && p.cveIds[i] !in vulnerabilities
        invariant 0 <= i <= |p.cveIds|
        invariant FirstKnown(vulnerabilities.Keys, p.cveIds) == FirstKnown(vulnerabilities.Keys, p.cveIds[i..])
      {
        i := i + 1;
      }
      if i < |p.cveIds| {
        var vuln := vulnerabilities[p.cveIds[i]];
        exploit := exploit.(vulnerability := Some(p.cveIds[i]));
        if vuln.maturity in {Unknown, NoExploit} {
          vuln := vuln.(maturity := Poc);
        }
        vulnerabilities := vulnerabilities[p.cveIds[i] := vuln];
      }
      exploits := exploits[key := exploit];
    }

    method UpsertVictim(a: Arrival)
      requires Valid() && a.record.payload.VictimPayload?
      modifies this`victims
      ensures Contents() == Ingest(old(Contents()), a)
    {
      hide Extend, Distinct;
      var p := a.record.payload;
      BlankMergesToRecord(a);
      NothingIsDistinct();
      var victim := if p.victim in victims then victims[p.victim] else BlankVictim(p.displayName, a.run);
      ghost var start := victim;
      forall c | c in p.details ensures c in VICTIM_COLUMNS {
        IsVictimColumn(c);
      }
      var columns := SetColumns(victim.columns, VICTIM_COLUMNS, p.details);
      var rawNames := MergeLists(victim.rawNames, p.rawNames);
      var sources := MergeSources(victim.sources, a.record.source);
      victim := victim.(columns := columns, rawNames := rawNames, sources := sources);
      victim := victim.(needsReview := victim.needsReview || p.needsReview);
      assert victim == MergeVictim(start, VictimEntry(a).row);
      victims := victims[p.victim := victim];
    }

    method UpsertIndicator(a: Arrival)
      requires Valid() && a.record.payload.IndicatorPayload?
      modifies this`indicators
      ensures Contents() == Ingest(old(Contents()), a)
    {
      hide Extend, Distinct;
      var p := a.record.payload;
      BlankMergesToRecord(a);
      NothingIsDistinct();
      var indicator := if p.indicator in indicators then indicators[p.indicator] else BlankIndicator(p.firstSeen);
      ghost var start := indicator;
      if p.verdict.Some? {
        indicator := indicator.(verdict := p.verdict);
      }
      if p.tags != [] {
        var tags := MergeLists(indicator.tags, p.tags);
        indicator := indicator.(tags := tags);
      } else {
        ExtendNothing([]);
        ExtendNothing(indicator.tags);
      }
      var sources := MergeSources(indicator.sources, a.record.source);
      indicator := indicator.(sources := sources, lastSeen := SeenAt(a.record, a.now));
      assert indicator == MergeIndicator(start, IndicatorEntry(a).row);
      indicators := indicators[p.indicator := indicator];
    }

    method Persist(a: Arrival)
      requires Valid()
      modifies this`vulnerabilities, this`exploits, this`victims, this`indicators
      ensures Valid() && Contents() == Ingest(old(Contents()), a)
    {
      hide Ingest, Tidy;
      IngestStaysTidy(Contents(), a);
      match a.record.payload
      case CvePayload(_, _, _, _, _, _) => UpsertVulnerability(a);
      case ExploitPayload(_, _, _, _, _) => UpsertExploit(a);
      case VictimPayload(_, _, _, _, _) => UpsertVictim(a);
      case IndicatorPayload(_, _, _, _) => UpsertIndicator(a);
    }

    /** One run over what a connector yields, which may break off with an error. */
    method Run(run: string, enabled: bool, results: seq<FetchResult>, error: Option<string>)
      returns (summary: RunSummary)
      requires Valid()
      modifies this
      ensures Valid() && runs == old(runs)[run := summary]
      ensures Contents() == if enabled then IngestAll(old(Contents()), Arrivals(results)) else old(Contents())
      ensures summary.fetched == summary.ingested + summary.quarantined
      ensures summary.fetched == (if enabled then |results| else 0)
      ensures summary.ingested == (if enabled then |Arrivals(results)| else 0)
      ensures summary.status.Failed? <==> !enabled || error.Some?
      ensures summary.status.Partial? <==> enabled && error.None? && |Arrivals(results)| < |results|
      ensures |quarantine| == |old(quarantine)| + summary.quarantined
    {
      hide Ingest, Tidy;
      summary := RunSummary(Success, 0, 0, 0, None);
      if !enabled {
        summary := summary.(status := Failed, error := Some("connector is not configured"));
      } else {
        ghost var before := Contents();
        var i := 0;
        while i < |results|
          invariant 0 <= i <= |results| && Valid() && runs == old(runs)
          invariant Contents() == IngestAll(before, Arrivals(results[..i]))
          invariant summary.fetched == i == summary.ingested + summary.quarantined
          invariant summary.ingested == |Arrivals(results[..i])|
          invariant |quarantine| == |old(quarantine)| + summary.quarantined
        {
          ArrivalsPush(before, results[..i], results[i]);
          assert results[..i + 1] == results[..i] + [results[i]];
          summary := summary.(fetched := summary.fetched + 1);
          if results[i].Quarantine? {
            summary := summary.(quarantined := summary.quarantined + 1);
            quarantine := quarantine + [results[i]];
          } else {
            Persist(results[i].arrival);
            summary := summary.(ingested := summary.ingested + 1);
          }
          i := i + 1;
        }
        assert results[..i] == results;
        if error.Some? {
          summary := summary.(status := Failed, error := error);
        } else {
          summary := summary.(status := if summary.quarantined > 0 then Partial else Success);
        }
      }
      runs := runs[run := summary];
    }
  }

  lemma ArrivalsPush(s: Store, results: seq<FetchResult>, r: FetchResult)
    ensures Arrivals(results + [r]) == if r.Fetched? then Arrivals(results) + [r.arrival] else Arrivals(results)
    ensures IngestAll(s, Arrivals(results + [r])) ==
      if r.Fetched? then Ingest(IngestAll(s, Arrivals(results)), r.arrival) else IngestAll(s, Arrivals(results))
  {
    hide Ingest;
    assert (results + [r])[..|results|] == results;
    if r.Fetched? {
      assert (Arrivals(results) + [r.arrival])[..|Arrivals(results)|] == Arrivals(results);
    }
  }

  lemma EscalatedFromUnknown(m: Maturity)
    ensures Escalated(m, Unknown) == m
  {
  }

  /** Sets each listed column that the payload gives, and leaves the others alone. */
  method SetColumns<C(==)>(row: map<C, string>, all: seq<C>, given: map<C, string>) returns (columns: map<C, string>)
    requires forall c :: c in given ==> c in all
    ensures columns == row + given
  {
    columns := row;
    var i := 0;
    while i < |all|
      invariant 0 <= i <= |all|
      invariant forall c :: c in columns <==> c in row || (c in given && c in all[..i])
      invariant forall c :: c in columns ==> columns[c] == if c in given && c in all[..i] then given[c] else row[c]
    {
      assert all[..i + 1] == all[..i] + [all[i]];
      if all[i] in given {
        columns := columns[all[i] := given[all[i]]];
      }
      i := i + 1;
    }
    assert all[..i] == all;
  }

  lemma IsVulnerabilityColumn(c: VulnerabilityColumn)
    ensures c in VULNERABILITY_COLUMNS
  {
    var all := VULNERABILITY_COLUMNS;
    match c
    case Title => assert all[0] == c;
    case Description => assert all[1] == c;
    case CvssVector => assert all[2] == c;
    case Vendor => assert all[3] == c;
    case Product => assert all[4] == c;
    case PublishedAt => assert all[5] == c;
    case LastModifiedAt => assert all[6] == c;
    case KevAddedAt => assert all[7] == c;
    case KevDueAt => assert all[8] == c;
  }

  lemma IsVictimColumn(c: VictimColumn)
    ensures c in VICTIM_COLUMNS
  {
    var all := VICTIM_COLUMNS;
    match c
    case Domain => assert all[0] == c;
    case Country => assert all[1] == c;
    case Sector => assert all[2] == c;
    case Website => assert all[3] == c;
    case ScreenshotUrl => assert all[4] == c;
    case DisclosureStatus => assert all[5] == c;
  }

  lemma SourceIsDistinct(source: string)
    ensures Distinct([source])
  {
  }

  lemma VulnerabilityStaysTidy(a: Arrival)
    requires a.record.payload.CvePayload?
    ensures TidyVulnerability(VulnerabilityEntry(a).row)
    ensures forall v :: TidyVulnerability(v) ==> TidyVulnerability(MergeVulnerability(v, VulnerabilityEntry(a).row))
  {
    hide Distinct, Extend;
    NothingIsDistinct();
    SourceIsDistinct(a.record.source);
    var d := VulnerabilityEntry(a).row;
    ExtendElements([], a.record.payload.cpes);
    forall v | TidyVulnerability(v) ensures TidyVulnerability(MergeVulnerability(v, d)) {
      ExtendElements(v.cpes, d.cpes);
      ExtendElements(v.sources, d.sources);
    }
  }

  lemma VictimStaysTidy(a: Arrival)
    requires a.record.payload.VictimPayload?
    ensures TidyVictim(VictimEntry(a).row)
    ensures forall v :: TidyVictim(v) ==> TidyVictim(MergeVictim(v, VictimEntry(a).row))
  {
    hide Distinct, Extend;
    NothingIsDistinct();
    SourceIsDistinct(a.record.source);
    var d := VictimEntry(a).row;
    ExtendElements([], a.record.payload.rawNames);
    forall v | TidyVictim(v) ensures TidyVictim(MergeVictim(v, d)) {
      ExtendElements(v.rawNames, d.rawNames);
      ExtendElements(v.sources, d.sources);
    }
  }

  lemma IndicatorStaysTidy(a: Arrival)
    requires a.record.payload.IndicatorPayload?
    ensures TidyIndicator(IndicatorEntry(a).row)
    ensures forall i :: TidyIndicator(i) ==> TidyIndicator(MergeIndicator(i, IndicatorEntry(a).row))
  {
    hide Distinct, Extend;
    NothingIsDistinct();
    SourceIsDistinct(a.record.source);
    var d := IndicatorEntry(a).row;
    ExtendElements([], a.record.payload.tags);
    forall i | TidyIndicator(i) ensures TidyIndicator(MergeIndicator(i, d)) {
      ExtendElements(i.tags, d.tags);
      ExtendElements(i.sources, d.sources);
    }
  }

  /** Lists stay free of repetition, whatever the feeds repeat. */
  lemma IngestStaysTidy(s: Store, a: Arrival)
    requires Tidy(s)
    ensures Tidy(Ingest(s, a))
  {
    hide TidyVictim, TidyIndicator, VulnerabilityEntry, VictimEntry, IndicatorEntry;
    hide MergeVulnerability, MergeVictim, MergeIndicator, Distinct;
    match a.record.payload
    case CvePayload(_, _, _, _, _, _) => VulnerabilityStaysTidy(a);
    case VictimPayload(_, _, _, _, _) => VictimStaysTidy(a);
    case IndicatorPayload(_, _, _, _) => IndicatorStaysTidy(a);
    case ExploitPayload(_, _, _, _, _) =>
  }
}
