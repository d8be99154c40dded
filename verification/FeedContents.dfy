/** What stored rows hold after any stream of feed records, whatever the feeds deliver: nothing known is erased,
    lists are unions, and maturity only escalates. */
module FeedContents {
  import opened Options
  import opened Sequences
  import opened OrderedUnion
  import opened FeedMerge

  // ---------------------------------------------------------------- what a row holds after any stream

  /** The last value the stream gives for a column of a CVE. */
  function LastGiven(arrivals: seq<Arrival>, k: string, c: VulnerabilityColumn): Option<string> {
    if arrivals == [] then None else
      var before, p := LastGiven(arrivals[..|arrivals| - 1], k, c), arrivals[|arrivals| - 1].record.payload;
      if p.CvePayload? && p.cveId == k && c in p.columns then Some(p.columns[c]) else before
  }

  function Stored(s: Store, k: string, c: VulnerabilityColumn): Option<string> {
    if k in s.vulnerabilities && c in s.vulnerabilities[k].columns then Some(s.vulnerabilities[k].columns[c]) else None
  }

  /** A column holds the last value any feed gave, and the one it held before if none did: a missing value never erases
      a known one. */
  lemma {:induction false} ColumnsAreLastGiven(s: Store, arrivals: seq<Arrival>, k: string, c: VulnerabilityColumn)
    ensures Stored(IngestAll(s, arrivals), k, c) ==
      if LastGiven(arrivals, k, c).Some? then LastGiven(arrivals, k, c) else Stored(s, k, c)
  {
    hide Extend, Escalated, SeverityFromCvss, FirstKnown, UpdatedExploit;
    if arrivals != [] {
      ColumnsAreLastGiven(s, arrivals[..|arrivals| - 1], k, c);
      ColumnAfter(IngestAll(s, arrivals[..|arrivals| - 1]), arrivals[|arrivals| - 1], k, c);
    }
  }

  lemma ColumnAfter(s: Store, a: Arrival, k: string, c: VulnerabilityColumn)
    ensures
      var p := a.record.payload;
      Stored(Ingest(s, a), k, c) ==
        if p.CvePayload? && p.cveId == k && c in p.columns then Some(p.columns[c]) else Stored(s, k, c)
  {
    hide Extend, Escalated, SeverityFromCvss, UpdatedExploit;
  }

  ghost predicate Rated(s: Store) {
    forall k :: k in s.vulnerabilities ==>
      s.vulnerabilities[k].severity == SeverityFromCvss(s.vulnerabilities[k].score)
  }

  lemma IngestStaysRated(s: Store, a: Arrival)
    requires Rated(s)
    ensures Rated(Ingest(s, a))
  {
    hide Extend, Escalated, UpdatedExploit;
    assert SeverityFromCvss(None) == None;
    hide SeverityFromCvss;
  }

  /** Severity is always the rating of the stored score. */
  lemma {:induction false} SeverityRatesScore(arrivals: seq<Arrival>)
    ensures Rated(IngestAll(EmptyStore(), arrivals))
  {
    hide Ingest;
    if arrivals != [] {
      SeverityRatesScore(arrivals[..|arrivals| - 1]);
      IngestStaysRated(IngestAll(EmptyStore(), arrivals[..|arrivals| - 1]), arrivals[|arrivals| - 1]);
    }
  }

  /** The rating is the qualitative scale of section 5 of the CVSS v3.1 specification, whose scores have one decimal. */
  lemma RatingFollowsScale(tenths: nat)
    requires tenths <= 100
    ensures
      SeverityFromCvss(Some(tenths as real / 10.0)) == Some(
        if tenths == 0 then "none" else if 1 <= tenths <= 39 then "low" else if 40 <= tenths <= 69 then "medium"
        else if 70 <= tenths <= 89 then "high" else "critical")
  {
    var score := tenths as real / 10.0;
    assert score * 10.0 == tenths as real;
  }

  /** How far an arrival lifts the maturity of a CVE: to what a record of it says, or to poc by an exploit linked
      to it. */
  function Lifts(s: Store, a: Arrival, k: string): nat {
    match a.record.payload
    case CvePayload(cveId, _, _, _, _, maturity) => if cveId == k && maturity.Some? then Rank(maturity.value) else 0
    case ExploitPayload(_, _, _, _, cveIds) =>
      if FirstKnown(s.vulnerabilities.Keys, cveIds) == Some(k) then Rank(Poc) else 0
    case _ => 0
  }

  function Max(a: nat, b: nat): nat {
    if a < b then b else a
  }

  function Highest(s: Store, arrivals: seq<Arrival>, k: string): nat {
    if arrivals == [] then 0 else
      var front := arrivals[..|arrivals| - 1];
      Max(Highest(s, front, k), Lifts(IngestAll(s, front), arrivals[|arrivals| - 1], k))
  }

  /** How far the maturity of a CVE has come; one that is not stored has not come anywhere. */
  function RankOf(s: Store, k: string): nat {
    if k in s.vulnerabilities then Rank(s.vulnerabilities[k].maturity) else 0
  }

  lemma MaturityAfter(s: Store, a: Arrival, k: string)
    ensures RankOf(Ingest(s, a), k) == Max(RankOf(s, k), Lifts(s, a, k))
  {
    hide Extend, SeverityFromCvss, UpdatedExploit, FirstKnown;
  }

  /** The maturity of a vulnerability, stored before or first met in the stream, is the highest that any CVE record or
      linked exploit has called for: it never decreases. */
  lemma {:induction false} MaturityIsHighest(s: Store, arrivals: seq<Arrival>, k: string)
    ensures RankOf(IngestAll(s, arrivals), k) == Max(RankOf(s, k), Highest(s, arrivals, k))
  {
    hide Ingest, RankOf, Lifts;
    if arrivals != [] {
      MaturityIsHighest(s, arrivals[..|arrivals| - 1], k);
      MaturityAfter(IngestAll(s, arrivals[..|arrivals| - 1]), arrivals[|arrivals| - 1], k);
    }
  }

  // ---------------------------------------------------------------- the other columns

  /** What is known of one CVE: the last score, whether any feed called it known-exploited, when it was first and last
      seen. */
  datatype Known = Known(score: Option<real>, isKev: bool, firstSeen: Option<int>, lastSeen: int)

  function KnownOf(s: Store, k: string): Option<Known> {
    if k !in s.vulnerabilities then None else
      var v := s.vulnerabilities[k];
      Some(Known(v.score, v.isKev, v.firstSeen, v.lastSeen))
  }

  /** What the records of the CVE make of it, with no table: the first one dates it, each one dates its last
      sighting, and scores replace scores. */
  function KnownAfter(before: Option<Known>, arrivals: seq<Arrival>, k: string): Option<Known> {
    if arrivals == [] then before else
      var known, a := KnownAfter(before, arrivals[..|arrivals| - 1], k), arrivals[|arrivals| - 1];
      var p, seen := a.record.payload, SeenAt(a.record, a.now);
      if !p.CvePayload? || p.cveId != k then known
      else if known.None? then Some(Known(p.score, p.isKev, a.record.observedAt, seen))
      else
        var score := if p.score.Some? then p.score else known.value.score;
        Some(Known(score, known.value.isKev || p.isKev, known.value.firstSeen, seen))
  }

  /** Score, known-exploited flag and sightings follow the records of that CVE alone, whether it was stored before or is
      first met in the stream. */
  lemma {:induction false} ScalarsFollowRecords(s: Store, arrivals: seq<Arrival>, k: string)
    ensures KnownOf(IngestAll(s, arrivals), k) == KnownAfter(KnownOf(s, k), arrivals, k)
  {
    hide Ingest, SeenAt, KnownOf;
    if arrivals != [] {
      var front, a := arrivals[..|arrivals| - 1], arrivals[|arrivals| - 1];
      ScalarsFollowRecords(s, front, k);
      KnownNext(IngestAll(s, front), a, k);
      assert [a][..0] == [];
      assert KnownAfter(KnownOf(IngestAll(s, front), k), [a], k) == KnownAfter(KnownOf(s, k), arrivals, k) by {
        assert [a][0] == a;
      }
    }
  }

  lemma KnownNext(s: Store, a: Arrival, k: string)
    ensures KnownOf(Ingest(s, a), k) == KnownAfter(KnownOf(s, k), [a], k)
  {
    hide Extend, Escalated, SeverityFromCvss, UpdatedExploit, FirstKnown;
    assert [a][..0] == [];
  }

  function LastVictimValue(arrivals: seq<Arrival>, k: VictimKey, c: VictimColumn): Option<string> {
    if arrivals == [] then None else
      var before, p := LastVictimValue(arrivals[..|arrivals| - 1], k, c), arrivals[|arrivals| - 1].record.payload;
      if p.VictimPayload? && p.victim == k && c in p.details then Some(p.details[c]) else before
  }

  function StoredVictimValue(s: Store, k: VictimKey, c: VictimColumn): Option<string> {
    if k in s.victims && c in s.victims[k].columns then Some(s.victims[k].columns[c]) else None
  }

  /** Victim columns hold the last value given, too. */
  lemma {:induction false} VictimColumnsAreLastGiven(s: Store, arrivals: seq<Arrival>, k: VictimKey, c: VictimColumn)
    ensures StoredVictimValue(IngestAll(s, arrivals), k, c) ==
      if LastVictimValue(arrivals, k, c).Some? then LastVictimValue(arrivals, k, c) else StoredVictimValue(s, k, c)
  {
    hide Extend, Ingest;
    if arrivals != [] {
      VictimColumnsAreLastGiven(s, arrivals[..|arrivals| - 1], k, c);
      VictimColumnAfter(IngestAll(s, arrivals[..|arrivals| - 1]), arrivals[|arrivals| - 1], k, c);
    }
  }

  lemma VictimColumnAfter(s: Store, a: Arrival, k: VictimKey, c: VictimColumn)
    ensures
      var p := a.record.payload;
      StoredVictimValue(Ingest(s, a), k, c) ==
        if p.VictimPayload? && p.victim == k && c in p.details then Some(p.details[c]) else StoredVictimValue(s, k, c)
  {
    hide Extend;
  }

  function LastVerdict(arrivals: seq<Arrival>, k: IndicatorKey): Option<string> {
    if arrivals == [] then None else
      var before, p := LastVerdict(arrivals[..|arrivals| - 1], k), arrivals[|arrivals| - 1].record.payload;
      if p.IndicatorPayload? && p.indicator == k && p.verdict.Some? then p.verdict else before
  }

  function StoredVerdict(s: Store, k: IndicatorKey): Option<string> {
    if k in s.indicators then s.indicators[k].verdict else None
  }

  /** The verdict on an indicator is the last one given. */
  lemma {:induction false} VerdictIsLastGiven(s: Store, arrivals: seq<Arrival>, k: IndicatorKey)
    ensures StoredVerdict(IngestAll(s, arrivals), k) ==
      if LastVerdict(arrivals, k).Some? then LastVerdict(arrivals, k) else StoredVerdict(s, k)
  {
    hide Extend, Ingest;
    if arrivals != [] {
      VerdictIsLastGiven(s, arrivals[..|arrivals| - 1], k);
      VerdictAfter(IngestAll(s, arrivals[..|arrivals| - 1]), arrivals[|arrivals| - 1], k);
    }
  }

  lemma VerdictAfter(s: Store, a: Arrival, k: IndicatorKey)
    ensures
      var p := a.record.payload;
      StoredVerdict(Ingest(s, a), k) ==
        if p.IndicatorPayload? && p.indicator == k && p.verdict.Some? then p.verdict else StoredVerdict(s, k)
  {
    hide Extend;
  }

  // ---------------------------------------------------------------- lists

  /** The list columns of all rows. */
  datatype ListColumn =
    | CveSources(cveId: string)
    | Cpes(cveId: string)
    | VictimSources(victim: VictimKey)
    | RawNames(victim: VictimKey)
    | IndicatorSources(indicator: IndicatorKey)
    | Tags(indicator: IndicatorKey)

  function ListOf(s: Store, c: ListColumn): seq<string> {
    match c
    case CveSources(k) => if k in s.vulnerabilities then s.vulnerabilities[k].sources else []
    case Cpes(k) => if k in s.vulnerabilities then s.vulnerabilities[k].cpes else []
    case VictimSources(k) => if k in s.victims then s.victims[k].sources else []
    case RawNames(k) => if k in s.victims then s.victims[k].rawNames else []
    case IndicatorSources(k) => if k in s.indicators then s.indicators[k].sources else []
    case Tags(k) => if k in s.indicators then s.indicators[k].tags else []
  }

  /** What one arrival gives to a list. */
  function Gives(a: Arrival, c: ListColumn): seq<string> {
    match a.record.payload
    case CvePayload(k, _, _, _, cpes, _) =>
      if c == CveSources(k) then [a.record.source] else if c == Cpes(k) then cpes else []
    case VictimPayload(k, _, _, names, _) =>
      if c == VictimSources(k) then [a.record.source] else if c == RawNames(k) then names else []
    case IndicatorPayload(k, _, _, tags) =>
      if c == IndicatorSources(k) then [a.record.source] else if c == Tags(k) then tags else []
    case ExploitPayload(_, _, _, _, _) => []
  }

  function AllGiven(arrivals: seq<Arrival>, c: ListColumn): seq<string> {
    if arrivals == [] then [] else
      AllGiven(arrivals[..|arrivals| - 1], c) + Gives(arrivals[|arrivals| - 1], c)
  }

  lemma OneSource(source: string)
    ensures Extend([], [source]) == [source]
  {
    ExtendPush([], [], source);
    assert [] + [source] == [source];
  }

  lemma ExtendTwice(a: seq<string>, b: seq<string>)
    ensures Extend(a, Extend([], b)) == Extend(a, b) && Extend(a, []) == a
  {
    ExtendAssociative(a, [], b);
  }

  lemma ListAfterCve(s: Store, a: Arrival, c: ListColumn)
    requires a.record.payload.CvePayload?
    ensures ListOf(Ingest(s, a), c) == Extend(ListOf(s, c), Gives(a, c))
  {
    hide Extend, Escalated, SeverityFromCvss;
    OneSource(a.record.source);
    ExtendTwice(ListOf(s, c), a.record.payload.cpes);
  }

  lemma ListAfterVictim(s: Store, a: Arrival, c: ListColumn)
    requires a.record.payload.VictimPayload?
    ensures ListOf(Ingest(s, a), c) == Extend(ListOf(s, c), Gives(a, c))
  {
    hide Extend;
    OneSource(a.record.source);
    ExtendTwice(ListOf(s, c), a.record.payload.rawNames);
  }

  lemma ListAfterIndicator(s: Store, a: Arrival, c: ListColumn)
    requires a.record.payload.IndicatorPayload?
    ensures ListOf(Ingest(s, a), c) == Extend(ListOf(s, c), Gives(a, c))
  {
    hide Extend;
    OneSource(a.record.source);
    ExtendTwice(ListOf(s, c), a.record.payload.tags);
  }

  lemma ListAfterExploit(s: Store, a: Arrival, c: ListColumn)
    requires a.record.payload.ExploitPayload?
    ensures ListOf(Ingest(s, a), c) == Extend(ListOf(s, c), Gives(a, c))
  {
    hide Extend, UpdatedExploit, FirstKnown;
    ExtendTwice(ListOf(s, c), []);
  }

  lemma ListAfter(s: Store, a: Arrival, c: ListColumn)
    ensures ListOf(Ingest(s, a), c) == Extend(ListOf(s, c), Gives(a, c))
  {
    hide Ingest, ListOf, Gives, Extend;
    match a.record.payload
    case CvePayload(_, _, _, _, _, _) => ListAfterCve(s, a, c);
    case VictimPayload(_, _, _, _, _) => ListAfterVictim(s, a, c);
    case IndicatorPayload(_, _, _, _) => ListAfterIndicator(s, a, c);
    case ExploitPayload(_, _, _, _, _) => ListAfterExploit(s, a, c);
  }

  /** Each list is the stored one extended by all that the stream gives to it, in order and without repetition. */
  lemma {:induction false} ListsAreOrderedUnions(s: Store, arrivals: seq<Arrival>, c: ListColumn)
    ensures ListOf(IngestAll(s, arrivals), c) == Extend(ListOf(s, c), AllGiven(arrivals, c))
  {
    hide Ingest, ListOf, Gives, Extend;
    if arrivals == [] {
      ExtendTwice(ListOf(s, c), []);
    } else {
      var front, a := arrivals[..|arrivals| - 1], arrivals[|arrivals| - 1];
      ListsAreOrderedUnions(s, front, c);
      ListAfter(IngestAll(s, front), a, c);
      ExtendConcat(ListOf(s, c), AllGiven(front, c), Gives(a, c));
    }
  }

  lemma {:induction false} GivenExactly(arrivals: seq<Arrival>, c: ListColumn, x: string)
    ensures x in AllGiven(arrivals, c) <==> exists i :: 0 <= i < |arrivals| && x in Gives(arrivals[i], c)
  {
    hide Gives;
    if arrivals != [] {
      var front := arrivals[..|arrivals| - 1];
      GivenExactly(front, c, x);
      assert forall i :: 0 <= i < |front| ==> front[i] == arrivals[i];
    }
  }

  /** So every list holds what it held, in its order, and whatever any record since gave to it, nothing twice. */
  lemma ListsAreUnions(s: Store, arrivals: seq<Arrival>, c: ListColumn, x: string)
    ensures x in ListOf(IngestAll(s, arrivals), c) <==>
      x in ListOf(s, c) || exists i :: 0 <= i < |arrivals| && x in Gives(arrivals[i], c)
    ensures ListOf(s, c) <= ListOf(IngestAll(s, arrivals), c)
    ensures Distinct(ListOf(s, c)) ==> Distinct(ListOf(IngestAll(s, arrivals), c))
  {
    hide ListOf, Gives, IngestAll, AllGiven, Extend, Distinct;
    ListsAreOrderedUnions(s, arrivals, c);
    ExtendElements(ListOf(s, c), AllGiven(arrivals, c));
    GivenExactly(arrivals, c, x);
  }
}
