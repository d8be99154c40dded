/** Merging normalised feed records into stored rows (app/ingest/pipeline.py). A record is read as a row of its own, and
    storing it is merging that row into the stored one. */
module FeedMerge {
  import opened Options
  import opened Sequences
  import opened OrderedUnion
  import opened Replay

  datatype Maturity = Unknown | NoExploit | Poc | Functional | Weaponized

  function Rank(m: Maturity): nat {
    match m
    case Unknown => 0
    case NoExploit => 1
    case Poc => 2
    case Functional => 3
    case Weaponized => 4
  }

  function Escalated(m: Maturity, incoming: Maturity): Maturity {
    if Rank(incoming) > Rank(m) then incoming else m
  }

  function SeverityFromCvss(score: Option<real>): Option<string> {
    if score.None? then None
    else if score.value == 0.0 then Some("none")
    else if score.value < 4.0 then Some("low")
    else if score.value < 7.0 then Some("medium")
    else if score.value < 9.0 then Some("high")
    else Some("critical")
  }

  // ---------------------------------------------------------------- rows

  datatype VulnerabilityColumn =
    Title | Description | CvssVector | Vendor | Product | PublishedAt | LastModifiedAt | KevAddedAt | KevDueAt

  const VULNERABILITY_COLUMNS :=
    [Title, Description, CvssVector, Vendor, Product, PublishedAt, LastModifiedAt, KevAddedAt, KevDueAt]

  datatype Vulnerability = Vulnerability(
    columns: map<VulnerabilityColumn, string>, score: Option<real>, severity: Option<string>, isKev: bool,
    cpes: seq<string>, maturity: Maturity, sources: seq<string>, firstSeen: Option<int>, lastSeen: int)

  datatype VictimColumn = Domain | Country | Sector | Website | ScreenshotUrl | DisclosureStatus

  const VICTIM_COLUMNS := [Domain, Country, Sector, Website, ScreenshotUrl, DisclosureStatus]

  datatype VictimKey = VictimKey(canonicalKey: string, group: string, discoveredAt: int)

  datatype Victim = Victim(
    displayName: string, sourceRun: string, columns: map<VictimColumn, string>, rawNames: seq<string>,
    needsReview: bool, sources: seq<string>)

  datatype IndicatorKey = IndicatorKey(kind: string, value: string)

  datatype Indicator = Indicator(
    firstSeen: Option<int>, verdict: Option<string>, tags: seq<string>, sources: seq<string>, lastSeen: int)

  datatype ExploitColumn = ExploitTitle | Url | Author | Platform | ExploitPublishedAt

  datatype ExploitKey = ExploitKey(source: string, externalId: string)

  datatype Exploit = Exploit(
    texts: map<ExploitColumn, string>, stars: Option<int>, confidence: Option<real>, sourceRun: string,
    vulnerability: Option<string>)

  // ---------------------------------------------------------------- records

  /** Absent columns and columns given as missing are the same; the texts of an exploit count only when not empty. */
  datatype Payload =
    | CvePayload(cveId: string, columns: map<VulnerabilityColumn, string>, score: Option<real>, isKev: bool,
                 cpes: seq<string>, maturity: Option<Maturity>)
    | ExploitPayload(externalId: string, texts: map<ExploitColumn, string>, stars: Option<Option<int>>,
                     confidence: Option<real>, cveIds: seq<string>)
    | VictimPayload(victim: VictimKey, displayName: string, details: map<VictimColumn, string>, rawNames: seq<string>,
                    needsReview: bool)
    | IndicatorPayload(indicator: IndicatorKey, firstSeen: Option<int>, verdict: Option<string>, tags: seq<string>)

  datatype Record = Record(source: string, observedAt: Option<int>, payload: Payload)

  /** A record, the run that fetched it and the time it was stored. */
  datatype Arrival = Arrival(record: Record, run: string, now: int)

  function SeenAt(r: Record, now: int): int {
    if r.observedAt.Some? then r.observedAt.value else now
  }

  // ---------------------------------------------------------------- merging

  function MergeVulnerability(a: Vulnerability, d: Vulnerability): Vulnerability {
    Vulnerability(
      a.columns + d.columns, if d.score.Some? then d.score else a.score,
      if d.score.Some? then d.severity else a.severity,
      a.isKev || d.isKev, Extend(a.cpes, d.cpes), Escalated(a.maturity, d.maturity), Extend(a.sources, d.sources),
      a.firstSeen, d.lastSeen)
  }

  function MergeVictim(a: Victim, d: Victim): Victim {
    Victim(a.displayName, a.sourceRun, a.columns + d.columns, Extend(a.rawNames, d.rawNames),
           a.needsReview || d.needsReview, Extend(a.sources, d.sources))
  }

  function MergeIndicator(a: Indicator, d: Indicator): Indicator {
    Indicator(a.firstSeen, if d.verdict.Some? then d.verdict else a.verdict, Extend(a.tags, d.tags),
              Extend(a.sources, d.sources), d.lastSeen)
  }

  function VulnerabilityEntry(a: Arrival): Entry<string, Vulnerability>
    requires a.record.payload.CvePayload?
  {
    var p := a.record.payload;
    Entry(p.cveId, Vulnerability(
      p.columns, p.score, SeverityFromCvss(p.score), p.isKev, Extend([], p.cpes),
      if p.maturity.Some? then p.maturity.value else Unknown, [a.record.source], a.record.observedAt,
      SeenAt(a.record, a.now)))
  }

  function VictimEntry(a: Arrival): Entry<VictimKey, Victim>
    requires a.record.payload.VictimPayload?
  {
    var p := a.record.payload;
    Entry(p.victim, Victim(p.displayName, a.run, p.details, Extend([], p.rawNames), p.needsReview, [a.record.source]))
  }

  function IndicatorEntry(a: Arrival): Entry<IndicatorKey, Indicator>
    requires a.record.payload.IndicatorPayload?
  {
    var p := a.record.payload;
    Entry(p.indicator,
          Indicator(p.firstSeen, p.verdict, Extend([], p.tags), [a.record.source], SeenAt(a.record, a.now)))
  }

  // ---------------------------------------------------------------- exploits

  /** The i-th of the listed CVEs is this one, and the table knows none before it. */
  predicate StandsFirst(known: set<string>, cveIds: seq<string>, i: nat, c: string) {
    i < |cveIds| && cveIds[i] == c && forall j :: 0 <= j < i ==> cveIds[j] !in known
  }

  /** The first of the listed CVEs that the table knows. */
  function FirstKnown(known: set<string>, cveIds: seq<string>): (c: Option<string>)
    ensures c.Some? ==> c.value in known && exists i :: 0 <= i < |cveIds| && StandsFirst(known, cveIds, i, c.value)
    ensures c.None? ==> forall i :: 0 <= i < |cveIds| ==> cveIds[i] !in known
  {
    if cveIds == [] then None
    else if cveIds[0] in known then
      assert StandsFirst(known, cveIds, 0, cveIds[0]);
      Some(cveIds[0])
    else
      var rest := FirstKnown(known, cveIds[1..]);
      assert rest.Some? ==> forall i :: 0 <= i < |cveIds| - 1 && StandsFirst(known, cveIds[1..], i, rest.value) ==>
          StandsFirst(known, cveIds, i + 1, rest.value);
      rest
  }

  function NewExploit(): Exploit {
    Exploit(map[], None, None, "", None)
  }

  function UpdatedExploit(e: Exploit, a: Arrival, linked: Option<string>): Exploit
    requires a.record.payload.ExploitPayload?
  {
    var p := a.record.payload;
    Exploit(e.texts + p.texts, if p.stars.Some? then p.stars.value else e.stars,
            if p.confidence.Some? then p.confidence else e.confidence, a.run,
            if linked.Some? then linked else e.vulnerability)
  }

  function WithPublicExploit(v: Vulnerability): Vulnerability {
    if v.maturity in {Unknown, NoExploit} then v.(maturity := Poc) else v
  }

  // ---------------------------------------------------------------- the store

  datatype Store = Store(
    vulnerabilities: map<string, Vulnerability>, exploits: map<ExploitKey, Exploit>, victims: map<VictimKey, Victim>,
    indicators: map<IndicatorKey, Indicator>)

  function EmptyStore(): Store {
    Store(map[], map[], map[], map[])
  }

  function Ingest(s: Store, a: Arrival): Store {
    match a.record.payload
    case CvePayload(_, _, _, _, _, _) =>
      s.(vulnerabilities := Absorb(MergeVulnerability, s.vulnerabilities, VulnerabilityEntry(a)))
    case VictimPayload(_, _, _, _, _) => s.(victims := Absorb(MergeVictim, s.victims, VictimEntry(a)))
    case IndicatorPayload(_, _, _, _) => s.(indicators := Absorb(MergeIndicator, s.indicators, IndicatorEntry(a)))
    case ExploitPayload(externalId, _, _, _, cveIds) =>
      var key, linked := ExploitKey(a.record.source, externalId), FirstKnown(s.vulnerabilities.Keys, cveIds);
      var e := if key in s.exploits then s.exploits[key] else NewExploit();
      Store(if linked.Some? then s.vulnerabilities[linked.value := WithPublicExploit(s.vulnerabilities[linked.value])]
            else s.vulnerabilities,
            s.exploits[key := UpdatedExploit(e, a, linked)], s.victims, s.indicators)
  }

  function IngestAll(s: Store, arrivals: seq<Arrival>): Store {
    if arrivals == [] then s else Ingest(IngestAll(s, arrivals[..|arrivals| - 1]), arrivals[|arrivals| - 1])
  }

  ghost predicate TidyVulnerability(v: Vulnerability) {
    Distinct(v.cpes) && Distinct(v.sources)
  }

  ghost predicate TidyVictim(v: Victim) {
    Distinct(v.rawNames) && Distinct(v.sources)
  }

  ghost predicate TidyIndicator(i: Indicator) {
    Distinct(i.tags) && Distinct(i.sources)
  }

  /** No list of any row repeats an element. */
  ghost predicate Tidy(s: Store) {
    && (forall k :: k in s.vulnerabilities ==> TidyVulnerability(s.vulnerabilities[k]))
    && (forall k :: k in s.victims ==> TidyVictim(s.victims[k]))
    && (forall k :: k in s.indicators ==> TidyIndicator(s.indicators[k]))
  }
}
