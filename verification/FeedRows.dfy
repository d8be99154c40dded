/** The rest of what stored feed rows hold after any stream: what the first record of a row fixes, what any record adds,
    and where exploits are linked. */
module FeedRows {
  import opened Options
  import opened FeedMerge
  import opened FeedContents
  import opened ExploitReplay

  // ---------------------------------------------------------------- victims

  /** What is known of a victim beside its columns and lists. */
  datatype VictimFacts = VictimFacts(displayName: string, sourceRun: string, needsReview: bool)

  function VictimOf(s: Store, k: VictimKey): Option<VictimFacts> {
    if k !in s.victims then None
    else Some(VictimFacts(s.victims[k].displayName, s.victims[k].sourceRun, s.victims[k].needsReview))
  }

  /** The first record names the victim and the run that found it; any record can ask for a review. */
  function VictimAfter(before: Option<VictimFacts>, arrivals: seq<Arrival>, k: VictimKey): Option<VictimFacts> {
    if arrivals == [] then before else
      var known, a := VictimAfter(before, arrivals[..|arrivals| - 1], k), arrivals[|arrivals| - 1];
      var p := a.record.payload;
      if !p.VictimPayload? || p.victim != k then known
      else if known == None then Some(VictimFacts(p.displayName, a.run, p.needsReview))
      else Some(known.value.(needsReview := known.value.needsReview || p.needsReview))
  }

  lemma VictimNext(s: Store, a: Arrival, k: VictimKey)
    ensures VictimOf(Ingest(s, a), k) == VictimAfter(VictimOf(s, k), [a], k)
  {
    hide OrderedUnion.Extend, MergeVulnerability, MergeIndicator, VulnerabilityEntry, IndicatorEntry, UpdatedExploit;
    hide FirstKnown;
    assert [a][..0] == [] && [a][0] == a;
  }

  lemma VictimAfterLast(before: Option<VictimFacts>, arrivals: seq<Arrival>, k: VictimKey)
    requires arrivals != []
    ensures
      var n := |arrivals| - 1;
      VictimAfter(before, arrivals, k) == VictimAfter(VictimAfter(before, arrivals[..n], k), [arrivals[n]], k)
  {
    var a := arrivals[|arrivals| - 1];
    assert [a][..0] == [] && [a][0] == a;
  }

  /** Name, run and review flag of a victim follow its own records alone. */
  lemma {:induction false} VictimsFollowRecords(s: Store, arrivals: seq<Arrival>, k: VictimKey)
    ensures VictimOf(IngestAll(s, arrivals), k) == VictimAfter(VictimOf(s, k), arrivals, k)
  {
    hide Ingest, VictimOf, VictimAfter;
    if arrivals == [] {
      NothingOfVictim(s, k);
    } else {
      var front, a := arrivals[..|arrivals| - 1], arrivals[|arrivals| - 1];
      VictimsFollowRecords(s, front, k);
      VictimNext(IngestAll(s, front), a, k);
      VictimAfterLast(VictimOf(s, k), arrivals, k);
    }
  }

  lemma NothingOfVictim(s: Store, k: VictimKey)
    ensures VictimAfter(VictimOf(s, k), [], k) == VictimOf(s, k)
  {
  }

  // ---------------------------------------------------------------- indicators

  datatype Sightings = Sightings(first: Option<int>, last: int)

  function SightingsOf(s: Store, k: IndicatorKey): Option<Sightings> {
    if k !in s.indicators then None else Some(Sightings(s.indicators[k].firstSeen, s.indicators[k].lastSeen))
  }

  /** The first record says when the indicator was first seen, each one when it was last: when it was observed, or else
      when it was stored. */
  function SightingsAfter(before: Option<Sightings>, arrivals: seq<Arrival>, k: IndicatorKey): Option<Sightings> {
    if arrivals == [] then before else
      var known, a := SightingsAfter(before, arrivals[..|arrivals| - 1], k), arrivals[|arrivals| - 1];
      var p := a.record.payload;
      var seen := if a.record.observedAt != None then a.record.observedAt.value else a.now;
      if !p.IndicatorPayload? || p.indicator != k then known
      else if known == None then Some(Sightings(p.firstSeen, seen))
      else Some(Sightings(known.value.first, seen))
  }

  lemma SightingsNext(s: Store, a: Arrival, k: IndicatorKey)
    ensures SightingsOf(Ingest(s, a), k) == SightingsAfter(SightingsOf(s, k), [a], k)
  {
    hide OrderedUnion.Extend, MergeVulnerability, MergeVictim, VulnerabilityEntry, VictimEntry, UpdatedExploit;
    hide FirstKnown;
    assert [a][..0] == [] && [a][0] == a;
  }

  lemma SightingsAfterLast(before: Option<Sightings>, arrivals: seq<Arrival>, k: IndicatorKey)
    requires arrivals != []
    ensures
      var n := |arrivals| - 1;
      SightingsAfter(before, arrivals, k)
      == SightingsAfter(SightingsAfter(before, arrivals[..n], k), [arrivals[n]], k)
  {
    var a := arrivals[|arrivals| - 1];
    assert [a][..0] == [] && [a][0] == a;
  }

  /** First and last sighting of an indicator follow its own records alone. */
  lemma {:induction false} SightingsFollowRecords(s: Store, arrivals: seq<Arrival>, k: IndicatorKey)
    ensures SightingsOf(IngestAll(s, arrivals), k) == SightingsAfter(SightingsOf(s, k), arrivals, k)
  {
    hide Ingest, SightingsOf, SightingsAfter;
    if arrivals == [] {
      NothingOfIndicator(s, k);
    } else {
      var front, a := arrivals[..|arrivals| - 1], arrivals[|arrivals| - 1];
      SightingsFollowRecords(s, front, k);
      SightingsNext(IngestAll(s, front), a, k);
      SightingsAfterLast(SightingsOf(s, k), arrivals, k);
    }
  }

  lemma NothingOfIndicator(s: Store, k: IndicatorKey)
    ensures SightingsAfter(SightingsOf(s, k), [], k) == SightingsOf(s, k)
  {
  }

  // ---------------------------------------------------------------- the ladder of maturities

  const LADDER := [Unknown, NoExploit, Poc, Functional, Weaponized]

  /** So far up the ladder, or further. */
  predicate AtLeast(m: Maturity, rung: nat) {
    exists i :: rung <= i < |LADDER| && LADDER[i] == m
  }

  lemma RanksAreRungs(m: Maturity, rung: nat)
    ensures AtLeast(m, rung) <==> Rank(m) >= rung
  {
    assert Rank(m) < |LADDER| && LADDER[Rank(m)] == m;
    forall i | 0 <= i < |LADDER| && LADDER[i] == m ensures i == Rank(m) {
      assert i == 0 || i == 1 || i == 2 || i == 3 || i == 4;
    }
  }

  /** The CVE is known, and none that is listed before it. */
  ghost predicate IsFirstKnown(known: set<string>, cveIds: seq<string>, k: string) {
    k in known && exists j :: 0 <= j < |cveIds| && StandsFirst(known, cveIds, j, k)
  }

  /** A record puts the CVE on this rung or further up, or an exploit linked to it when it comes puts it on that of a
      public exploit. */
  ghost predicate PutsOn(s: Store, arrivals: seq<Arrival>, i: nat, k: string, rung: nat)
    requires i < |arrivals|
  {
    var p := arrivals[i].record.payload;
    || (p.CvePayload? && p.cveId == k && p.maturity.Some? && AtLeast(p.maturity.value, rung))
    || (p.ExploitPayload? && rung <= 2 && IsFirstKnown(IngestAll(s, arrivals[..i]).vulnerabilities.Keys, p.cveIds, k))
  }

  lemma FirstIsKnown(known: set<string>, cveIds: seq<string>, k: string)
    ensures FirstKnown(known, cveIds) == Some(k) <==> IsFirstKnown(known, cveIds, k)
  {
    var c := FirstKnown(known, cveIds);
    if c.Some? {
      var i :| 0 <= i < |cveIds| && StandsFirst(known, cveIds, i, c.value);
      forall j | 0 <= j < |cveIds| && StandsFirst(known, cveIds, j, k) && k in known ensures c.value == k {
        assert cveIds[i] in known && cveIds[j] in known;
      }
    }
  }

  lemma LiftsPut(s: Store, arrivals: seq<Arrival>, i: nat, k: string, rung: nat)
    requires i < |arrivals| && 1 <= rung <= 4
    ensures Lifts(IngestAll(s, arrivals[..i]), arrivals[i], k) >= rung <==> PutsOn(s, arrivals, i, k, rung)
  {
    hide IngestAll, FirstKnown, IsFirstKnown, Rank, AtLeast;
    assert Rank(Poc) == 2 by { PocIsTwo(); }
    var p := arrivals[i].record.payload;
    if p.CvePayload? && p.maturity.Some? {
      RanksAreRungs(p.maturity.value, rung);
    }
    if p.ExploitPayload? {
      FirstIsKnown(IngestAll(s, arrivals[..i]).vulnerabilities.Keys, p.cveIds, k);
    }
  }

  lemma PocIsTwo()
    ensures Rank(Poc) == 2
  {
  }

  lemma {:induction false} HighestMeans(s: Store, arrivals: seq<Arrival>, k: string, rung: nat)
    requires 1 <= rung
    ensures Highest(s, arrivals, k) >= rung <==>
      exists i :: 0 <= i < |arrivals| && Lifts(IngestAll(s, arrivals[..i]), arrivals[i], k) >= rung
  {
    hide Lifts, IngestAll;
    if arrivals != [] {
      var n := |arrivals| - 1;
      var front := arrivals[..n];
      HighestMeans(s, front, k, rung);
      assert forall i :: 0 <= i < n ==> front[i] == arrivals[i] && front[..i] == arrivals[..i];
    }
  }

  /** Maturities climb a ladder: after any stream a CVE stands on a rung or further up exactly if it stood there
      before or a record or a linked exploit put it there. */
  lemma MaturityClimbs(s: Store, arrivals: seq<Arrival>, k: string, rung: nat)
    requires 1 <= rung <= 4
    ensures
      var t := IngestAll(s, arrivals);
      (k in t.vulnerabilities && AtLeast(t.vulnerabilities[k].maturity, rung)) <==>
        (k in s.vulnerabilities && AtLeast(s.vulnerabilities[k].maturity, rung))
        || exists i :: 0 <= i < |arrivals| && PutsOn(s, arrivals, i, k, rung)
  {
    hide IngestAll, PutsOn, Lifts, AtLeast, Rank;
    var t := IngestAll(s, arrivals);
    MaturityIsHighest(s, arrivals, k);
    HighestMeans(s, arrivals, k, rung);
    forall i: nat | i < |arrivals|
      ensures Lifts(IngestAll(s, arrivals[..i]), arrivals[i], k) >= rung <==> PutsOn(s, arrivals, i, k, rung)
    {
      LiftsPut(s, arrivals, i, k, rung);
    }
    if k in t.vulnerabilities {
      RanksAreRungs(t.vulnerabilities[k].maturity, rung);
    }
    if k in s.vulnerabilities {
      RanksAreRungs(s.vulnerabilities[k].maturity, rung);
    }
  }

  // ---------------------------------------------------------------- links

  /** The last CVE that a record of the exploit found known, in the stream or before it. */
  function LinkAfter(before: Option<string>, s: Store, arrivals: seq<Arrival>, k: ExploitKey): Option<string> {
    if arrivals == [] then before else
      var front, a := arrivals[..|arrivals| - 1], arrivals[|arrivals| - 1];
      var p := a.record.payload;
      var found := if p.ExploitPayload? then FirstKnown(IngestAll(s, front).vulnerabilities.Keys, p.cveIds) else None;
      if p.ExploitPayload? && k == ExploitKey(a.record.source, p.externalId) && found != None then found
      else LinkAfter(before, s, front, k)
  }

  /** An exploit is linked to the first CVE that its last record with a known one listed of those known when it came. */
  lemma {:induction false} LinksFollowRecords(s: Store, arrivals: seq<Arrival>, k: ExploitKey)
    ensures Base(IngestAll(s, arrivals), k).vulnerability == LinkAfter(Base(s, k).vulnerability, s, arrivals, k)
  {
    hide Ingest, FirstKnown, Base;
    if arrivals != [] {
      var front, a := arrivals[..|arrivals| - 1], arrivals[|arrivals| - 1];
      LinksFollowRecords(s, front, k);
      BaseAfter(IngestAll(s, front), a, k);
    }
  }
}
