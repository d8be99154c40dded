/** When streams with exploits may be delivered again: exploits follow the CVEs known at the time, and their maturity
    follows them. */
module ExploitReplay {
  import opened Options
  import opened Replay
  import opened FeedMerge
  import opened FeedReplay
  import opened FeedContents

  // ---------------------------------------------------------------- all but the exploits

  predicate IsExploit(a: Arrival) {
    a.record.payload.ExploitPayload?
  }

  function Plain(arrivals: seq<Arrival>): seq<Arrival> {
    if arrivals == [] then [] else
      var front, a := Plain(arrivals[..|arrivals| - 1]), arrivals[|arrivals| - 1];
      if IsExploit(a) then front else front + [a]
  }

  predicate KinVulnerabilities(v: Vulnerability, w: Vulnerability) {
    w == v.(maturity := w.maturity)
  }

  /** Two stores that differ in exploits and in maturities only. */
  ghost predicate Kin(s: Store, t: Store) {
    && s.vulnerabilities.Keys == t.vulnerabilities.Keys
    && (forall k :: k in s.vulnerabilities ==> KinVulnerabilities(s.vulnerabilities[k], t.vulnerabilities[k]))
    && s.victims == t.victims && s.indicators == t.indicators
  }

  lemma KinBothWays(s: Store, t: Store, u: Store)
    requires Kin(s, t)
    ensures Kin(t, s) && (Kin(t, u) ==> Kin(s, u))
  {
  }

  lemma KinIngest(s: Store, t: Store, a: Arrival)
    requires Kin(s, t) && !IsExploit(a)
    ensures Kin(Ingest(s, a), Ingest(t, a))
  {
    hide VictimEntry, IndicatorEntry, Absorb, KinVulnerabilities;
    match a.record.payload
    case CvePayload(_, _, _, _, _, _) => KinCve(s, t, a);
    case _ => KinOther(s, t, Ingest(s, a), Ingest(t, a));
  }

  lemma KinOther(s: Store, t: Store, after: Store, later: Store)
    requires Kin(s, t) && after.vulnerabilities == s.vulnerabilities && later.vulnerabilities == t.vulnerabilities
    requires after.victims == later.victims && after.indicators == later.indicators
    ensures Kin(after, later)
  {
  }

  lemma KinMerge(v: Vulnerability, w: Vulnerability, d: Vulnerability)
    requires KinVulnerabilities(v, w)
    ensures KinVulnerabilities(MergeVulnerability(v, d), MergeVulnerability(w, d))
  {
    hide OrderedUnion.Extend, Escalated;
  }

  lemma KinCve(s: Store, t: Store, a: Arrival)
    requires Kin(s, t) && a.record.payload.CvePayload?
    ensures Kin(Ingest(s, a), Ingest(t, a))
  {
    hide MergeVulnerability, VulnerabilityEntry, KinVulnerabilities;
    var e := VulnerabilityEntry(a);
    if e.key in s.vulnerabilities {
      KinMerge(s.vulnerabilities[e.key], t.vulnerabilities[e.key], e.row);
    }
    assert KinVulnerabilities(e.row, e.row) by { KinSelf(e.row); }
  }

  lemma KinSelf(v: Vulnerability)
    ensures KinVulnerabilities(v, v)
  {
  }

  lemma KinExploit(s: Store, t: Store, a: Arrival)
    requires Kin(s, t) && IsExploit(a)
    ensures Kin(Ingest(s, a), t)
  {
    hide UpdatedExploit;
  }

  lemma {:induction false} KinPlain(s: Store, t: Store, arrivals: seq<Arrival>)
    requires Kin(s, t)
    ensures Kin(IngestAll(s, arrivals), IngestAll(t, Plain(arrivals)))
  {
    hide Kin, Ingest, IsExploit;
    if arrivals != [] {
      var front, a := arrivals[..|arrivals| - 1], arrivals[|arrivals| - 1];
      KinPlain(s, t, front);
      if IsExploit(a) {
        KinExploit(IngestAll(s, front), IngestAll(t, Plain(front)), a);
      } else {
        KinIngest(IngestAll(s, front), IngestAll(t, Plain(front)), a);
        assert Plain(arrivals)[..|Plain(arrivals)| - 1] == Plain(front);
      }
    }
  }

  lemma {:induction false} PlainFacts(first: seq<Arrival>, again: seq<Arrival>)
    requires SameRecords(first, again)
    ensures NoExploits(Plain(first)) && SameRecords(Plain(first), Plain(again))
  {
    if first != [] {
      PlainFacts(first[..|first| - 1], again[..|again| - 1]);
    }
  }

  lemma {:induction false} PlainSights(arrivals: seq<Arrival>, k: Sighted)
    ensures LastSight(Plain(arrivals), k) == LastSight(arrivals, k)
  {
    hide SeenAt;
    if arrivals != [] {
      PlainSights(arrivals[..|arrivals| - 1], k);
    }
  }

  ghost predicate SameSights(first: seq<Arrival>, again: seq<Arrival>) {
    forall k :: LastSight(first, k) == LastSight(again, k)
  }

  lemma TracelessExactly(first: seq<Arrival>, again: seq<Arrival>)
    requires SameRecords(first, again)
    ensures Traceless(first, again, []) <==> SameSights(first, again)
  {
    hide LastSight, Traceless;
    if Traceless(first, again, []) {
      forall k ensures LastSight(first, k) == LastSight(again, k) {
        assert LastSight([], k).None? by { NoSight([], k); }
        TracelessKeepsSights(first, again, [], k);
      }
    } else {
      var k := TraceShows(first, again, []);
    }
  }

  lemma TracelessPlain(first: seq<Arrival>, again: seq<Arrival>)
    requires SameRecords(first, again) && SameRecords(Plain(first), Plain(again))
    ensures Traceless(Plain(first), Plain(again), []) <==> Traceless(first, again, [])
  {
    hide LastSight, Traceless, Plain;
    TracelessExactly(first, again);
    TracelessExactly(Plain(first), Plain(again));
    forall k
      ensures LastSight(Plain(first), k) == LastSight(first, k)
      ensures LastSight(Plain(again), k) == LastSight(again, k)
    {
      PlainSights(first, k);
      PlainSights(again, k);
    }
    if SameSights(Plain(first), Plain(again)) {
      forall k ensures LastSight(first, k) == LastSight(again, k) {
        assert LastSight(Plain(first), k) == LastSight(Plain(again), k);
      }
    }
  }

  lemma KinTwins(s: Store, t: Store)
    requires Kin(s, t) && Twins(s, t)
    ensures s == t
  {
    forall k | k in s.vulnerabilities ensures s.vulnerabilities[k] == t.vulnerabilities[k] {
      assert TwinVulnerabilities(s.vulnerabilities[k], t.vulnerabilities[k]);
      assert KinVulnerabilities(s.vulnerabilities[k], t.vulnerabilities[k]);
    }
    assert s.vulnerabilities == t.vulnerabilities;
  }

  /** All but exploits and maturities is kept exactly by a traceless replay. */
  lemma KinReplayExactly(s: Store, first: seq<Arrival>, again: seq<Arrival>)
    requires SameRecords(first, again)
    ensures Kin(IngestAll(IngestAll(s, first), again), IngestAll(s, first)) <==> Traceless(first, again, [])
  {
    hide Kin, IngestAll, Plain, Traceless, Twins, NoExploits, SameRecords;
    var once, plain := IngestAll(s, first), IngestAll(s, Plain(first));
    var twice, plainTwice := IngestAll(once, again), IngestAll(plain, Plain(again));
    SelfKin(s);
    KinPlain(s, s, first);
    KinPlain(once, plain, again);
    PlainFacts(first, again);
    TracelessPlain(first, again);
    ReplayExactly(s, Plain(first), Plain(again));
    ReplayLeavesTwin(s, Plain(first), Plain(again));
    KinBothWays(once, plain, plain);
    KinBothWays(twice, plainTwice, once);
    if plainTwice == plain {
      KinBothWays(twice, plainTwice, once);
    }
    if Kin(twice, once) {
      KinBothWays(twice, plainTwice, plainTwice);
      KinBothWays(plainTwice, twice, once);
      KinBothWays(plainTwice, once, plain);
      KinTwins(plainTwice, plain);
    }
  }

  lemma SelfKin(s: Store)
    ensures Kin(s, s)
  {
  }

  // ---------------------------------------------------------------- maturities

  lemma LiftOfCve(s: Store, t: Store, a: Arrival, b: Arrival, k: string)
    requires a.record == b.record && !IsExploit(a)
    ensures Lifts(s, a, k) == Lifts(t, b, k)
  {
  }

  lemma {:induction false} LiftIsReached(s: Store, arrivals: seq<Arrival>, i: nat, k: string)
    requires i < |arrivals|
    ensures Lifts(IngestAll(s, arrivals[..i]), arrivals[i], k) <= Highest(s, arrivals, k)
  {
    hide Lifts, Ingest;
    var n := |arrivals| - 1;
    if i < n {
      assert arrivals[..n][i] == arrivals[i] && arrivals[..n][..i] == arrivals[..i];
      LiftIsReached(s, arrivals[..n], i, k);
    }
  }

  lemma {:induction false} HighestBelow(s: Store, arrivals: seq<Arrival>, k: string, bound: nat)
    requires forall i :: 0 <= i < |arrivals| ==> Lifts(IngestAll(s, arrivals[..i]), arrivals[i], k) <= bound
    ensures Highest(s, arrivals, k) <= bound
  {
    hide Lifts, Ingest;
    if arrivals != [] {
      var n := |arrivals| - 1;
      forall i | 0 <= i < n ensures Lifts(IngestAll(s, arrivals[..n][..i]), arrivals[..n][i], k) <= bound {
        assert arrivals[..n][i] == arrivals[i] && arrivals[..n][..i] == arrivals[..i];
      }
      HighestBelow(s, arrivals[..n], k, bound);
      assert arrivals[..n] == arrivals[..|arrivals| - 1];
    }
  }

  /** Every CVE the stream tells of is in the table. */
  ghost predicate AllKnown(known: set<string>, arrivals: seq<Arrival>) {
    forall i :: 0 <= i < |arrivals| && arrivals[i].record.payload.CvePayload? ==>
      arrivals[i].record.payload.cveId in known
  }

  lemma KeysAfter(s: Store, a: Arrival)
    ensures Ingest(s, a).vulnerabilities.Keys ==
      if a.record.payload.CvePayload? then s.vulnerabilities.Keys + {a.record.payload.cveId} else s.vulnerabilities.Keys
  {
    hide MergeVulnerability, MergeVictim, MergeIndicator, UpdatedExploit;
  }

  lemma {:induction false} KnownAfterStream(s: Store, arrivals: seq<Arrival>)
    ensures s.vulnerabilities.Keys <= IngestAll(s, arrivals).vulnerabilities.Keys
    ensures AllKnown(IngestAll(s, arrivals).vulnerabilities.Keys, arrivals)
  {
    hide Ingest;
    if arrivals != [] {
      KnownAfterStream(s, arrivals[..|arrivals| - 1]);
      KeysAfter(IngestAll(s, arrivals[..|arrivals| - 1]), arrivals[|arrivals| - 1]);
      assert forall i :: 0 <= i < |arrivals| - 1 ==> arrivals[..|arrivals| - 1][i] == arrivals[i];
    }
  }

  /** A replay meets the same CVEs throughout. */
  lemma {:induction false} KnownStays(s: Store, arrivals: seq<Arrival>)
    requires AllKnown(s.vulnerabilities.Keys, arrivals)
    ensures IngestAll(s, arrivals).vulnerabilities.Keys == s.vulnerabilities.Keys
  {
    hide Ingest;
    if arrivals != [] {
      KnownStays(s, arrivals[..|arrivals| - 1]);
      KeysAfter(IngestAll(s, arrivals[..|arrivals| - 1]), arrivals[|arrivals| - 1]);
    }
  }

  /** What an exploit record would be linked to now. */
  function LinkNow(known: set<string>, a: Arrival): Option<string> {
    if IsExploit(a) then FirstKnown(known, a.record.payload.cveIds) else None
  }

  /** Each CVE that an exploit record of the stream would be linked to now is rated poc or higher. */
  ghost predicate Lifted(s: Store, arrivals: seq<Arrival>) {
    forall i :: 0 <= i < |arrivals| && LinkNow(s.vulnerabilities.Keys, arrivals[i]).Some? ==>
      RankOf(s, LinkNow(s.vulnerabilities.Keys, arrivals[i]).value) >= Rank(Poc)
  }

  /** No maturity moves. */
  ghost predicate SameRanks(s: Store, t: Store) {
    forall k :: RankOf(s, k) == RankOf(t, k)
  }

  lemma LiftInReplay(once: Store, arrivals: seq<Arrival>, i: nat, k: string)
    requires AllKnown(once.vulnerabilities.Keys, arrivals) && i < |arrivals| && IsExploit(arrivals[i])
    ensures Lifts(IngestAll(once, arrivals[..i]), arrivals[i], k) ==
      if LinkNow(once.vulnerabilities.Keys, arrivals[i]) == Some(k) then Rank(Poc) else 0
  {
    hide FirstKnown, IngestAll;
    assert forall j :: 0 <= j < i ==> arrivals[..i][j] == arrivals[j];
    KnownStays(once, arrivals[..i]);
  }

  /** What CVE records call for is reached already. */
  lemma CveLiftReached(s: Store, first: seq<Arrival>, again: seq<Arrival>, i: nat, k: string)
    requires SameRecords(first, again) && i < |again| && !IsExploit(again[i])
    ensures
      var once := IngestAll(s, first);
      Lifts(IngestAll(once, again[..i]), again[i], k) <= RankOf(once, k)
  {
    hide Lifts, IngestAll, RankOf;
    var once := IngestAll(s, first);
    assert first[i].record == again[i].record;
    MaturityIsHighest(s, first, k);
    LiftIsReached(s, first, i, k);
    LiftOfCve(IngestAll(s, first[..i]), IngestAll(once, again[..i]), first[i], again[i], k);
  }

  lemma RanksStayExactly(s: Store, first: seq<Arrival>, again: seq<Arrival>)
    requires SameRecords(first, again)
    ensures
      var once := IngestAll(s, first);
      SameRanks(IngestAll(once, again), once) <==> Lifted(once, first)
  {
    hide Lifts, IngestAll, RankOf, LinkNow, IsExploit;
    var once := IngestAll(s, first);
    var twice := IngestAll(once, again);
    KnownAfterStream(s, first);
    assert AllKnown(once.vulnerabilities.Keys, again);
    if Lifted(once, first) {
      forall k ensures RankOf(twice, k) == RankOf(once, k) {
        LiftedStays(s, first, again, k);
      }
    } else if SameRanks(twice, once) {
      LiftedBySame(once, first, again);
    }
  }

  lemma LiftedStays(s: Store, first: seq<Arrival>, again: seq<Arrival>, k: string)
    requires SameRecords(first, again) && Lifted(IngestAll(s, first), first)
    requires AllKnown(IngestAll(s, first).vulnerabilities.Keys, again)
    ensures RankOf(IngestAll(IngestAll(s, first), again), k) == RankOf(IngestAll(s, first), k)
  {
    hide Lifts, IngestAll, RankOf, FirstKnown;
    var once := IngestAll(s, first);
    forall i | 0 <= i < |again| ensures Lifts(IngestAll(once, again[..i]), again[i], k) <= RankOf(once, k) {
      if IsExploit(again[i]) {
        LiftInReplay(once, again, i, k);
        assert LinkNow(once.vulnerabilities.Keys, first[i]) == LinkNow(once.vulnerabilities.Keys, again[i]);
      } else {
        CveLiftReached(s, first, again, i, k);
      }
    }
    HighestBelow(once, again, k, RankOf(once, k));
    MaturityIsHighest(once, again, k);
  }

  lemma LiftedBySame(once: Store, first: seq<Arrival>, again: seq<Arrival>)
    requires SameRecords(first, again) && AllKnown(once.vulnerabilities.Keys, again)
    requires SameRanks(IngestAll(once, again), once)
    ensures Lifted(once, first)
  {
    hide Lifts, IngestAll, RankOf, FirstKnown;
    var known := once.vulnerabilities.Keys;
    forall i | 0 <= i < |first| && LinkNow(known, first[i]).Some?
      ensures RankOf(once, LinkNow(known, first[i]).value) >= Rank(Poc)
    {
      var k := LinkNow(known, first[i]).value;
      assert first[i].record == again[i].record && LinkNow(known, again[i]) == Some(k);
      LiftInReplay(once, again, i, k);
      LiftIsReached(once, again, i, k);
      MaturityIsHighest(once, again, k);
      assert RankOf(IngestAll(once, again), k) == RankOf(once, k);
    }
  }

  // ---------------------------------------------------------------- exploits

  /** What a stream says of one exploit, when the known CVEs stay the same: each part is said by the last record that
      says it. */
  datatype Said = Said(
    texts: map<ExploitColumn, string>, stars: Option<Option<int>>, confidence: Option<real>, run: Option<string>,
    link: Option<string>)

  function SaysNothing(): Said {
    Said(map[], None, None, None, None)
  }

  predicate Names(a: Arrival, k: ExploitKey) {
    IsExploit(a) && ExploitKey(a.record.source, a.record.payload.externalId) == k
  }

  function SaidOf(known: set<string>, arrivals: seq<Arrival>, k: ExploitKey): Said {
    if arrivals == [] then SaysNothing() else
      var before, a := SaidOf(known, arrivals[..|arrivals| - 1], k), arrivals[|arrivals| - 1];
      if Names(a, k)
      then Said(before.texts + a.record.payload.texts, Or(a.record.payload.stars, before.stars),
                Or(a.record.payload.confidence, before.confidence), Some(a.run), Or(LinkNow(known, a), before.link))
      else before
  }

  function Told(e: Exploit, said: Said): Exploit {
    Exploit(e.texts + said.texts, if said.stars.Some? then said.stars.value else e.stars,
            Or(said.confidence, e.confidence), if said.run.Some? then said.run.value else e.sourceRun,
            Or(said.link, e.vulnerability))
  }

  /** The stored exploit, or the one a first record starts from. */
  function Base(s: Store, k: ExploitKey): Exploit {
    if k in s.exploits then s.exploits[k] else NewExploit()
  }

  function ApartFromLink(e: Exploit): Exploit {
    e.(vulnerability := None)
  }

  lemma ToldNext(e: Exploit, before: Said, a: Arrival, known: set<string>)
    requires IsExploit(a)
    ensures UpdatedExploit(Told(e, before), a, LinkNow(known, a)) == Told(e,
      Said(before.texts + a.record.payload.texts, Or(a.record.payload.stars, before.stars),
           Or(a.record.payload.confidence, before.confidence), Some(a.run), Or(LinkNow(known, a), before.link)))
  {
    hide LinkNow;
    assert (e.texts + before.texts) + a.record.payload.texts == e.texts + (before.texts + a.record.payload.texts);
  }

  lemma BaseAfter(s: Store, a: Arrival, k: ExploitKey)
    ensures Base(Ingest(s, a), k) ==
      if Names(a, k) then UpdatedExploit(Base(s, k), a, LinkNow(s.vulnerabilities.Keys, a)) else Base(s, k)
    ensures k in Ingest(s, a).exploits <==> k in s.exploits || Names(a, k)
  {
    hide UpdatedExploit, FirstKnown, MergeVulnerability, MergeVictim, MergeIndicator;
  }

  /** Where all CVEs of the stream are known, each exploit becomes what the stream says of it. */
  lemma {:induction false} ExploitsAreTold(s: Store, arrivals: seq<Arrival>, k: ExploitKey)
    requires AllKnown(s.vulnerabilities.Keys, arrivals)
    ensures Base(IngestAll(s, arrivals), k) == Told(Base(s, k), SaidOf(s.vulnerabilities.Keys, arrivals, k))
  {
    hide Ingest, Base, UpdatedExploit, LinkNow, Names, IsExploit, Told;
    if arrivals == [] {
      TellNothing(Base(s, k));
    } else {
      var front, a := arrivals[..|arrivals| - 1], arrivals[|arrivals| - 1];
      ExploitsAreTold(s, front, k);
      KnownStays(s, front);
      BaseAfter(IngestAll(s, front), a, k);
      if Names(a, k) {
        NamesExploit(a, k);
        ToldNext(Base(s, k), SaidOf(s.vulnerabilities.Keys, front, k), a, s.vulnerabilities.Keys);
      }
    }
  }

  lemma NamesExploit(a: Arrival, k: ExploitKey)
    requires Names(a, k)
    ensures IsExploit(a)
  {
  }

  lemma TellNothing(e: Exploit)
    ensures Told(e, SaysNothing()) == e
  {
  }

  lemma ApartFromLinkNext(e: Exploit, f: Exploit, a: Arrival, link: Option<string>, known: set<string>)
    requires IsExploit(a) && ApartFromLink(e) == ApartFromLink(f)
    ensures ApartFromLink(UpdatedExploit(e, a, link)) == ApartFromLink(UpdatedExploit(f, a, LinkNow(known, a)))
  {
    hide LinkNow;
  }

  /** Apart from its link, it does so whatever is known. */
  lemma {:induction false} ApartFromLinkTold(s: Store, arrivals: seq<Arrival>, k: ExploitKey, known: set<string>)
    ensures
      ApartFromLink(Base(IngestAll(s, arrivals), k)) == ApartFromLink(Told(Base(s, k), SaidOf(known, arrivals, k)))
  {
    hide Ingest, Base, UpdatedExploit, LinkNow, Names, IsExploit, Told, ApartFromLink;
    if arrivals == [] {
      TellNothing(Base(s, k));
    } else {
      var front, a := arrivals[..|arrivals| - 1], arrivals[|arrivals| - 1];
      var before := IngestAll(s, front);
      ApartFromLinkTold(s, front, k, known);
      BaseAfter(before, a, k);
      if Names(a, k) {
        NamesExploit(a, k);
        ToldNext(Base(s, k), SaidOf(known, front, k), a, known);
        ApartFromLinkNext(Base(before, k), Told(Base(s, k), SaidOf(known, front, k)), a,
                          LinkNow(before.vulnerabilities.Keys, a), known);
      }
    }
  }

  lemma {:induction false} SameSaid(known: set<string>, first: seq<Arrival>, again: seq<Arrival>, k: ExploitKey)
    requires SameRecords(first, again)
    ensures SaidOf(known, first, k) == SaidOf(known, again, k).(run := SaidOf(known, first, k).run)
    ensures SaidOf(known, first, k).run.Some? == SaidOf(known, again, k).run.Some?
  {
    hide FirstKnown, Or;
    if first != [] {
      SameSaid(known, first[..|first| - 1], again[..|again| - 1], k);
    }
  }

  lemma {:induction false} ExploitKeysStay(s: Store, first: seq<Arrival>, again: seq<Arrival>, k: ExploitKey)
    requires SameRecords(first, again)
    ensures k in IngestAll(IngestAll(s, first), again).exploits <==> k in IngestAll(s, first).exploits
  {
    hide Ingest, Names, IngestAll;
    var once := IngestAll(s, first);
    NamedExploits(s, first, k);
    NamedExploits(once, again, k);
    if i: nat :| i < |again| && Names(again[i], k) {
      assert Names(first[i], k) by { NamesSame(first[i], again[i], k); }
    }
  }

  lemma NamesSame(a: Arrival, b: Arrival, k: ExploitKey)
    requires a.record == b.record
    ensures Names(a, k) == Names(b, k)
  {
  }

  lemma {:induction false} NamedExploits(s: Store, arrivals: seq<Arrival>, k: ExploitKey)
    ensures k in IngestAll(s, arrivals).exploits <==>
      k in s.exploits || exists i :: 0 <= i < |arrivals| && Names(arrivals[i], k)
  {
    hide Ingest, Names;
    if arrivals != [] {
      var n := |arrivals| - 1;
      NamedExploits(s, arrivals[..n], k);
      BaseAfter(IngestAll(s, arrivals[..n]), arrivals[n], k);
      assert forall i :: 0 <= i < n ==> arrivals[..n][i] == arrivals[i];
    }
  }

  /** The link that the stream would give to an exploit now: the first known CVE of its last record that lists one. */
  function LastLink(known: set<string>, arrivals: seq<Arrival>, k: ExploitKey): Option<string> {
    SaidOf(known, arrivals, k).link
  }

  /** Each exploit is linked as its records would link it now. */
  ghost predicate Linked(s: Store, arrivals: seq<Arrival>) {
    forall k :: k in s.exploits && LastLink(s.vulnerabilities.Keys, arrivals, k).Some? ==>
      s.exploits[k].vulnerability == LastLink(s.vulnerabilities.Keys, arrivals, k)
  }

  function Unstamp(e: Exploit): Exploit {
    e.(sourceRun := "")
  }

  /** A store without the runs that delivered its exploits last. */
  function Unstamped(s: Store): Store {
    s.(exploits := map k | k in s.exploits :: Unstamp(s.exploits[k]))
  }

  lemma ToldAgain(e0: Exploit, e: Exploit, first: Said, again: Said)
    requires ApartFromLink(e) == ApartFromLink(Told(e0, first)) && first == again.(run := first.run)
    ensures Told(e, again).(sourceRun := e.sourceRun) == e.(vulnerability := Or(again.link, e.vulnerability))
    ensures Told(e, again).sourceRun == if again.run.Some? then again.run.value else e.sourceRun
    ensures first.run.Some? ==> e.sourceRun == first.run.value
  {
    assert (e0.texts + first.texts) + first.texts == e0.texts + first.texts;
  }

  /** In a replay of its own records an exploit changes its link, as far as they link it now, and its run. */
  lemma ReplayedExploit(s: Store, first: seq<Arrival>, again: seq<Arrival>, k: ExploitKey)
    requires SameRecords(first, again)
    ensures
      var once := IngestAll(s, first);
      var known := once.vulnerabilities.Keys;
      var e, f, link := Base(once, k), Base(IngestAll(once, again), k), LastLink(known, first, k);
      && f.(sourceRun := e.sourceRun) == e.(vulnerability := Or(link, e.vulnerability))
      && var run, before := SaidOf(known, again, k).run, SaidOf(known, first, k).run;
         && run.Some? == before.Some? && (before.Some? ==> e.sourceRun == before.value)
         && f.sourceRun == if run.Some? then run.value else e.sourceRun
  {
    hide IngestAll, Base, SaidOf, Told, ApartFromLink;
    var once := IngestAll(s, first);
    var known := once.vulnerabilities.Keys;
    KnownAfterStream(s, first);
    assert AllKnown(known, again);
    ApartFromLinkTold(s, first, k, known);
    ExploitsAreTold(once, again, k);
    SameSaid(known, first, again, k);
    ToldAgain(Base(s, k), Base(once, k), SaidOf(known, first, k), SaidOf(known, again, k));
  }

  /** Exploits stay, whatever run they came from. */
  ghost predicate SameExploits(s: Store, t: Store) {
    && s.exploits.Keys == t.exploits.Keys
    && forall k :: k in s.exploits ==> Unstamp(s.exploits[k]) == Unstamp(t.exploits[k])
  }

  lemma UnstampedAlike(e: Exploit, f: Exploit, link: Option<string>)
    requires f.(sourceRun := e.sourceRun) == e.(vulnerability := Or(link, e.vulnerability))
    ensures Unstamp(f) == Unstamp(e) <==> link.None? || e.vulnerability == link
  {
  }

  lemma ExploitsStayExactly(s: Store, first: seq<Arrival>, again: seq<Arrival>)
    requires SameRecords(first, again)
    ensures
      var once := IngestAll(s, first);
      SameExploits(IngestAll(once, again), once) <==> Linked(once, first)
  {
    hide IngestAll, SaidOf, LastLink, Unstamp, SameRecords;
    var once := IngestAll(s, first);
    var twice, known := IngestAll(once, again), once.vulnerabilities.Keys;
    forall k ensures k in twice.exploits <==> k in once.exploits {
      ExploitKeysStay(s, first, again, k);
    }
    forall k | k in once.exploits
      ensures Unstamp(twice.exploits[k]) == Unstamp(once.exploits[k]) <==>
        LastLink(known, first, k).None? || once.exploits[k].vulnerability == LastLink(known, first, k)
    {
      ReplayedExploit(s, first, again, k);
      UnstampedAlike(once.exploits[k], twice.exploits[k], LastLink(known, first, k));
    }
  }

  // ---------------------------------------------------------------- together

  lemma RankNames(a: Maturity, b: Maturity)
    requires Rank(a) == Rank(b)
    ensures a == b
  {
  }

  lemma SameRankSameMaturity(s: Store, t: Store)
    requires Kin(s, t) && SameRanks(s, t)
    ensures s.vulnerabilities == t.vulnerabilities
  {
    forall k | k in s.vulnerabilities ensures s.vulnerabilities[k] == t.vulnerabilities[k] {
      assert RankOf(s, k) == RankOf(t, k) && KinVulnerabilities(s.vulnerabilities[k], t.vulnerabilities[k]);
      RankNames(s.vulnerabilities[k].maturity, t.vulnerabilities[k].maturity);
    }
  }

  lemma UnstampedSame(s: Store, t: Store)
    ensures Unstamped(s) == Unstamped(t) <==> Kin(s, t) && SameRanks(s, t) && SameExploits(s, t)
  {
    hide Kin, SameRanks, Unstamp;
    if Kin(s, t) && SameRanks(s, t) && SameExploits(s, t) {
      SameRankSameMaturity(s, t);
      KinRest(s, t);
      assert Unstamped(s).exploits == Unstamped(t).exploits;
    }
    if Unstamped(s) == Unstamped(t) {
      SameMeansKin(s, t);
      UnstampedExploits(s, t);
    }
  }

  lemma KinRest(s: Store, t: Store)
    requires Kin(s, t)
    ensures s.victims == t.victims && s.indicators == t.indicators
  {
  }

  lemma SameMeansKin(s: Store, t: Store)
    requires s.(exploits := t.exploits) == t
    ensures Kin(s, t) && SameRanks(s, t)
  {
  }

  lemma UnstampedExploits(s: Store, t: Store)
    requires Unstamped(s) == Unstamped(t)
    ensures SameExploits(s, t)
  {
    hide Unstamp;
    assert Unstamped(s).exploits.Keys == s.exploits.Keys && Unstamped(t).exploits.Keys == t.exploits.Keys;
    forall k | k in s.exploits ensures Unstamp(s.exploits[k]) == Unstamp(t.exploits[k]) {
      assert Unstamped(s).exploits[k] == Unstamped(t).exploits[k];
    }
  }

  /** Any stream delivered again onto any store changes nothing but the runs of exploits exactly when it is traceless,
      and the first delivery left every exploit linked, and every CVE lifted, as its exploit records would do now. */
  lemma ReplayBesidesRunsExactly(s: Store, first: seq<Arrival>, again: seq<Arrival>)
    requires SameRecords(first, again)
    ensures
      var once := IngestAll(s, first);
      Unstamped(IngestAll(once, again)) == Unstamped(once) <==>
      Traceless(first, again, []) && Lifted(once, first) && Linked(once, first)
  {
    hide Unstamped, IngestAll, Kin, SameRanks, SameExploits, Traceless, Lifted, Linked, SameRecords;
    UnstampedSame(IngestAll(IngestAll(s, first), again), IngestAll(s, first));
    KinReplayExactly(s, first, again);
    RanksStayExactly(s, first, again);
    ExploitsStayExactly(s, first, again);
  }

  /** The run that delivered an exploit last. */
  function LastRun(arrivals: seq<Arrival>, k: ExploitKey): Option<string> {
    if arrivals == [] then None else
      var a := arrivals[|arrivals| - 1];
      if Names(a, k) then Some(a.run) else LastRun(arrivals[..|arrivals| - 1], k)
  }

  lemma {:induction false} SaidRun(known: set<string>, arrivals: seq<Arrival>, k: ExploitKey)
    ensures SaidOf(known, arrivals, k).run == LastRun(arrivals, k)
  {
    hide LinkNow, Or, Names;
    if arrivals != [] {
      SaidRun(known, arrivals[..|arrivals| - 1], k);
    }
  }

  ghost predicate SameLastRuns(first: seq<Arrival>, again: seq<Arrival>) {
    forall k :: LastRun(first, k) == LastRun(again, k)
  }

  lemma SourceRunsStayExactly(s: Store, first: seq<Arrival>, again: seq<Arrival>)
    requires SameRecords(first, again)
    ensures
      var once := IngestAll(s, first);
      SameLastRuns(first, again) <==> SameRuns(IngestAll(once, again), once)
  {
    hide IngestAll, Base, SaidOf, LastRun, LastLink, SameRecords;
    var once := IngestAll(s, first);
    forall k
      ensures Base(IngestAll(once, again), k).sourceRun == Base(once, k).sourceRun <==>
        LastRun(first, k) == LastRun(again, k)
    {
      ReplayedExploit(s, first, again, k);
      SaidRun(once.vulnerabilities.Keys, first, k);
      SaidRun(once.vulnerabilities.Keys, again, k);
    }
  }

  lemma UnstampInjective(e: Exploit, f: Exploit)
    requires Unstamp(e) == Unstamp(f) && e.sourceRun == f.sourceRun
    ensures e == f
  {
    assert e == Unstamp(e).(sourceRun := e.sourceRun);
  }

  ghost predicate SameRuns(s: Store, t: Store) {
    forall k :: Base(s, k).sourceRun == Base(t, k).sourceRun
  }

  lemma StampedSame(s: Store, t: Store)
    requires Unstamped(s) == Unstamped(t) && SameRuns(s, t)
    ensures s == t
  {
    hide Unstamp;
    UnstampedExploits(s, t);
    forall k | k in s.exploits ensures s.exploits[k] == t.exploits[k] {
      assert Base(s, k).sourceRun == Base(t, k).sourceRun;
      UnstampInjective(s.exploits[k], t.exploits[k]);
    }
    assert s.exploits == t.exploits;
    assert s == Unstamped(s).(exploits := s.exploits) && t == Unstamped(t).(exploits := t.exploits);
  }

  /** It changes nothing at all exactly when, besides, each exploit was delivered last by the same run as before. */
  lemma AnyReplayExactly(s: Store, first: seq<Arrival>, again: seq<Arrival>)
    requires SameRecords(first, again)
    ensures
      var once := IngestAll(s, first);
      IngestAll(once, again) == once <==>
      Traceless(first, again, []) && Lifted(once, first) && Linked(once, first) && SameLastRuns(first, again)
  {
    hide Unstamped, IngestAll, Base, Traceless, Lifted, Linked, SameLastRuns, SameRecords;
    var once := IngestAll(s, first);
    var twice := IngestAll(once, again);
    if Unstamped(twice) == Unstamped(once) && SameRuns(twice, once) {
      StampedSame(twice, once);
    }
    ReplayBesidesRunsExactly(s, first, again);
    SourceRunsStayExactly(s, first, again);
  }
}
