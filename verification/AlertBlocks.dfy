/** What each alert says of the triggers it stands for, and which triggers an evaluation makes. */
module AlertBlocks {
  import opened AlertAggregation
  import opened AlertChains

  // ---------------------------------------------------------------- alerts as blocks of triggers

  /** A trigger goes with the one before it within the cooldown, or within the clock hour of the first of their block.
      */
  predicate Joins(first: Trigger, before: Trigger, t: Trigger) {
    || t.now - before.now <= t.rule.cooldown * 60_000_000
    || t.now / 3_600_000_000 == first.now / 3_600_000_000
  }

  /** The alert shows the first trigger of its block as what opened it and the last as what it heard last. */
  predicate Shows(a: Alert, block: seq<Trigger>) {
    && block != []
    && var first, last := block[0], block[|block| - 1];
       && a.key == Key(first.rule.tenant, first.rule.id, first.candidate.entityType, first.candidate.entityId)
       && a.severity == first.rule.severity && a.title == first.candidate.title && a.first == first.now
       && a.last == last.now && a.payload == last.candidate.payload && a.occurrences == |block|
       && a.fingerprint.hour == first.now / 3_600_000_000
  }

  function Joined(blocks: seq<seq<Trigger>>): seq<Trigger> {
    if blocks == [] then [] else Joined(blocks[..|blocks| - 1]) + blocks[|blocks| - 1]
  }

  /** Inside a block each trigger joins it. */
  predicate Holds(block: seq<Trigger>) {
    block != [] && forall j :: 0 < j < |block| ==> Joins(block[0], block[j - 1], block[j])
  }

  /** The next block begins with a trigger that does not. */
  predicate Parts(block: seq<Trigger>, next: seq<Trigger>) {
    block != [] && next != [] && !Joins(block[0], block[|block| - 1], next[0])
  }

  ghost predicate AreBlocks(alerts: seq<Alert>, blocks: seq<seq<Trigger>>) {
    && |blocks| == |alerts|
    && (forall i :: 0 <= i < |alerts| ==> Shows(alerts[i], blocks[i]) && Holds(blocks[i]))
    && (forall i :: 0 < i < |blocks| ==> Parts(blocks[i - 1], blocks[i]))
  }

  lemma FreshShows(t: Trigger)
    ensures Shows(Fresh(t), [t])
  {
    hide HashedText;
  }

  lemma AgainShows(a: Alert, block: seq<Trigger>, t: Trigger)
    requires Shows(a, block)
    ensures Shows(Again(a, t), block + [t])
    ensures Continues(a, t) <==> Joins(block[0], block[|block| - 1], t)
  {
  }

  lemma MoreHolds(block: seq<Trigger>, t: Trigger)
    requires Holds(block) && Joins(block[0], block[|block| - 1], t)
    ensures Holds(block + [t])
  {
    hide Joins;
    var more := block + [t];
    forall j | 0 < j < |more| ensures Joins(more[0], more[j - 1], more[j]) {
      assert j < |block| ==> more[j] == block[j];
    }
  }

  lemma LongerBlock(alerts: seq<Alert>, blocks: seq<seq<Trigger>>, t: Trigger)
    requires AreBlocks(alerts, blocks) && alerts != []
    requires Continues(alerts[|alerts| - 1], t)
    ensures
      var n := |alerts| - 1;
      AreBlocks(alerts[n := Again(alerts[n], t)], blocks[n := blocks[n] + [t]])
    ensures
      var n := |alerts| - 1;
      Joined(blocks[n := blocks[n] + [t]]) == Joined(blocks) + [t]
  {
    hide Shows, Holds, Joins, Continues, Again;
    var n := |alerts| - 1;
    assert Shows(alerts[n], blocks[n]) && Holds(blocks[n]);
    ShowsSome(alerts[n], blocks[n]);
    AgainShows(alerts[n], blocks[n], t);
    MoreHolds(blocks[n], t);
    assert blocks[n := blocks[n] + [t]][..n] == blocks[..n];
  }

  lemma ShowsSome(a: Alert, block: seq<Trigger>)
    requires Shows(a, block)
    ensures block != []
  {
  }

  lemma HoldsOne(t: Trigger)
    ensures Holds([t])
  {
  }

  lemma PartsBefore(block: seq<Trigger>, t: Trigger)
    requires block != [] && !Joins(block[0], block[|block| - 1], t)
    ensures Parts(block, [t])
  {
  }

  lemma NewBlock(alerts: seq<Alert>, blocks: seq<seq<Trigger>>, t: Trigger)
    requires AreBlocks(alerts, blocks)
    requires alerts != [] ==> !Continues(alerts[|alerts| - 1], t)
    ensures AreBlocks(alerts + [Fresh(t)], blocks + [[t]])
    ensures Joined(blocks + [[t]]) == Joined(blocks) + [t]
  {
    hide Shows, Joins, Continues, Fresh, Holds, Parts;
    FreshShows(t);
    HoldsOne(t);
    if alerts != [] {
      var n := |alerts| - 1;
      assert Shows(alerts[n], blocks[n]);
      ShowsSome(alerts[n], blocks[n]);
      AgainShows(alerts[n], blocks[n], t);
      PartsBefore(blocks[n], t);
    }
    assert (blocks + [[t]])[..|blocks|] == blocks;
  }

  lemma {:induction false} GroupedBlocks(ts: seq<Trigger>) returns (blocks: seq<seq<Trigger>>)
    ensures AreBlocks(Grouped(ts), blocks) && Joined(blocks) == ts
  {
    hide AreBlocks, Continues, Joined;
    if ts == [] {
      blocks := [];
      assert AreBlocks([], []) && Joined([]) == [] by { NoBlocks(); }
    } else {
      var front, t := ts[..|ts| - 1], ts[|ts| - 1];
      var before := GroupedBlocks(front);
      SameCount(Grouped(front), before);
      var chain, n := Grouped(front), |before| - 1;
      if n >= 0 && Continues(chain[n], t) {
        LongerBlock(chain, before, t);
        blocks := before[n := before[n] + [t]];
      } else {
        NewBlock(chain, before, t);
        blocks := before + [[t]];
      }
      assert front + [t] == ts;
    }
  }

  lemma SameCount(alerts: seq<Alert>, blocks: seq<seq<Trigger>>)
    requires AreBlocks(alerts, blocks)
    ensures |blocks| == |alerts|
  {
  }

  lemma NoBlocks()
    ensures AreBlocks([], []) && Joined([]) == []
  {
  }

  /** The alerts of a key that keeps its severity and shares no hashed text stand for its triggers, block by block:
      each shows who it is about, how severe, what opened it and when, and what it heard last and when, and counts its
      block. */
  lemma AlertsShowBlocks(labels: iset<Label>, ts: seq<Trigger>, k: Key, severity: string)
    returns (blocks: seq<seq<Trigger>>)
    requires Unshared(labels) && ClockOrdered(ts) && Labelled(ts, labels) && Settled(ts, k, severity, 0)
    ensures AreBlocks(AlertsOf(Run(ts), k), blocks) && Joined(blocks) == TriggersFor(ts, k)
  {
    hide Run, AreBlocks, Grouped, AlertsOf, TriggersFor;
    AlertsAreGroupedTriggers(labels, ts, k, severity, 0);
    blocks := GroupedBlocks(TriggersFor(ts, k));
  }

  // ---------------------------------------------------------------- the triggers of an evaluation

  datatype Place = Place(rule: nat, candidate: nat)

  /** Rules of a supported kind trigger, once for each candidate, with the rule and the time of the evaluation. */
  predicate Makes(rules: seq<RuleResult>, now: nat, at: Place, t: Trigger) {
    && at.rule < |rules| && at.candidate < |rules[at.rule].candidates|
    && rules[at.rule].rule.trigger in
       {"ioc_sighting", "agent_stale", "kev_exposure", "ransomware_relevance", "feed_degraded"}
    && t == Trigger(rules[at.rule].rule, rules[at.rule].candidates[at.candidate], now)
  }

  predicate Precedes(a: Place, b: Place) {
    a.rule < b.rule || (a.rule == b.rule && a.candidate < b.candidate)
  }

  ghost predicate AreMade(rules: seq<RuleResult>, now: nat, ts: seq<Trigger>, at: seq<Place>) {
    && |at| == |ts| && (forall i :: 0 <= i < |ts| ==> Makes(rules, now, at[i], ts[i]))
    && (forall i, j :: 0 <= i < j < |ts| ==> Precedes(at[i], at[j]))
    && forall p, t :: Makes(rules, now, p, t) ==> p in at
  }

  function Places(n: nat, i: nat): seq<Place> {
    seq(n, j requires 0 <= j < n => Place(i, j))
  }

  lemma OneMoreRule(rules: seq<RuleResult>, r: RuleResult, now: nat, ts: seq<Trigger>, at: seq<Place>)
    requires AreMade(rules, now, ts, at)
    ensures r.rule.trigger in SUPPORTED_TRIGGERS ==>
      AreMade(rules + [r], now, ts + TriggersOfRule(r, now), at + Places(|r.candidates|, |rules|))
    ensures r.rule.trigger !in SUPPORTED_TRIGGERS ==> AreMade(rules + [r], now, ts, at)
  {
    var all, n := rules + [r], |rules|;
    assert all[n] == r && forall i :: 0 <= i < n ==> all[i] == rules[i];
    var more := Places(|r.candidates|, n);
    forall p, t | Makes(all, now, p, t)
      ensures if p.rule < n then p in at else p in more && r.rule.trigger in SUPPORTED_TRIGGERS
    {
      if p.rule < n {
        assert Makes(rules, now, p, t);
      } else {
        assert more[p.candidate] == p;
      }
    }
  }

  /** An evaluation triggers for every candidate of every supported rule, in the order of the rules and of their
      candidates, and for nothing else. */
  lemma {:induction false} TriggersAreMade(rules: seq<RuleResult>, now: nat) returns (at: seq<Place>)
    ensures AreMade(rules, now, TriggersOf(rules, now), at)
  {
    hide AreMade, TriggersOfRule;
    if rules == [] {
      at := [];
      assert AreMade([], now, [], []) by { NoneMade(now); }
    } else {
      var front, r := rules[..|rules| - 1], rules[|rules| - 1];
      var before := TriggersAreMade(front, now);
      OneMoreRule(front, r, now, TriggersOf(front, now), before);
      assert front + [r] == rules;
      at := if r.rule.trigger in SUPPORTED_TRIGGERS then before + Places(|r.candidates|, |front|) else before;
    }
  }

  lemma NoneMade(now: nat)
    ensures AreMade([], now, [], [])
  {
  }
}
