/** Aggregation of rule triggers into alerts by the evaluation worker (app/workers/alert_evaluation.py), with the hourly
    fingerprint of app/services/alerting.py. Clocks count microseconds. */
module AlertAggregation {
  import opened Options
  import opened Sequences

  const MINUTE := 60_000_000
  const HOUR := 60 * MINUTE
  const SUPPORTED_TRIGGERS := {"ioc_sighting", "agent_stale", "kev_exposure", "ransomware_relevance", "feed_degraded"}

  /** The cooldown is in minutes. */
  datatype Rule = Rule(tenant: string, id: string, trigger: string, severity: string, cooldown: nat)

  datatype Candidate = Candidate(title: string, entityType: string, entityId: string, payload: string)

  /** One candidate of one rule, at the time of the evaluation. */
  datatype Trigger = Trigger(rule: Rule, candidate: Candidate, now: nat)

  datatype Key = Key(tenant: string, rule: string, entityType: string, entityId: string)

  /** The hash and the printed hour are taken as injective: what is hashed is kept as it is. */
  datatype Fingerprint = Fingerprint(text: string, hour: nat)

  datatype Alert = Alert(
    key: Key, severity: string, fingerprint: Fingerprint, title: string, first: nat, last: nat, occurrences: nat,
    payload: string)

  function Hour(now: nat): nat {
    now / HOUR
  }

  function HashedText(k: Key, severity: string): string {
    k.tenant + "|" + (k.rule + "|" + (k.entityType + "|" + k.entityId + "|" + severity))
  }

  function AlertFingerprint(k: Key, severity: string, bucket: nat): Fingerprint {
    Fingerprint(HashedText(k, severity), Hour(bucket))
  }

  function KeyOf(t: Trigger): Key {
    Key(t.rule.tenant, t.rule.id, t.candidate.entityType, t.candidate.entityId)
  }

  function FingerprintOf(t: Trigger): Fingerprint {
    AlertFingerprint(KeyOf(t), t.rule.severity, t.now)
  }

  function Cutoff(t: Trigger): int {
    t.now - t.rule.cooldown * MINUTE
  }

  function Fresh(t: Trigger): Alert {
    Alert(KeyOf(t), t.rule.severity, FingerprintOf(t), t.candidate.title, t.now, t.now, 1, t.candidate.payload)
  }

  function Again(a: Alert, t: Trigger): Alert {
    a.(occurrences := a.occurrences + 1, last := t.now, payload := t.candidate.payload)
  }

  /** The alert of this key that triggered last, among those triggered since the cutoff. */
  function Active(rows: seq<Alert>, k: Key, cutoff: int): (i: Option<nat>)
    ensures i.Some? ==> i.value < |rows| && rows[i.value].key == k && rows[i.value].last >= cutoff
    ensures forall j :: 0 <= j < |rows| && rows[j].key == k && rows[j].last >= cutoff ==>
              i.Some? && rows[j].last <= rows[i.value].last
  {
    if rows == [] then None else
      var n := |rows| - 1;
      var best := Active(rows[..n], k, cutoff);
      if rows[n].key == k && rows[n].last >= cutoff && (best.None? || rows[n].last > rows[best.value].last)
      then Some(n) else best
  }

  function WithFingerprint(rows: seq<Alert>, f: Fingerprint): (i: Option<nat>)
    ensures i.Some? ==> i.value < |rows| && rows[i.value].fingerprint == f
    ensures i.None? ==> forall j :: 0 <= j < |rows| ==> rows[j].fingerprint != f
  {
    if rows == [] then None else
      var n := |rows| - 1;
      var found := WithFingerprint(rows[..n], f);
      if found.None? && rows[n].fingerprint == f then Some(n) else found
  }

  /** The row a trigger is counted on, if the table already holds one. */
  function Target(rows: seq<Alert>, t: Trigger): (i: Option<nat>)
    ensures i.Some? ==> i.value < |rows|
  {
    var active := Active(rows, KeyOf(t), Cutoff(t));
    if active.Some? then active else WithFingerprint(rows, FingerprintOf(t))
  }

  function Step(rows: seq<Alert>, t: Trigger): seq<Alert> {
    var i := Target(rows, t);
    if i.Some? then rows[i.value := Again(rows[i.value], t)] else rows + [Fresh(t)]
  }

  function RunFrom(rows: seq<Alert>, ts: seq<Trigger>): seq<Alert> {
    if ts == [] then rows else Step(RunFrom(rows, ts[..|ts| - 1]), ts[|ts| - 1])
  }

  function Run(ts: seq<Trigger>): seq<Alert> {
    RunFrom([], ts)
  }

  // ---------------------------------------------------------------- the worker

  /** An enabled rule with the candidates its query finds. */
  datatype RuleResult = RuleResult(rule: Rule, candidates: seq<Candidate>)

  function TriggersOfRule(r: RuleResult, now: nat): seq<Trigger> {
    seq(|r.candidates|, i requires 0 <= i < |r.candidates| => Trigger(r.rule, r.candidates[i], now))
  }

  function TriggersOf(rules: seq<RuleResult>, now: nat): seq<Trigger> {
    if rules == [] then [] else
      var front, r := TriggersOf(rules[..|rules| - 1], now), rules[|rules| - 1];
      if r.rule.trigger in SUPPORTED_TRIGGERS then front + TriggersOfRule(r, now) else front
  }

  lemma RunFromPush(rows: seq<Alert>, ts: seq<Trigger>, t: Trigger)
    ensures RunFrom(rows, ts + [t]) == Step(RunFrom(rows, ts), t)
  {
    assert (ts + [t])[..|ts|] == ts;
  }

  class AlertEvaluationWorker {
    var rows: seq<Alert>

    constructor ()
      ensures rows == []
    {
      rows := [];
    }

    method FindActive(k: Key, cutoff: int) returns (best: Option<nat>)
      ensures best == Active(rows, k, cutoff)
    {
      best := None;
      var i := 0;
      while i < |rows|
        invariant 0 <= i <= |rows|
        invariant best == Active(rows[..i], k, cutoff)
      {
        assert rows[..i + 1][..i] == rows[..i];
        if rows[i].key == k && rows[i].last >= cutoff && (best.None? || rows[i].last > rows[best.value].last) {
          best := Some(i);
        }
        i := i + 1;
      }
      assert rows[..i] == rows;
    }

    method FindFingerprint(f: Fingerprint) returns (found: Option<nat>)
      ensures found == WithFingerprint(rows, f)
    {
      found := None;
      var i := 0;
      while i < |rows|
        invariant 0 <= i <= |rows|
        invariant found == WithFingerprint(rows[..i], f)
      {
        assert rows[..i + 1][..i] == rows[..i];
        if found.None? && rows[i].fingerprint == f {
          found := Some(i);
        }
        i := i + 1;
      }
      assert rows[..i] == rows;
    }

    method Aggregate(t: Trigger)
      modifies this
      ensures rows == Step(old(rows), t)
    {
      var active := FindActive(KeyOf(t), Cutoff(t));
      if active.Some? {
        rows := rows[active.value := Again(rows[active.value], t)];
      } else {
        // the insert fails on the unique fingerprint if a row already carries it
        var existing := FindFingerprint(FingerprintOf(t));
        if existing.Some? {
          rows := rows[existing.value := Again(rows[existing.value], t)];
        } else {
          rows := rows + [Fresh(t)];
        }
      }
    }

    method Evaluate(rules: seq<RuleResult>, now: nat) returns (emitted: nat)
      modifies this
      ensures rows == RunFrom(old(rows), TriggersOf(rules, now))
      ensures emitted == |TriggersOf(rules, now)|
    {
      hide Step;
      emitted := 0;
      ghost var before, done := rows, [];
      var i := 0;
      while i < |rules|
        invariant 0 <= i <= |rules|
        invariant done == TriggersOf(rules[..i], now)
        invariant rows == RunFrom(before, done) && emitted == |done|
      {
        assert rules[..i + 1][..i] == rules[..i];
        var r := rules[i];
        if r.rule.trigger in SUPPORTED_TRIGGERS {
          ghost var earlier, all := done, TriggersOfRule(r, now);
          assert all[..0] == [];
          var j := 0;
          while j < |r.candidates|
            invariant 0 <= j <= |r.candidates|
            invariant done == earlier + all[..j]
            invariant rows == RunFrom(before, done) && emitted == |done|
          {
            RunFromPush(before, done, all[j]);
            assert all[..j + 1] == all[..j] + [all[j]];
            Aggregate(Trigger(r.rule, r.candidates[j], now));
            done := done + [all[j]];
            emitted, j := emitted + 1, j + 1;
          }
          assert all[..j] == all;
        }
        i := i + 1;
      }
      assert rules[..i] == rules;
    }
  }

  // ---------------------------------------------------------------- fingerprints

  /** Identifiers and severities hold no separator; entity types and entity ids may. */
  predicate Unmarked(k: Key, severity: string) {
    '|' !in k.tenant && '|' !in k.rule && '|' !in severity
  }

  /** Two alerts share a fingerprint exactly when they agree on tenant, rule, severity and hour, and their entities
      read the same once joined. */
  lemma FingerprintsAgreeExactly(a: Key, s: string, m: nat, b: Key, t: string, n: nat)
    requires Unmarked(a, s) && Unmarked(b, t)
    ensures AlertFingerprint(a, s, m) == AlertFingerprint(b, t, n) <==>
      (a.tenant == b.tenant && a.rule == b.rule && s == t && Hour(m) == Hour(n)
       && a.entityType + "|" + a.entityId == b.entityType + "|" + b.entityId)
  {
    hide Hour;
    if AlertFingerprint(a, s, m) == AlertFingerprint(b, t, n) {
      var x, y := a.entityType + "|" + a.entityId, b.entityType + "|" + b.entityId;
      SplitAtFirst(a.tenant, a.rule + "|" + (x + "|" + s), b.tenant, b.rule + "|" + (y + "|" + t), '|');
      SplitAtFirst(a.rule, x + "|" + s, b.rule, y + "|" + t, '|');
      SplitAtLast(x, s, y, t, '|');
    }
  }

  /** For one key the text tells the severity. */
  lemma TextTellsSeverity(k: Key, s: string, t: string)
    requires HashedText(k, s) == HashedText(k, t)
    ensures s == t
  {
    var text := HashedText(k, s);
    assert |s| == |t|;
    assert s == text[|text| - |s|..] && t == text[|text| - |t|..];
  }

  /** Where entity types hold no separator either, a fingerprint has one owner. */
  lemma FingerprintInjective(a: Key, s: string, m: nat, b: Key, t: string, n: nat)
    requires Unmarked(a, s) && Unmarked(b, t) && '|' !in a.entityType && '|' !in b.entityType
    requires AlertFingerprint(a, s, m) == AlertFingerprint(b, t, n)
    ensures a == b && s == t && Hour(m) == Hour(n)
  {
    hide AlertFingerprint, Hour;
    FingerprintsAgreeExactly(a, s, m, b, t, n);
    SplitAtFirst(a.entityType, a.entityId, b.entityType, b.entityId, '|');
  }

  /** Otherwise entities that share a fingerprint share an alert: the trigger of the one is counted on the other's
      row. */
  lemma SharedFingerprintMergesEntities(a: Trigger, b: Trigger)
    requires FingerprintOf(a) == FingerprintOf(b) && KeyOf(a) != KeyOf(b)
    ensures Run([a, b]) == [Again(Fresh(a), b)]
  {
    hide AlertFingerprint;
    RunFromPush([], [], a);
    RunFromPush([], [a], b);
    assert [] + [a] == [a] && [a] + [b] == [a, b];
    assert Run([a]) == [Fresh(a)];
  }

  lemma SharedFingerprintHappens(rule: Rule, now: nat)
    ensures
      var a := Trigger(rule, Candidate("t", "host", "a|b", "p"), now);
      var b := Trigger(rule, Candidate("t", "host|a", "b", "p"), now);
      FingerprintOf(a) == FingerprintOf(b) && KeyOf(a) != KeyOf(b)
  {
    var severity := rule.severity;
    assert "host" + "|" + "a|b" + "|" + severity == "host|a" + "|" + "b" + "|" + severity;
    assert |"host"| != |"host|a"|;
  }
}
