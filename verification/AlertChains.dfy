/** What the alert table looks like after any run of the evaluation worker: for each rule and entity a chain of alerts,
    decided by that entity's own triggers alone. */
module AlertChains {
  import opened Options
  import opened Sequences
  import opened AlertAggregation

  function HasKey(k: Key): Alert -> bool {
    (a: Alert) => a.key == k
  }

  function TriggersKey(k: Key): Trigger -> bool {
    (t: Trigger) => KeyOf(t) == k
  }

  function AlertsOf(rows: seq<Alert>, k: Key): seq<Alert> {
    Filter(HasKey(k), rows)
  }

  function TriggersFor(ts: seq<Trigger>, k: Key): seq<Trigger> {
    Filter(TriggersKey(k), ts)
  }

  /** A trigger continues an alert within the cooldown of its last trigger, or within the hour it was opened. */
  predicate Continues(a: Alert, t: Trigger) {
    t.now - a.last <= t.rule.cooldown * MINUTE || Hour(t.now) == Hour(a.first)
  }

  /** The chain of one entity, with no table, no lookup and no fingerprint. */
  function Grouped(ts: seq<Trigger>): seq<Alert> {
    if ts == [] then [] else
      var chain, t := Grouped(ts[..|ts| - 1]), ts[|ts| - 1];
      var n := |chain| - 1;
      if n >= 0 && Continues(chain[n], t) then chain[n := Again(chain[n], t)] else chain + [Fresh(t)]
  }

  ghost predicate ClockOrdered(ts: seq<Trigger>) {
    forall i, j :: 0 <= i < j < |ts| ==> ts[i].now <= ts[j].now
  }

  /** What a trigger contributes to the hashed text of its alert. */
  datatype Label = Label(key: Key, severity: string)

  function LabelOf(t: Trigger): Label {
    Label(KeyOf(t), t.rule.severity)
  }

  function TextOf(l: Label): string {
    HashedText(l.key, l.severity)
  }

  /** No two keys read the same once they are joined for the hash. */
  ghost predicate Unshared(labels: iset<Label>) {
    forall l, m :: l in labels && m in labels && TextOf(l) == TextOf(m) ==> l.key == m.key
  }

  ghost predicate Labelled(ts: seq<Trigger>, labels: iset<Label>) {
    forall i :: 0 <= i < |ts| ==> LabelOf(ts[i]) in labels
  }

  /** The rule of this key keeps its severity, and its cooldown stays at this one or above. */
  ghost predicate Settled(ts: seq<Trigger>, k: Key, severity: string, cooldown: nat) {
    forall i :: 0 <= i < |ts| && KeyOf(ts[i]) == k ==>
      ts[i].rule.severity == severity && ts[i].rule.cooldown >= cooldown
  }

  // ---------------------------------------------------------------- the invariant

  ghost predicate Stamp(a: Alert, labels: iset<Label>) {
    Label(a.key, a.severity) in labels && a.fingerprint == AlertFingerprint(a.key, a.severity, a.first)
  }

  ghost predicate Stamped(rows: seq<Alert>, labels: iset<Label>) {
    forall i :: 0 <= i < |rows| ==> Stamp(rows[i], labels)
  }

  predicate Before(a: Alert, b: Alert, cooldown: nat) {
    a.last + cooldown * MINUTE < b.first && Hour(a.first) < Hour(b.first)
  }

  predicate InTime(a: Alert, severity: string, now: nat) {
    a.severity == severity && a.first <= a.last <= now
  }

  ghost predicate Chain(rows: seq<Alert>, k: Key, severity: string, cooldown: nat, now: nat) {
    && (forall i :: 0 <= i < |rows| && rows[i].key == k ==> InTime(rows[i], severity, now))
    && (forall i, j :: 0 <= i < j < |rows| && rows[i].key == k && rows[j].key == k ==>
          Before(rows[i], rows[j], cooldown))
  }

  ghost predicate Newest(rows: seq<Alert>, k: Key, i: nat) {
    i < |rows| && rows[i].key == k && forall j :: i < j < |rows| ==> rows[j].key != k
  }

  lemma HourGrows(a: nat, b: nat)
    requires a <= b
    ensures Hour(a) <= Hour(b)
  {
  }

  lemma SameOwner(labels: iset<Label>, a: Alert, t: Trigger)
    requires Unshared(labels) && Stamp(a, labels) && LabelOf(t) in labels && a.fingerprint == FingerprintOf(t)
    ensures a.key == KeyOf(t) && a.severity == t.rule.severity && Hour(a.first) == Hour(t.now)
  {
    hide HashedText, Hour;
    assert TextOf(Label(a.key, a.severity)) == TextOf(LabelOf(t));
    TextTellsSeverity(a.key, a.severity, t.rule.severity);
  }

  lemma FreshIsStamped(labels: iset<Label>, t: Trigger)
    requires LabelOf(t) in labels
    ensures Stamp(Fresh(t), labels)
  {
    hide AlertFingerprint, Hour;
  }

  lemma SameHourSameFingerprint(labels: iset<Label>, a: Alert, t: Trigger)
    requires Stamp(a, labels) && a.key == KeyOf(t) && a.severity == t.rule.severity && Hour(a.first) == Hour(t.now)
    ensures a.fingerprint == FingerprintOf(t)
  {
    hide Hour;
  }

  // ---------------------------------------------------------------- one trigger

  lemma LaterTriggersLater(rows: seq<Alert>, k: Key, severity: string, cooldown: nat, now: nat, i: nat, j: nat)
    requires Chain(rows, k, severity, cooldown, now)
    requires i < j < |rows| && rows[i].key == k && rows[j].key == k
    ensures rows[i].last < rows[j].last
  {
    assert Before(rows[i], rows[j], cooldown) && InTime(rows[j], severity, now);
  }

  lemma ActiveIsNewest(rows: seq<Alert>, k: Key, severity: string, cooldown: nat, now: nat, cutoff: int, i: nat)
    requires Chain(rows, k, severity, cooldown, now) && Active(rows, k, cutoff) == Some(i)
    ensures Newest(rows, k, i)
  {
    hide Active, Hour, Chain;
    forall j | i < j < |rows| && rows[j].key == k ensures rows[i].last < rows[j].last {
      LaterTriggersLater(rows, k, severity, cooldown, now, i, j);
    }
  }

  lemma SameHourIsNewest(rows: seq<Alert>, k: Key, severity: string, cooldown: nat, now: nat, i: nat)
    requires Chain(rows, k, severity, cooldown, now)
    requires i < |rows| && rows[i].key == k && Hour(rows[i].first) == Hour(now)
    ensures Newest(rows, k, i)
  {
    hide Hour;
    forall j | i < j < |rows| && rows[j].key == k ensures false {
      assert Before(rows[i], rows[j], cooldown) && InTime(rows[j], severity, now);
      HourGrows(rows[j].first, now);
    }
  }

  /** A trigger that is counted on a stored alert is counted on the newest of its key, which it continues. */
  lemma TargetIsNewest(labels: iset<Label>, rows: seq<Alert>, t: Trigger, i: nat, severity: string, cooldown: nat)
    requires Unshared(labels) && Stamped(rows, labels) && Chain(rows, KeyOf(t), severity, cooldown, t.now)
    requires LabelOf(t) in labels && Target(rows, t) == Some(i)
    ensures Newest(rows, KeyOf(t), i) && Continues(rows[i], t)
  {
    hide Chain, Newest, Active, WithFingerprint, AlertFingerprint, Hour;
    if Active(rows, KeyOf(t), Cutoff(t)).Some? {
      ActiveIsNewest(rows, KeyOf(t), severity, cooldown, t.now, Cutoff(t), i);
    } else {
      SameOwner(labels, rows[i], t);
      SameHourIsNewest(rows, KeyOf(t), severity, cooldown, t.now, i);
    }
  }

  /** A trigger that opens an alert continues none of its key. */
  lemma NoTargetNoneContinued(labels: iset<Label>, rows: seq<Alert>, t: Trigger, i: nat, cooldown: nat)
    requires Stamped(rows, labels) && Chain(rows, KeyOf(t), t.rule.severity, cooldown, t.now)
    requires t.rule.cooldown >= cooldown
    requires Target(rows, t) == None && i < |rows| && rows[i].key == KeyOf(t)
    ensures !Continues(rows[i], t) && Before(rows[i], Fresh(t), cooldown)
  {
    hide Active, WithFingerprint, AlertFingerprint, Hour;
    assert rows[i].last < Cutoff(t);
    if Hour(rows[i].first) == Hour(t.now) {
      SameHourSameFingerprint(labels, rows[i], t);
      assert false;
    }
    HourGrows(rows[i].first, t.now);
  }

  /** No trigger touches an alert of another key. */
  lemma TargetHasKey(labels: iset<Label>, rows: seq<Alert>, t: Trigger, i: nat)
    requires Unshared(labels) && Stamped(rows, labels) && LabelOf(t) in labels && Target(rows, t) == Some(i)
    ensures rows[i].key == KeyOf(t)
  {
    hide Active, WithFingerprint, AlertFingerprint, Hour;
    if Active(rows, KeyOf(t), Cutoff(t)).None? {
      SameOwner(labels, rows[i], t);
    }
  }

  lemma StepKeepsStamps(labels: iset<Label>, rows: seq<Alert>, t: Trigger)
    requires Stamped(rows, labels) && LabelOf(t) in labels
    ensures Stamped(Step(rows, t), labels)
  {
    hide Target, AlertFingerprint, Hour;
    FreshIsStamped(labels, t);
    var i := Target(rows, t);
    if i.Some? {
      assert Stamp(rows[i.value], labels);
      assert Stamp(Again(rows[i.value], t), labels);
    }
  }

  lemma ChainLater(rows: seq<Alert>, k: Key, severity: string, cooldown: nat, now: nat, later: nat)
    requires Chain(rows, k, severity, cooldown, now) && now <= later
    ensures Chain(rows, k, severity, cooldown, later)
  {
    hide Before;
  }

  lemma AgainKeepsChain(rows: seq<Alert>, t: Trigger, i: nat, severity: string, cooldown: nat)
    requires Chain(rows, KeyOf(t), severity, cooldown, t.now) && Newest(rows, KeyOf(t), i)
    ensures Chain(rows[i := Again(rows[i], t)], KeyOf(t), severity, cooldown, t.now)
  {
    hide Hour;
  }

  lemma FreshKeepsChain(rows: seq<Alert>, t: Trigger, cooldown: nat)
    requires Chain(rows, KeyOf(t), t.rule.severity, cooldown, t.now)
    requires forall i :: 0 <= i < |rows| && rows[i].key == KeyOf(t) ==> Before(rows[i], Fresh(t), cooldown)
    ensures Chain(rows + [Fresh(t)], KeyOf(t), t.rule.severity, cooldown, t.now)
  {
    hide Hour, AlertFingerprint, Before;
  }

  lemma StepKeepsChain(labels: iset<Label>, rows: seq<Alert>, t: Trigger, cooldown: nat)
    requires Unshared(labels) && Stamped(rows, labels) && Chain(rows, KeyOf(t), t.rule.severity, cooldown, t.now)
    requires LabelOf(t) in labels && t.rule.cooldown >= cooldown
    ensures Chain(Step(rows, t), KeyOf(t), t.rule.severity, cooldown, t.now)
  {
    hide Target, AlertFingerprint, Hour, Chain, Newest, Before, Fresh, Again;
    var i := Target(rows, t);
    if i.Some? {
      TargetIsNewest(labels, rows, t, i.value, t.rule.severity, cooldown);
      AgainKeepsChain(rows, t, i.value, t.rule.severity, cooldown);
    } else {
      forall j | 0 <= j < |rows| && rows[j].key == KeyOf(t) ensures Before(rows[j], Fresh(t), cooldown) {
        NoTargetNoneContinued(labels, rows, t, j, cooldown);
      }
      FreshKeepsChain(rows, t, cooldown);
    }
  }

  lemma OtherStepKeepsChain(
      labels: iset<Label>, rows: seq<Alert>, t: Trigger, k: Key, severity: string, cooldown: nat, now: nat)
    requires Unshared(labels) && Stamped(rows, labels) && LabelOf(t) in labels && KeyOf(t) != k
    requires Chain(rows, k, severity, cooldown, now)
    ensures Chain(Step(rows, t), k, severity, cooldown, now)
    ensures AlertsOf(Step(rows, t), k) == AlertsOf(rows, k)
  {
    hide Target, AlertFingerprint, Hour, Before, InTime, Filter;
    var i := Target(rows, t);
    if i.Some? {
      TargetHasKey(labels, rows, t, i.value);
      FilterReplaceDropped(HasKey(k), rows, i.value, Again(rows[i.value], t));
    } else {
      FilterPush(HasKey(k), rows, Fresh(t));
    }
  }

  /** A step extends the chain of its key as the trigger alone decides. */
  lemma StepGroups(labels: iset<Label>, rows: seq<Alert>, ts: seq<Trigger>, t: Trigger, cooldown: nat)
    requires Unshared(labels) && Stamped(rows, labels) && Chain(rows, KeyOf(t), t.rule.severity, cooldown, t.now)
    requires LabelOf(t) in labels && t.rule.cooldown >= cooldown
    requires AlertsOf(rows, KeyOf(t)) == Grouped(ts)
    ensures AlertsOf(Step(rows, t), KeyOf(t)) == Grouped(ts + [t])
  {
    hide Target, AlertFingerprint, Hour, Chain, Stamped, Filter, Continues, Before;
    assert (ts + [t])[..|ts|] == ts;
    var k, i := KeyOf(t), Target(rows, t);
    if i.Some? {
      TargetIsNewest(labels, rows, t, i.value, t.rule.severity, cooldown);
      FilterReplaceNewest(HasKey(k), rows, i.value, Again(rows[i.value], t));
    } else {
      FilterPush(HasKey(k), rows, Fresh(t));
      FilterElements(HasKey(k), rows);
      var chain := Grouped(ts);
      if chain != [] {
        assert chain[|chain| - 1] in rows;
        var j :| 0 <= j < |rows| && rows[j] == chain[|chain| - 1];
        NoTargetNoneContinued(labels, rows, t, j, cooldown);
      }
    }
  }

  // ---------------------------------------------------------------- whole runs

  function ClockAfter(ts: seq<Trigger>): nat {
    if ts == [] then 0 else ts[|ts| - 1].now
  }

  ghost predicate Hypotheses(labels: iset<Label>, ts: seq<Trigger>, k: Key, severity: string, cooldown: nat) {
    && Unshared(labels) && Labelled(ts, labels)
    && ClockOrdered(ts) && Settled(ts, k, severity, cooldown)
  }

  lemma RunInvariant(labels: iset<Label>, ts: seq<Trigger>, k: Key, severity: string, cooldown: nat)
    requires Hypotheses(labels, ts, k, severity, cooldown)
    ensures Stamped(Run(ts), labels) && Chain(Run(ts), k, severity, cooldown, ClockAfter(ts))
    ensures AlertsOf(Run(ts), k) == Grouped(TriggersFor(ts, k))
  {
    hide Step, Chain, Stamped;
    if ts == [] {
      EmptyTable(labels, k, severity, cooldown);
    } else {
      var front, t := ts[..|ts| - 1], ts[|ts| - 1];
      RunInvariant(labels, front, k, severity, cooldown);
      var rows := Run(front);
      ChainLater(rows, k, severity, cooldown, ClockAfter(front), t.now);
      StepKeepsStamps(labels, rows, t);
      FilterPush(TriggersKey(k), front, t);
      assert ts == front + [t];
      if KeyOf(t) == k {
        StepKeepsChain(labels, rows, t, cooldown);
        StepGroups(labels, rows, TriggersFor(front, k), t, cooldown);
      } else {
        OtherStepKeepsChain(labels, rows, t, k, severity, cooldown, t.now);
      }
    }
  }

  lemma EmptyTable(labels: iset<Label>, k: Key, severity: string, cooldown: nat)
    ensures Stamped([], labels) && Chain([], k, severity, cooldown, 0)
  {
  }

  /** The alerts of a key are the grouping of its own triggers, whatever else the worker evaluated in between. */
  lemma AlertsAreGroupedTriggers(labels: iset<Label>, ts: seq<Trigger>, k: Key, severity: string, cooldown: nat)
    requires Unshared(labels) && ClockOrdered(ts) && Labelled(ts, labels) && Settled(ts, k, severity, cooldown)
    ensures AlertsOf(Run(ts), k) == Grouped(TriggersFor(ts, k))
  {
    RunInvariant(labels, ts, k, severity, cooldown);
  }

  /** The alerts of a key form a chain: disjoint intervals more than a cooldown apart, no two opened in one hour. */
  lemma AlertsFormChain(labels: iset<Label>, ts: seq<Trigger>, k: Key, severity: string, cooldown: nat, i: nat, j: nat)
    requires Unshared(labels) && ClockOrdered(ts) && Labelled(ts, labels) && Settled(ts, k, severity, cooldown)
    requires i < j < |Run(ts)| && Run(ts)[i].key == k && Run(ts)[j].key == k
    ensures
      var a, b := Run(ts)[i], Run(ts)[j];
      a.first <= a.last && a.last + cooldown * MINUTE < b.first <= b.last && Hour(a.first) < Hour(b.first)
  {
    hide Run;
    RunInvariant(labels, ts, k, severity, cooldown);
    assert Before(Run(ts)[i], Run(ts)[j], cooldown);
  }

  /** One more trigger changes at most one stored alert: the newest of its own key. */
  lemma OnlyNewestChanges(labels: iset<Label>, ts: seq<Trigger>, t: Trigger, i: nat)
    requires Unshared(labels) && ClockOrdered(ts + [t]) && Labelled(ts + [t], labels)
    requires Settled(ts, KeyOf(t), t.rule.severity, 0)
    requires i < |Run(ts)| && Run(ts + [t])[i] != Run(ts)[i]
    ensures Newest(Run(ts), KeyOf(t), i)
    ensures |Run(ts)| == |Run(ts + [t])| && Run(ts + [t])[i] == Again(Run(ts)[i], t)
  {
    hide Chain, Stamped, Newest, Target, Hour;
    var k := KeyOf(t);
    forall j | 0 <= j < |ts| ensures ts[j].now <= t.now && LabelOf(ts[j]) in labels {
      assert (ts + [t])[j] == ts[j] && (ts + [t])[|ts|] == t;
    }
    assert LabelOf(t) in labels by { assert (ts + [t])[|ts|] == t; }
    assert ClockOrdered(ts);
    RunInvariant(labels, ts, k, t.rule.severity, 0);
    ChainLater(Run(ts), k, t.rule.severity, 0, ClockAfter(ts), t.now);
    RunFromPush([], ts, t);
    var target := Target(Run(ts), t);
    if target.Some? {
      TargetIsNewest(labels, Run(ts), t, target.value, t.rule.severity, 0);
    }
  }

  function Occurrences(alerts: seq<Alert>): nat {
    if alerts == [] then 0 else Occurrences(alerts[..|alerts| - 1]) + alerts[|alerts| - 1].occurrences
  }

  lemma OccurrencesPush(alerts: seq<Alert>, a: Alert)
    ensures Occurrences(alerts + [a]) == Occurrences(alerts) + a.occurrences
  {
    assert (alerts + [a])[..|alerts|] == alerts;
  }

  /** Counting a row of the key once more counts the key once more, whichever of its rows it is. */
  lemma {:induction false} OccurrencesAgain(rows: seq<Alert>, k: Key, i: nat, t: Trigger)
    requires i < |rows| && rows[i].key == k
    ensures Occurrences(AlertsOf(rows[i := Again(rows[i], t)], k)) == Occurrences(AlertsOf(rows, k)) + 1
  {
    var n := |rows| - 1;
    var front, last := rows[..n], rows[n];
    assert rows == front + [last];
    FilterPush(HasKey(k), front, last);
    if i == n {
      assert rows[i := Again(last, t)] == front + [Again(last, t)];
      FilterPush(HasKey(k), front, Again(last, t));
      OccurrencesPush(AlertsOf(front, k), last);
      OccurrencesPush(AlertsOf(front, k), Again(last, t));
    } else {
      OccurrencesAgain(front, k, i, t);
      var after := front[i := Again(front[i], t)];
      assert rows[i := Again(rows[i], t)] == after + [last];
      FilterPush(HasKey(k), after, last);
      if last.key == k {
        OccurrencesPush(AlertsOf(front, k), last);
        OccurrencesPush(AlertsOf(after, k), last);
      }
    }
  }

  lemma StepCounts(labels: iset<Label>, rows: seq<Alert>, t: Trigger, k: Key)
    requires Unshared(labels) && Stamped(rows, labels) && LabelOf(t) in labels
    ensures Occurrences(AlertsOf(Step(rows, t), k)) ==
      Occurrences(AlertsOf(rows, k)) + if KeyOf(t) == k then 1 else 0
  {
    hide Target, AlertFingerprint, Hour, Filter, Occurrences, Stamped;
    var i := Target(rows, t);
    if i.Some? {
      TargetHasKey(labels, rows, t, i.value);
      if KeyOf(t) == k {
        OccurrencesAgain(rows, k, i.value, t);
      } else {
        FilterReplaceDropped(HasKey(k), rows, i.value, Again(rows[i.value], t));
      }
    } else {
      FilterPush(HasKey(k), rows, Fresh(t));
      OccurrencesPush(AlertsOf(rows, k), Fresh(t));
    }
  }

  lemma {:induction false} RunStaysStamped(labels: iset<Label>, ts: seq<Trigger>)
    requires Labelled(ts, labels)
    ensures Stamped(Run(ts), labels)
  {
    hide Step;
    if ts != [] {
      RunStaysStamped(labels, ts[..|ts| - 1]);
      StepKeepsStamps(labels, Run(ts[..|ts| - 1]), ts[|ts| - 1]);
    }
  }

  /** No trigger is lost or counted twice, whatever becomes of severities, cooldowns and the clock. */
  lemma {:induction false} OccurrencesCountTriggers(labels: iset<Label>, ts: seq<Trigger>, k: Key)
    requires Unshared(labels) && Labelled(ts, labels)
    ensures Occurrences(AlertsOf(Run(ts), k)) == |TriggersFor(ts, k)|
  {
    hide Step, Filter, Occurrences;
    if ts == [] {
      NothingCounted(k);
    } else {
      var front, t := ts[..|ts| - 1], ts[|ts| - 1];
      OccurrencesCountTriggers(labels, front, k);
      RunStaysStamped(labels, front);
      StepCounts(labels, Run(front), t, k);
      FilterPush(TriggersKey(k), front, t);
      assert ts == front + [t];
    }
  }

  lemma NothingCounted(k: Key)
    ensures Occurrences(AlertsOf([], k)) == 0 && TriggersFor([], k) == []
  {
  }

  /** Some alert of the key was open at that time. */
  ghost predicate Covered(rows: seq<Alert>, k: Key, now: nat) {
    exists i :: 0 <= i < |rows| && rows[i].key == k && rows[i].first <= now <= rows[i].last
  }

  ghost predicate NoneLater(rows: seq<Alert>, now: nat) {
    forall i :: 0 <= i < |rows| ==> rows[i].first <= rows[i].last <= now
  }

  lemma NoneLaterAfter(rows: seq<Alert>, clock: nat, t: Trigger)
    requires NoneLater(rows, clock) && clock <= t.now
    ensures NoneLater(Step(rows, t), t.now)
  {
    hide Target, AlertFingerprint;
  }

  lemma StepCovers(labels: iset<Label>, rows: seq<Alert>, clock: nat, t: Trigger)
    requires Unshared(labels) && Stamped(rows, labels) && LabelOf(t) in labels
    requires NoneLater(rows, clock) && clock <= t.now
    ensures Covered(Step(rows, t), KeyOf(t), t.now)
  {
    hide Target, AlertFingerprint, Hour, Stamped;
    var i := Target(rows, t);
    if i.Some? {
      TargetHasKey(labels, rows, t, i.value);
      assert Step(rows, t)[i.value] == Again(rows[i.value], t);
    } else {
      assert Step(rows, t)[|rows|] == Fresh(t);
    }
  }

  lemma CoverStays(rows: seq<Alert>, clock: nat, t: Trigger, k: Key, now: nat)
    requires NoneLater(rows, clock) && clock <= t.now && Covered(rows, k, now)
    ensures Covered(Step(rows, t), k, now)
  {
    hide Target, AlertFingerprint;
    var i :| 0 <= i < |rows| && rows[i].key == k && rows[i].first <= now <= rows[i].last;
    var after := Step(rows, t);
    assert after[i].key == k && after[i].first == rows[i].first && rows[i].last <= after[i].last;
  }

  /** Every trigger falls inside an alert of its key, whatever becomes of severities and cooldowns. */
  lemma {:induction false} TriggersAreCovered(labels: iset<Label>, ts: seq<Trigger>)
    requires Unshared(labels) && ClockOrdered(ts) && Labelled(ts, labels)
    ensures NoneLater(Run(ts), ClockAfter(ts))
    ensures forall i :: 0 <= i < |ts| ==> Covered(Run(ts), KeyOf(ts[i]), ts[i].now)
  {
    hide Step, Covered;
    if ts != [] {
      var front, t := ts[..|ts| - 1], ts[|ts| - 1];
      TriggersAreCovered(labels, front);
      RunStaysStamped(labels, front);
      NoneLaterAfter(Run(front), ClockAfter(front), t);
      StepCovers(labels, Run(front), ClockAfter(front), t);
      forall i | 0 <= i < |front| ensures Covered(Run(ts), KeyOf(ts[i]), ts[i].now) {
        assert front[i] == ts[i];
        CoverStays(Run(front), ClockAfter(front), t, KeyOf(ts[i]), ts[i].now);
      }
    }
  }

  lemma {:induction false} LastIsCovered(ts: seq<Trigger>)
    requires ClockOrdered(ts) && ts != []
    ensures
      var chain := Grouped(ts);
      && |chain| > 0 && chain[|chain| - 1].first <= ClockAfter(ts) == chain[|chain| - 1].last
      && chain[|chain| - 1].payload == ts[|ts| - 1].candidate.payload
  {
    hide Continues, Hour;
    var front := ts[..|ts| - 1];
    if front != [] {
      LastIsCovered(front);
    }
  }

  lemma {:induction false} FilterKeepsClock(ts: seq<Trigger>, k: Key)
    requires ClockOrdered(ts)
    ensures ClockOrdered(TriggersFor(ts, k))
  {
    if ts != [] {
      var front, t := ts[..|ts| - 1], ts[|ts| - 1];
      FilterKeepsClock(front, k);
      FilterElements(TriggersKey(k), front);
      var kept := TriggersFor(front, k);
      forall i | 0 <= i < |kept| ensures kept[i].now <= t.now {
        assert kept[i] in front;
      }
    }
  }

  lemma SecondRow(t: Trigger, u: Trigger)
    requires KeyOf(t) == KeyOf(u) && t.rule.severity != u.rule.severity && t.now < Cutoff(u)
    ensures Step([Fresh(t)], u) == [Fresh(t), Fresh(u)]
  {
    hide AlertFingerprint;
    FingerprintsDiffer(t, u);
  }

  lemma ThirdTrigger(t: Trigger, u: Trigger, v: Trigger)
    requires KeyOf(t) == KeyOf(u) == KeyOf(v) && t.now < Cutoff(v) && u.now < Cutoff(v)
    requires FingerprintOf(t) != FingerprintOf(u) && t.rule.severity == v.rule.severity && Hour(t.now) == Hour(v.now)
    ensures Step([Fresh(t), Fresh(u)], v) == [Again(Fresh(t), v), Fresh(u)]
  {
    hide Hour;
    var rows := [Fresh(t), Fresh(u)];
    assert rows[0].fingerprint == FingerprintOf(v) && rows[1].fingerprint != FingerprintOf(v);
    var i := WithFingerprint(rows, FingerprintOf(v));
    assert i == Some(0);
    assert rows[0 := Again(rows[0], v)] == [Again(Fresh(t), v), Fresh(u)];
  }

  /** The newest alert of a key shows the last trigger. */
  lemma NewestShowsLastTrigger(labels: iset<Label>, ts: seq<Trigger>, t: Trigger)
    requires Unshared(labels) && ClockOrdered(ts + [t]) && Labelled(ts + [t], labels)
    requires Settled(ts + [t], KeyOf(t), t.rule.severity, 0)
    ensures
      var alerts := AlertsOf(Run(ts + [t]), KeyOf(t));
      && |alerts| > 0
      && alerts[|alerts| - 1].last == t.now && alerts[|alerts| - 1].payload == t.candidate.payload
  {
    var k := KeyOf(t);
    RunInvariant(labels, ts + [t], k, t.rule.severity, 0);
    FilterPush(TriggersKey(k), ts, t);
    FilterKeepsClock(ts + [t], k);
    LastIsCovered(TriggersFor(ts + [t], k));
  }

  // ---------------------------------------------------------------- keys that share a text

  /** Names without bars share nothing. */
  lemma PlainNamesUnshared(labels: iset<Label>)
    requires forall l :: l in labels ==> Unmarked(l.key, l.severity) && '|' !in l.key.entityType
    ensures Unshared(labels)
  {
    hide HashedText, Unmarked;
    forall l, m | l in labels && m in labels && TextOf(l) == TextOf(m) ensures l.key == m.key {
      FingerprintInjective(l.key, l.severity, 0, m.key, m.severity, 0);
    }
  }

  function TriggerOf(l: Label): Trigger {
    Trigger(Rule(l.key.tenant, l.key.rule, "ioc_sighting", l.severity, 0),
            Candidate("", l.key.entityType, l.key.entityId, ""), 0)
  }

  /** The second of two keys that share a text has a trigger and no alert. */
  lemma SharedTextLosesAlert(l: Label, m: Label) returns (ts: seq<Trigger>)
    requires TextOf(l) == TextOf(m) && l.key != m.key
    ensures ts == [TriggerOf(l), TriggerOf(m)] && AlertsOf(Run(ts), m.key) == []
    ensures TriggersFor(ts, m.key) == [TriggerOf(m)]
  {
    hide HashedText, Fresh, Again;
    var a, b := TriggerOf(l), TriggerOf(m);
    ts := [a, b];
    SharedFingerprintMergesEntities(a, b);
    AgainHasKey(a, b);
    assert ts == [] + [a] + [b] && [] + [Again(Fresh(a), b)] == Run(ts);
    FilterPush(TriggersKey(m.key), [] + [a], b);
    FilterPush(TriggersKey(m.key), [], a);
    FilterPush(HasKey(m.key), [], Again(Fresh(a), b));
  }

  lemma AgainHasKey(a: Trigger, b: Trigger)
    ensures Again(Fresh(a), b).key == KeyOf(a)
  {
  }

  /** In every run over these labels on an ordered clock, the alerts of every key are the grouping of its triggers. */
  ghost predicate AlwaysGrouped(labels: iset<Label>) {
    forall ts, k :: Labelled(ts, labels) && ClockOrdered(ts) ==> AlertsOf(Run(ts), k) == Grouped(TriggersFor(ts, k))
  }

  /** In every run over these labels the occurrences of every key count its triggers. */
  ghost predicate AlwaysCounted(labels: iset<Label>) {
    forall ts, k :: Labelled(ts, labels) ==> Occurrences(AlertsOf(Run(ts), k)) == |TriggersFor(ts, k)|
  }

  /** Each key has one severity. */
  ghost predicate Steady(labels: iset<Label>) {
    forall l, m :: l in labels && m in labels && l.key == m.key ==> l.severity == m.severity
  }

  lemma SteadyIsSettled(labels: iset<Label>, ts: seq<Trigger>, k: Key) returns (severity: string)
    requires Steady(labels) && Labelled(ts, labels)
    ensures Settled(ts, k, severity, 0)
  {
    if i: nat :| i < |ts| && KeyOf(ts[i]) == k {
      severity := ts[i].rule.severity;
      forall j | 0 <= j < |ts| && KeyOf(ts[j]) == k ensures ts[j].rule.severity == severity {
        assert LabelOf(ts[i]) in labels && LabelOf(ts[j]) in labels;
      }
    } else {
      severity := "";
    }
  }

  /** Counting needs exactly that no two of the keys share a text. */
  lemma CountedExactly(labels: iset<Label>)
    ensures AlwaysCounted(labels) <==> Unshared(labels)
  {
    hide Run, AlertsOf, TriggersFor, Occurrences;
    if Unshared(labels) {
      forall ts, k | Labelled(ts, labels) ensures Occurrences(AlertsOf(Run(ts), k)) == |TriggersFor(ts, k)| {
        OccurrencesCountTriggers(labels, ts, k);
      }
    } else {
      var l, m :| l in labels && m in labels && TextOf(l) == TextOf(m) && l.key != m.key;
      var ts := SharedTextLosesAlert(l, m);
      LabelledTwo(labels, l, m, ts);
      GroupedOne(TriggerOf(m));
    }
  }

  /** Grouping needs exactly that, and that no key changes its severity. Cooldowns may change. */
  lemma GroupedExactly(labels: iset<Label>)
    ensures AlwaysGrouped(labels) <==> Unshared(labels) && Steady(labels)
  {
    hide Run, Grouped, AlertsOf, TriggersFor, Settled, Labelled, ClockOrdered;
    if Unshared(labels) && Steady(labels) {
      forall ts, k | Labelled(ts, labels) && ClockOrdered(ts)
        ensures AlertsOf(Run(ts), k) == Grouped(TriggersFor(ts, k))
      {
        var severity := SteadyIsSettled(labels, ts, k);
        AlertsAreGroupedTriggers(labels, ts, k, severity, 0);
      }
    } else if l, m :| l in labels && m in labels && TextOf(l) == TextOf(m) && l.key != m.key {
      var ts := SharedTextLosesAlert(l, m);
      LabelledTwo(labels, l, m, ts);
      GroupedOne(TriggerOf(m));
    } else {
      var l, m :| l in labels && m in labels && l.key == m.key && l.severity != m.severity;
      var ts := NewSeverityOpensAlert(l, m);
      LabelledTwo(labels, l, m, ts);
    }
  }

  lemma LabelledTwo(labels: iset<Label>, l: Label, m: Label, ts: seq<Trigger>)
    requires l in labels && m in labels && |ts| == 2 && ts[0] == TriggerOf(l)
    requires LabelOf(ts[1]) == m
    ensures Labelled(ts, labels) && ClockOrdered(ts)
  {
  }

  lemma GroupedOne(t: Trigger)
    ensures Grouped([t]) != [] && Occurrences([]) == 0
  {
  }

  /** A second severity within the hour opens a second alert, where the grouping has one. */
  lemma NewSeverityOpensAlert(l: Label, m: Label) returns (ts: seq<Trigger>)
    requires l.key == m.key && l.severity != m.severity
    ensures ts == [TriggerOf(l), TriggerOf(m).(now := 1)]
    ensures AlertsOf(Run(ts), l.key) != Grouped(TriggersFor(ts, l.key))
  {
    hide HashedText, Fresh, Again, AlertsOf, TriggersFor, Step, RunFrom, Grouped, Hour, Cutoff, TriggerOf, KeyOf;
    var t, u := TriggerOf(l), TriggerOf(m).(now := 1);
    ts := [t, u];
    NextInstant(l, m);
    RunFromPush([], [], t);
    RunFromPush([], [t], u);
    assert [] + [t] == [t] && [t] + [u] == ts;
    FirstRow(t);
    SecondRow(t, u);
    BothOfKey(t, u);
    OneGroup(t, u);
  }

  lemma NextInstant(l: Label, m: Label)
    ensures
      var t, u := TriggerOf(l), TriggerOf(m).(now := 1);
      && LabelOf(t) == l && LabelOf(u) == m && t.rule.severity == l.severity && u.rule.severity == m.severity
      && t.now < Cutoff(u) && Hour(t.now) == Hour(u.now)
  {
  }

  lemma BothOfKey(t: Trigger, u: Trigger)
    requires KeyOf(t) == KeyOf(u)
    ensures TriggersFor([t, u], KeyOf(t)) == [t, u] && AlertsOf([Fresh(t), Fresh(u)], KeyOf(t)) == [Fresh(t), Fresh(u)]
  {
    var k := KeyOf(t);
    FilterPush(TriggersKey(k), [t], u);
    FilterPush(TriggersKey(k), [], t);
    FilterPush(HasKey(k), [Fresh(t)], Fresh(u));
    FilterPush(HasKey(k), [], Fresh(t));
    assert [] + [t] == [t] && [t] + [u] == [t, u];
    assert [] + [Fresh(t)] == [Fresh(t)] && [Fresh(t)] + [Fresh(u)] == [Fresh(t), Fresh(u)];
  }

  lemma OneGroup(t: Trigger, u: Trigger)
    requires Hour(t.now) == Hour(u.now)
    ensures |Grouped([t, u])| == 1
  {
    assert [t, u][..1] == [t] && [t][..0] == [];
    assert Grouped([t]) == [Fresh(t)];
  }

  /** The severity has to stay: after a change there and back within one hour, each trigger outside the cooldown of the
      one before, it is the older of two alerts of one key that is updated. */
  lemma SeverityChangeUpdatesOlderAlert(t: Trigger, u: Trigger, v: Trigger)
    requires KeyOf(t) == KeyOf(u) == KeyOf(v)
    requires t.rule.severity == v.rule.severity != u.rule.severity
    requires t.now < Cutoff(u) && t.now < Cutoff(v) && u.now < Cutoff(v) && Hour(t.now) == Hour(v.now)
    ensures Run([t, u, v]) == [Again(Fresh(t), v), Fresh(u)]
  {
    hide Step, Fresh, Again, KeyOf, Cutoff, Hour, RunFrom;
    RunFromPush([], [], t);
    RunFromPush([], [t], u);
    RunFromPush([], [t, u], v);
    assert [] + [t] == [t] && [t] + [u] == [t, u] && [t, u] + [v] == [t, u, v];
    FirstRow(t);
    SecondRow(t, u);
    FingerprintsDiffer(t, u);
    ThirdTrigger(t, u, v);
  }

  lemma FirstRow(t: Trigger)
    ensures RunFrom([], []) == [] && Step([], t) == [Fresh(t)]
  {
  }

  lemma FingerprintsDiffer(t: Trigger, u: Trigger)
    requires KeyOf(t) == KeyOf(u) && t.rule.severity != u.rule.severity
    ensures FingerprintOf(t) != FingerprintOf(u)
  {
    hide HashedText, Hour;
    if FingerprintOf(t) == FingerprintOf(u) {
      TextTellsSeverity(KeyOf(t), t.rule.severity, u.rule.severity);
    }
  }
}
