/** What a reconciled inventory promises. */
module InventoryReconciliation {
  import opened Options
  import opened SoftwareInventory

  lemma {:induction false} LastOfKey(rows: seq<Software>, k: Key) returns (i: nat)
    requires k in Keys(rows)
    ensures i < |rows| && rows[i].key == k && Current(rows, i)
  {
    var n := |rows| - 1;
    if rows[n].key == k {
      i := n;
    } else {
      KeysPush(rows[..n], rows[n]);
      assert rows == rows[..n] + [rows[n]];
      i := LastOfKey(rows[..n], k);
    }
  }

  lemma {:induction false} AddedKeys(known: set<Key>, report: seq<Item>, now: int)
    ensures Keys(Added(known, report, now)) == ReportedKeys(report) - known
    ensures forall i :: 0 <= i < |Added(known, report, now)| ==> IsActive(Added(known, report, now)[i])
  {
    if report != [] {
      var front, item := report[..|report| - 1], report[|report| - 1];
      AddedKeys(known, front, now);
      ReportedPush(front, item);
      assert report == front + [item];
      KeysPush(Added(known, front, now), Inserted(item, now));
    }
  }

  lemma SettledIsActive(rows: seq<Software>, report: seq<Item>, now: int, i: nat)
    requires i < |rows|
    ensures
      var r := SettledRows(rows, report, now)[i];
      && r.key == rows[i].key
      && (IsActive(r) <==> if Current(rows, i) then r.key in ReportedKeys(report) else IsActive(rows[i]))
  {
    RefreshedMeans(rows[i], report, now);
  }

  /** A row left active although another row of its key shadows it and the report no longer holds it. */
  ghost predicate Stale(rows: seq<Software>, report: seq<Item>, i: nat) {
    i < |rows| && !Current(rows, i) && IsActive(rows[i]) && rows[i].key !in ReportedKeys(report)
  }

  lemma ReportedIsActive(rows: seq<Software>, report: seq<Item>, now: int, k: Key)
    requires k in ReportedKeys(report)
    ensures k in ActiveKeys(Reconciled(rows, report, now))
  {
    hide ReportedKeys, Keys, Refreshed, Added;
    var result, stored := Reconciled(rows, report, now), |rows|;
    if k in Keys(rows) {
      var i := LastOfKey(rows, k);
      SettledIsActive(rows, report, now, i);
      assert result[i] == SettledRows(rows, report, now)[i];
    } else {
      AddedKeys(Keys(rows), report, now);
      var added := Added(Keys(rows), report, now);
      assert k in Keys(added);
      var i := LastOfKey(added, k);
      assert result[stored + i] == added[i];
    }
  }

  lemma ActiveIsReported(rows: seq<Software>, report: seq<Item>, now: int, i: nat)
    requires forall j :: !Stale(rows, report, j)
    requires i < |Reconciled(rows, report, now)| && IsActive(Reconciled(rows, report, now)[i])
    ensures Reconciled(rows, report, now)[i].key in ReportedKeys(report)
  {
    hide ReportedKeys, Refreshed, Added, Current;
    if i < |rows| {
      SettledIsActive(rows, report, now, i);
      assert !Stale(rows, report, i);
    } else {
      var added := Added(Keys(rows), report, now);
      AddedKeys(Keys(rows), report, now);
      assert added[i - |rows|].key in Keys(added);
    }
  }

  /** The active rows hold exactly the reported keys, unless a shadowed row went stale: the lookup by key never
      reaches it. */
  lemma ActiveKeysExactly(rows: seq<Software>, report: seq<Item>, now: int)
    ensures ActiveKeys(Reconciled(rows, report, now)) == ReportedKeys(report) <==> !(exists i :: Stale(rows, report, i))
  {
    hide ReportedKeys, Refreshed, Added, Current, Reconciled;
    var result := Reconciled(rows, report, now);
    forall k | k in ReportedKeys(report) ensures k in ActiveKeys(result) {
      ReportedIsActive(rows, report, now, k);
    }
    if i :| Stale(rows, report, i) {
      StaleStaysActive(rows, report, now, i);
    } else {
      forall i | 0 <= i < |result| && IsActive(result[i]) ensures result[i].key in ReportedKeys(report) {
        ActiveIsReported(rows, report, now, i);
      }
    }
  }

  lemma StaleStaysActive(rows: seq<Software>, report: seq<Item>, now: int, i: nat)
    requires Stale(rows, report, i)
    ensures rows[i].key in ActiveKeys(Reconciled(rows, report, now))
  {
    SettledIsActive(rows, report, now, i);
    assert Reconciled(rows, report, now)[i] == SettledRows(rows, report, now)[i];
  }

  /** Over uniquely keyed rows nothing goes stale. */
  lemma UniqueKeysNothingStale(rows: seq<Software>, report: seq<Item>, now: int)
    requires UniqueKeys(rows)
    ensures ActiveKeys(Reconciled(rows, report, now)) == ReportedKeys(report)
  {
    hide Reconciled, ActiveKeys, ReportedKeys;
    ActiveKeysExactly(rows, report, now);
  }

  /** A second, shadowed row without version that the report drops: it stays active. */
  lemma StaleRowHappens(now: int)
    ensures
      var r := Software(Key("nginx", None), None, None, Some(0), Some(0), None);
      UniqueVersions([r, r]) && ActiveKeys(Reconciled([r, r], [], now)) != ReportedKeys([])
  {
    var r := Software(Key("nginx", None), None, None, Some(0), Some(0), None);
    assert [r, r][0].key == [r, r][1].key;
    assert Stale([r, r], [], 0);
    ActiveKeysExactly([r, r], [], now);
  }

  /** No stored row is lost, moved or renamed, and a row of a key the report holds carries the time of the report. */
  lemma NoRowIsLost(rows: seq<Software>, report: seq<Item>, now: int, i: nat)
    requires i < |rows|
    ensures i < |Reconciled(rows, report, now)|
    ensures
      var r := Reconciled(rows, report, now)[i];
      && r.key == rows[i].key && r.vendor == rows[i].vendor && r.firstSeen == rows[i].firstSeen
      && (!Current(rows, i) ==> r == rows[i])
      && (Current(rows, i) && r.key in ReportedKeys(report) ==> r.lastSeen == Some(now) && r.removedAt == None)
      && (Current(rows, i) && r.key !in ReportedKeys(report) ==>
            r == rows[i].(removedAt := if IsActive(rows[i]) then Some(now) else rows[i].removedAt))
  {
    RefreshedMeans(rows[i], report, now);
  }

  /** The last CPE that a report gives for a key. */
  function LastCpe(report: seq<Item>, k: Key): Option<string> {
    if report == [] then None else
      var before, item := LastCpe(report[..|report| - 1], k), report[|report| - 1];
      if item.key == k && item.cpe.Some? && item.cpe.value != "" then item.cpe else before
  }

  /** A row takes the last CPE reported for it; a report without one does not erase it. */
  lemma {:induction false} CpeIsLastGiven(r: Software, report: seq<Item>, now: int)
    ensures Refreshed(r, report, now).cpe == if LastCpe(report, r.key).Some? then LastCpe(report, r.key) else r.cpe
  {
    if report != [] {
      CpeIsLastGiven(r, report[..|report| - 1], now);
      RefreshedMeans(r, report[..|report| - 1], now);
    }
  }

  /** Rows beyond the stored ones are reported items of keys the table did not hold, seen first and last at this
      time. */
  lemma NewRowsAreReported(rows: seq<Software>, report: seq<Item>, now: int, a: nat) returns (i: nat)
    requires |rows| <= a < |Reconciled(rows, report, now)|
    ensures i < |report| && report[i].key !in Keys(rows)
    ensures Reconciled(rows, report, now)[a] ==
      Software(report[i].key, report[i].vendor, report[i].cpe, Some(now), Some(now), None)
  {
    hide Refreshed, Keys;
    var added := Added(Keys(rows), report, now);
    i := AddedItem(Keys(rows), report, now, a - |rows|);
    AddedKeys(Keys(rows), report, now);
    assert added[a - |rows|].key in Keys(added) by { KeyAt(added, a - |rows|); }
  }

  lemma KeyAt(rows: seq<Software>, i: nat)
    requires i < |rows|
    ensures rows[i].key in Keys(rows)
  {
  }

  // ---------------------------------------------------------------- uniqueness

  predicate Counts(k: Key, versionsOnly: bool) {
    versionsOnly ==> k.version.Some?
  }

  /** Two rows share a key; with `versionsOnly`, one with a version. */
  ghost predicate Clash(rows: seq<Software>, versionsOnly: bool) {
    exists i, j :: 0 <= i < j < |rows| && rows[i].key == rows[j].key && Counts(rows[i].key, versionsOnly)
  }

  /** A key the table does not hold is reported twice. */
  ghost predicate TwiceNew(known: set<Key>, report: seq<Item>, versionsOnly: bool) {
    exists i, j :: 0 <= i < j < |report| && report[i].key == report[j].key && report[i].key !in known
                   && Counts(report[i].key, versionsOnly)
  }

  lemma ClashPush(rows: seq<Software>, r: Software, versionsOnly: bool)
    ensures Clash(rows + [r], versionsOnly) <==>
      Clash(rows, versionsOnly) || (r.key in Keys(rows) && Counts(r.key, versionsOnly))
  {
    var more := rows + [r];
    assert forall i :: 0 <= i < |rows| ==> more[i] == rows[i];
    if Clash(rows, versionsOnly) {
      var i, j :| 0 <= i < j < |rows| && rows[i].key == rows[j].key && Counts(rows[i].key, versionsOnly);
      assert more[i].key == more[j].key;
    }
    if r.key in Keys(rows) && Counts(r.key, versionsOnly) {
      var i :| 0 <= i < |rows| && rows[i].key == r.key;
      assert more[i].key == more[|rows|].key;
    }
  }

  lemma TwiceNewPush(known: set<Key>, report: seq<Item>, item: Item, versionsOnly: bool)
    ensures TwiceNew(known, report + [item], versionsOnly) <==>
      TwiceNew(known, report, versionsOnly)
      || (item.key in ReportedKeys(report) && item.key !in known && Counts(item.key, versionsOnly))
  {
    var more := report + [item];
    assert forall i :: 0 <= i < |report| ==> more[i] == report[i];
    if TwiceNew(known, report, versionsOnly) {
      var i, j :| 0 <= i < j < |report| && report[i].key == report[j].key && report[i].key !in known
                  && Counts(report[i].key, versionsOnly);
      assert more[i].key == more[j].key;
    }
    if item.key in ReportedKeys(report) && item.key !in known && Counts(item.key, versionsOnly) {
      var i :| 0 <= i < |report| && report[i].key == item.key;
      assert more[i].key == more[|report|].key;
    }
  }

  /** Inserted rows clash exactly for a new key reported twice. */
  lemma {:induction false} AddedClashExactly(known: set<Key>, report: seq<Item>, now: int, versionsOnly: bool)
    ensures Clash(Added(known, report, now), versionsOnly) <==> TwiceNew(known, report, versionsOnly)
  {
    hide Clash, TwiceNew;
    if report == [] {
      assert !Clash([], versionsOnly) && !TwiceNew(known, [], versionsOnly) by { NothingClashes(known, versionsOnly); }
    } else {
      var front, item := report[..|report| - 1], report[|report| - 1];
      AddedClashExactly(known, front, now, versionsOnly);
      AddedKeys(known, front, now);
      assert report == front + [item];
      TwiceNewPush(known, front, item, versionsOnly);
      ClashPush(Added(known, front, now), Inserted(item, now), versionsOnly);
    }
  }

  lemma NothingClashes(known: set<Key>, versionsOnly: bool)
    ensures !Clash([], versionsOnly) && !TwiceNew(known, [], versionsOnly)
  {
  }

  /** The rows of one table and rows with other keys clash only among themselves. */
  lemma ClashSplits(a: seq<Software>, b: seq<Software>, versionsOnly: bool)
    requires Keys(a) !! Keys(b)
    ensures Clash(a + b, versionsOnly) <==> Clash(a, versionsOnly) || Clash(b, versionsOnly)
  {
    var s := a + b;
    forall i, j | 0 <= i < |a| && 0 <= j < |b| ensures a[i].key != b[j].key {
      assert a[i].key in Keys(a);
      assert b[j].key in Keys(b);
    }
    assert forall i :: 0 <= i < |a| ==> s[i] == a[i];
    assert forall i :: 0 <= i < |b| ==> b[i] == s[|a| + i];
    assert forall i :: |a| <= i < |s| ==> s[i] == b[i - |a|];
    if Clash(b, versionsOnly) {
      var i, j :| 0 <= i < j < |b| && b[i].key == b[j].key && Counts(b[i].key, versionsOnly);
      assert s[|a| + i].key == s[|a| + j].key;
    }
    if Clash(a, versionsOnly) {
      var i, j :| 0 <= i < j < |a| && a[i].key == a[j].key && Counts(a[i].key, versionsOnly);
      assert s[i].key == s[j].key;
    }
  }

  lemma SettledKeys(rows: seq<Software>, report: seq<Item>, now: int, versionsOnly: bool)
    ensures Keys(SettledRows(rows, report, now)) == Keys(rows)
    ensures Clash(SettledRows(rows, report, now), versionsOnly) <==> Clash(rows, versionsOnly)
  {
    hide Refreshed, ReportedKeys, Current;
    var after := SettledRows(rows, report, now);
    forall i | 0 <= i < |rows| ensures after[i].key == rows[i].key {
      SettledIsActive(rows, report, now, i);
    }
    assert forall i, j :: 0 <= i < j < |rows| ==> (after[i].key == after[j].key <==> rows[i].key == rows[j].key);
  }

  lemma ReconciledClashExactly(rows: seq<Software>, report: seq<Item>, now: int, versionsOnly: bool)
    requires !Clash(rows, versionsOnly)
    ensures Clash(Reconciled(rows, report, now), versionsOnly) <==> TwiceNew(Keys(rows), report, versionsOnly)
  {
    hide Clash, TwiceNew, Keys, SettledRows, Added, ReportedKeys;
    SettledKeys(rows, report, now, versionsOnly);
    AddedKeys(Keys(rows), report, now);
    AddedClashExactly(Keys(rows), report, now, versionsOnly);
    ClashSplits(SettledRows(rows, report, now), Added(Keys(rows), report, now), versionsOnly);
  }

  /** A report is refused exactly when it names, twice, a version the table does not hold. */
  lemma ApplySucceedsExactly(rows: seq<Software>, report: seq<Item>, now: int)
    requires UniqueVersions(rows)
    ensures UniqueVersions(Reconciled(rows, report, now)) <==> !TwiceNew(Keys(rows), report, true)
  {
    hide TwiceNew, Keys, Reconciled;
    assert forall s :: UniqueVersions(s) <==> !Clash(s, true);
    ReconciledClashExactly(rows, report, now, true);
  }

  /** Keys stay unique exactly when no key the table does not hold, with or without version, is reported twice. */
  lemma KeysStayUniqueExactly(rows: seq<Software>, report: seq<Item>, now: int)
    requires UniqueKeys(rows)
    ensures UniqueKeys(Reconciled(rows, report, now)) <==> !TwiceNew(Keys(rows), report, false)
  {
    hide TwiceNew, Keys, Reconciled;
    assert forall s :: UniqueKeys(s) <==> !Clash(s, false);
    ReconciledClashExactly(rows, report, now, false);
  }

  // ---------------------------------------------------------------- replay

  lemma {:induction false} ReadAgain(r: Software, report: seq<Item>, now: int, i: nat)
    requires DistinctReport(report) && i < |report| && report[i].key == r.key
    ensures Refreshed(r, report, now) == Seen(r, report[i], now)
  {
    var front := report[..|report| - 1];
    if i < |front| {
      ReadAgain(r, front, now, i);
    } else {
      RefreshedMeans(r, front, now);
    }
  }

  /** A row read by a report is not changed by reading the same report again. */
  lemma RefreshedTwice(r: Software, report: seq<Item>, now: int)
    requires DistinctReport(report)
    ensures Settled(Settled(r, report, now), report, now) == Settled(r, report, now)
  {
    hide Refreshed;
    RefreshedMeans(r, report, now);
    if r.key in ReportedKeys(report) {
      var i :| 0 <= i < |report| && report[i].key == r.key;
      ReadAgain(r, report, now, i);
      ReadAgain(Settled(r, report, now), report, now, i);
    } else {
      RefreshedMeans(Settled(r, report, now), report, now);
    }
  }

  lemma {:induction false} AddedItem(known: set<Key>, report: seq<Item>, now: int, a: nat) returns (i: nat)
    requires a < |Added(known, report, now)|
    ensures i < |report| && Added(known, report, now)[a] == Inserted(report[i], now)
  {
    var front := report[..|report| - 1];
    if a < |Added(known, front, now)| {
      i := AddedItem(known, front, now, a);
    } else {
      i := |front|;
    }
  }

  lemma {:induction false} NothingToAdd(known: set<Key>, report: seq<Item>, now: int)
    requires ReportedKeys(report) <= known
    ensures Added(known, report, now) == []
  {
    if report != [] {
      var front := report[..|report| - 1];
      assert report == front + [report[|report| - 1]];
      ReportedPush(front, report[|report| - 1]);
      NothingToAdd(known, front, now);
    }
  }

  lemma SettleReconciledRow(rows: seq<Software>, report: seq<Item>, now: int, i: nat)
    requires UniqueKeys(rows) && DistinctReport(report) && i < |Reconciled(rows, report, now)|
    ensures
      var r := Reconciled(rows, report, now)[i];
      Settled(r, report, now) == r
  {
    hide Refreshed;
    if i < |rows| {
      assert Current(rows, i);
      RefreshedTwice(rows[i], report, now);
    } else {
      var j := AddedItem(Keys(rows), report, now, i - |rows|);
      var r := Inserted(report[j], now);
      ReadAgain(r, report, now, j);
    }
  }

  /** Applying the same report again at the same time changes nothing. */
  lemma ReportTwiceIsOnce(rows: seq<Software>, report: seq<Item>, now: int)
    requires UniqueKeys(rows) && DistinctReport(report)
    ensures
      var once := Reconciled(rows, report, now);
      Reconciled(once, report, now) == once
  {
    hide Refreshed, Settled, TwiceNew;
    var once := Reconciled(rows, report, now);
    forall i | 0 <= i < |once| ensures Settled(once[i], report, now) == once[i] {
      SettleReconciledRow(rows, report, now, i);
    }
    DistinctNotTwice(Keys(rows), report);
    KeysStayUniqueExactly(rows, report, now);
    ReportedAreKeys(rows, report, now);
    NothingToAdd(Keys(once), report, now);
    assert SettledRows(once, report, now) == once;
  }

  lemma DistinctNotTwice(known: set<Key>, report: seq<Item>)
    requires DistinctReport(report)
    ensures !TwiceNew(known, report, false)
  {
  }

  lemma ReportedAreKeys(rows: seq<Software>, report: seq<Item>, now: int)
    ensures ReportedKeys(report) <= Keys(Reconciled(rows, report, now))
  {
    hide Reconciled, ReportedKeys;
    forall k | k in ReportedKeys(report) ensures k in Keys(Reconciled(rows, report, now)) {
      ReportedIsActive(rows, report, now, k);
    }
  }
}
