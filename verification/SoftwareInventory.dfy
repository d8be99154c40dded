/** Reconciling an endpoint's software report with the stored rows of its asset (app/services/agents.py). Rows are
    updated in place, and rows that are no longer reported are marked removed, never deleted. */
module SoftwareInventory {
  import opened Options

  datatype Key = Key(name: string, version: Option<string>)

  datatype Item = Item(key: Key, vendor: Option<string>, cpe: Option<string>)

  datatype Software = Software(
    key: Key, vendor: Option<string>, cpe: Option<string>, firstSeen: Option<int>, lastSeen: Option<int>,
    removedAt: Option<int>)

  predicate IsActive(r: Software) {
    r.removedAt.None?
  }

  function Keys(rows: seq<Software>): set<Key> {
    set i | 0 <= i < |rows| :: rows[i].key
  }

  function ActiveKeys(rows: seq<Software>): set<Key> {
    set i | 0 <= i < |rows| && IsActive(rows[i]) :: rows[i].key
  }

  function ReportedKeys(report: seq<Item>): set<Key> {
    set i | 0 <= i < |report| :: report[i].key
  }

  /** The table's constraint on name and version: rows without a version escape it. */
  predicate UniqueVersions(rows: seq<Software>) {
    forall i, j :: 0 <= i < j < |rows| && rows[i].key == rows[j].key ==> rows[i].key.version.None?
  }

  ghost predicate UniqueKeys(rows: seq<Software>) {
    forall i, j :: 0 <= i < j < |rows| ==> rows[i].key != rows[j].key
  }

  ghost predicate DistinctReport(report: seq<Item>) {
    forall i, j :: 0 <= i < j < |report| ==> report[i].key != report[j].key
  }

  function Or(a: Option<string>, b: Option<string>): Option<string> {
    if a.Some? && a.value != "" then a else b
  }

  function Seen(r: Software, item: Item, now: int): Software {
    r.(lastSeen := Some(now), removedAt := None, cpe := Or(item.cpe, r.cpe))
  }

  function Inserted(item: Item, now: int): Software {
    Software(item.key, item.vendor, item.cpe, Some(now), Some(now), None)
  }

  /** A row after the items of its key have been read from first to last. */
  function Refreshed(r: Software, report: seq<Item>, now: int): Software {
    if report == [] then r else
      var before, item := Refreshed(r, report[..|report| - 1], now), report[|report| - 1];
      if item.key == r.key then Seen(before, item, now) else before
  }

  /** The rows inserted for items whose key the table did not hold. */
  function Added(known: set<Key>, report: seq<Item>, now: int): seq<Software> {
    if report == [] then [] else
      var before, item := Added(known, report[..|report| - 1], now), report[|report| - 1];
      if item.key in known then before else before + [Inserted(item, now)]
  }

  /** The lookup by key finds the last row of a key; an earlier row of the same key is shadowed. */
  predicate Current(rows: seq<Software>, i: nat) {
    forall j :: i < j < |rows| ==> rows[j].key != rows[i].key
  }

  function Settled(r: Software, report: seq<Item>, now: int): Software {
    if r.key !in ReportedKeys(report) && IsActive(r) then r.(removedAt := Some(now)) else Refreshed(r, report, now)
  }

  function RefreshedRows(rows: seq<Software>, report: seq<Item>, now: int): seq<Software> {
    seq(|rows|, i requires 0 <= i < |rows| => if Current(rows, i) then Refreshed(rows[i], report, now) else rows[i])
  }

  function SettledRows(rows: seq<Software>, report: seq<Item>, now: int): seq<Software> {
    seq(|rows|, i requires 0 <= i < |rows| => if Current(rows, i) then Settled(rows[i], report, now) else rows[i])
  }

  function Reconciled(rows: seq<Software>, report: seq<Item>, now: int): seq<Software> {
    SettledRows(rows, report, now) + Added(Keys(rows), report, now)
  }

  // ---------------------------------------------------------------- the method

  class Inventory {
    var rows: seq<Software>

    constructor ()
      ensures rows == []
    {
      rows := [];
    }

    method ByKey() returns (existing: map<Key, nat>)
      ensures existing.Keys == Keys(rows)
      ensures forall k :: k in existing ==>
                existing[k] < |rows| && rows[existing[k]].key == k && Current(rows, existing[k])
    {
      hide Keys, Current, IsIndex;
      existing := map[];
      var i := 0;
      NothingIndexed();
      assert rows[..0] == [];
      while i < |rows|
        invariant 0 <= i <= |rows| && IsIndex(existing, rows[..i])
      {
        IndexPush(existing, rows[..i], rows[i]);
        assert rows[..i + 1] == rows[..i] + [rows[i]];
        existing := existing[rows[i].key := i];
        i := i + 1;
      }
      assert rows[..i] == rows;
      IndexFacts(existing, rows);
    }

    /** Reads the report, then marks what it no longer holds; a clash on the unique constraint undoes everything. */
    method Apply(report: seq<Item>, now: int) returns (ok: bool)
      modifies this
      ensures ok <==> UniqueVersions(Reconciled(old(rows), report, now))
      ensures rows == if ok then Reconciled(old(rows), report, now) else old(rows)
    {
      hide Keys, Refreshed, Current, RefreshedRows, SettledRows, UniqueVersions, Added;
      ghost var stored := rows;
      var before := rows;
      var existing := ByKey();
      var added, reported := [], {};
      var n := 0;
      NothingRead(stored, now);
      while n < |report|
        invariant 0 <= n <= |report| && |rows| == |stored|
        invariant rows == RefreshedRows(stored, report[..n], now)
        invariant added == Added(Keys(stored), report[..n], now)
        invariant reported == ReportedKeys(report[..n])
      {
        var item := report[n];
        assert report[..n + 1] == report[..n] + [item];
        ReadNext(stored, report[..n], item, now);
        reported := reported + {item.key};
        if item.key in existing {
          var i := existing[item.key];
          RefreshNext(stored, report[..n], item, now, i);
          rows := rows[i := Seen(rows[i], item, now)];
        } else {
          RefreshNone(stored, report[..n], item, now);
          added := added + [Inserted(item, now)];
        }
        n := n + 1;
      }
      assert report[..n] == report;
      MarkRemoved(existing, reported, report, stored, now);
      ok := UniqueVersions(rows + added);
      rows := if ok then rows + added else before;
    }

    method MarkRemoved(
        existing: map<Key, nat>, reported: set<Key>, report: seq<Item>, ghost stored: seq<Software>, now: int)
      requires existing.Keys == Keys(stored) && reported == ReportedKeys(report)
      requires forall k :: k in existing ==>
        existing[k] < |stored| && stored[existing[k]].key == k && Current(stored, existing[k])
      requires rows == RefreshedRows(stored, report, now)
      modifies this
      ensures rows == SettledRows(stored, report, now)
    {
      hide Refreshed, Keys, ReportedKeys;
      ghost var refreshed := rows;
      var i := 0;
      while i < |rows|
        invariant 0 <= i <= |rows| == |stored|
        invariant rows[i..] == refreshed[i..]
        invariant rows[..i] == SettledRows(stored, report, now)[..i]
      {
        assert rows[i] == refreshed[i];
        SettleOne(stored, report, now, i);
        CurrentIsExisting(existing, stored, i);
        ghost var earlier := rows;
        if existing[rows[i].key] == i && rows[i].key !in reported && rows[i].removedAt.None? {
          rows := rows[i := rows[i].(removedAt := Some(now))];
        }
        assert rows[i + 1..] == earlier[i + 1..] == refreshed[i + 1..];
        assert rows[..i] == earlier[..i];
        assert rows[..i + 1] == rows[..i] + [rows[i]];
        i := i + 1;
      }
      assert rows[..i] == rows && SettledRows(stored, report, now)[..i] == SettledRows(stored, report, now);
    }
  }

  /** The last row of each key. */
  ghost predicate IsIndex(existing: map<Key, nat>, rows: seq<Software>) {
    && existing.Keys == Keys(rows)
    && forall k :: k in existing ==> existing[k] < |rows| && rows[existing[k]].key == k && Current(rows, existing[k])
  }

  lemma IndexFacts(existing: map<Key, nat>, rows: seq<Software>)
    requires IsIndex(existing, rows)
    ensures existing.Keys == Keys(rows)
    ensures forall k :: k in existing ==>
              existing[k] < |rows| && rows[existing[k]].key == k && Current(rows, existing[k])
  {
  }

  lemma NothingIndexed()
    ensures IsIndex(map[], [])
  {
  }

  lemma IndexPush(existing: map<Key, nat>, rows: seq<Software>, r: Software)
    requires IsIndex(existing, rows)
    ensures IsIndex(existing[r.key := |rows|], rows + [r])
  {
    hide Keys;
    var more, index := rows + [r], existing[r.key := |rows|];
    KeysPush(rows, r);
    assert more[|rows|] == r;
    forall k | k in index && k != r.key ensures more[index[k]].key == k && Current(more, index[k]) {
      assert Current(rows, existing[k]) && more[existing[k]] == rows[existing[k]];
    }
  }

  lemma KeysPush(rows: seq<Software>, r: Software)
    ensures Keys(rows + [r]) == Keys(rows) + {r.key}
  {
    var longer := rows + [r];
    assert forall i :: 0 <= i < |rows| ==> longer[i] == rows[i];
    assert longer[|rows|] == r;
  }

  lemma CurrentIsExisting(existing: map<Key, nat>, rows: seq<Software>, i: nat)
    requires i < |rows| && existing.Keys == Keys(rows)
    requires forall k :: k in existing ==>
      existing[k] < |rows| && rows[existing[k]].key == k && Current(rows, existing[k])
    ensures rows[i].key in existing && (existing[rows[i].key] == i <==> Current(rows, i))
  {
    var j := existing[rows[i].key];
    assert rows[j].key == rows[i].key && Current(rows, j);
  }

  lemma {:induction false} RefreshedMeans(r: Software, report: seq<Item>, now: int)
    ensures Refreshed(r, report, now).key == r.key && Refreshed(r, report, now).vendor == r.vendor
    ensures Refreshed(r, report, now).firstSeen == r.firstSeen
    ensures r.key !in ReportedKeys(report) ==> Refreshed(r, report, now) == r
    ensures r.key in ReportedKeys(report) ==>
      Refreshed(r, report, now).lastSeen == Some(now) && Refreshed(r, report, now).removedAt == None
  {
    if report != [] {
      RefreshedMeans(r, report[..|report| - 1], now);
      ReportedPush(report[..|report| - 1], report[|report| - 1]);
      assert report == report[..|report| - 1] + [report[|report| - 1]];
    }
  }

  lemma ReportedPush(report: seq<Item>, item: Item)
    ensures ReportedKeys(report + [item]) == ReportedKeys(report) + {item.key}
  {
    var longer := report + [item];
    assert forall i :: 0 <= i < |report| ==> longer[i] == report[i];
    assert longer[|report|] == item;
  }

  lemma NothingRead(rows: seq<Software>, now: int)
    ensures RefreshedRows(rows, [], now) == rows && Added(Keys(rows), [], now) == [] && ReportedKeys([]) == {}
  {
  }

  lemma ReadNext(rows: seq<Software>, report: seq<Item>, item: Item, now: int)
    ensures ReportedKeys(report + [item]) == ReportedKeys(report) + {item.key}
    ensures Added(Keys(rows), report + [item], now) ==
      if item.key in Keys(rows) then Added(Keys(rows), report, now)
      else Added(Keys(rows), report, now) + [Inserted(item, now)]
  {
    ReportedPush(report, item);
    assert (report + [item])[..|report|] == report;
  }

  lemma RefreshedPush(r: Software, report: seq<Item>, item: Item, now: int)
    ensures Refreshed(r, report + [item], now) ==
      if item.key == r.key then Seen(Refreshed(r, report, now), item, now) else Refreshed(r, report, now)
  {
    assert (report + [item])[..|report|] == report;
  }

  lemma RefreshNext(rows: seq<Software>, report: seq<Item>, item: Item, now: int, i: nat)
    requires i < |rows| && rows[i].key == item.key && Current(rows, i)
    ensures
      var before := RefreshedRows(rows, report, now);
      |before| == |rows| && RefreshedRows(rows, report + [item], now) == before[i := Seen(before[i], item, now)]
  {
    hide Refreshed, Seen;
    forall j | 0 <= j < |rows| ensures
      Refreshed(rows[j], report + [item], now) ==
        if item.key == rows[j].key then Seen(Refreshed(rows[j], report, now), item, now)
        else Refreshed(rows[j], report, now)
    {
      RefreshedPush(rows[j], report, item, now);
    }
  }

  lemma RefreshNone(rows: seq<Software>, report: seq<Item>, item: Item, now: int)
    requires item.key !in Keys(rows)
    ensures RefreshedRows(rows, report + [item], now) == RefreshedRows(rows, report, now)
  {
    hide Refreshed;
    forall j | 0 <= j < |rows| ensures Refreshed(rows[j], report + [item], now) == Refreshed(rows[j], report, now) {
      assert rows[j].key in Keys(rows);
      RefreshedPush(rows[j], report, item, now);
    }
  }

  lemma SettleOne(rows: seq<Software>, report: seq<Item>, now: int, i: nat)
    requires i < |rows|
    ensures
      var refreshed := RefreshedRows(rows, report, now);
      && |refreshed| == |rows| == |SettledRows(rows, report, now)| && refreshed[i].key == rows[i].key
      && SettledRows(rows, report, now)[i] ==
        if Current(rows, i) && refreshed[i].key !in ReportedKeys(report) && IsActive(refreshed[i])
        then refreshed[i].(removedAt := Some(now)) else refreshed[i]
  {
    RefreshedMeans(rows[i], report, now);
  }
}
