/** What a recomputed exposure table promises: the indexed search agrees with the naive one, the open rows are exactly
    the vulnerabilities that affect the asset, and when the recomputation is refused. */
module ExposureReconciliation {
  import opened Options
  import opened Sequences
  import opened SoftwareInventory
  import opened InventoryReconciliation
  import opened AssetExposure

  // ---------------------------------------------------------------- the indexes against the naive search

  ghost predicate AnyByCpe(rows: seq<Software>, v: Vulnerability) {
    exists i :: 0 <= i < |rows| && IsActive(rows[i]) && ByCpe(rows[i], v)
  }

  ghost predicate AnyByName(rows: seq<Software>, v: Vulnerability) {
    exists i :: 0 <= i < |rows| && IsActive(rows[i]) && ByName(rows[i], v)
  }

  lemma ActiveAt(rows: seq<Software>, r: Software)
    ensures r in ActiveRows(rows) <==> r in rows && IsActive(r)
  {
    FilterElements(x => IsActive(x), rows);
  }

  lemma CpeFoundExactly(rows: seq<Software>, v: Vulnerability)
    ensures FirstCpe(v.cpes, Cpes(ActiveRows(rows))).Some? <==> AnyByCpe(rows, v)
  {
    hide ActiveRows, IsActive;
    var active := ActiveRows(rows);
    if FirstCpe(v.cpes, Cpes(active)).Some? {
      var i :| 0 <= i < |v.cpes| && v.cpes[i] in Cpes(active);
      var k :| 0 <= k < |active| && Given(active[k].cpe) && active[k].cpe.value == v.cpes[i];
      ActiveAt(rows, active[k]);
      var j :| 0 <= j < |rows| && rows[j] == active[k];
      assert ByCpe(rows[j], v);
    }
    if j :| 0 <= j < |rows| && IsActive(rows[j]) && ByCpe(rows[j], v) {
      ActiveAt(rows, rows[j]);
      var k :| 0 <= k < |active| && active[k] == rows[j];
      assert active[k].cpe.value in Cpes(active);
    }
  }

  lemma NameFoundExactly(rows: seq<Software>, v: Vulnerability)
    requires Given(v.product)
    ensures
      var name := FirstName(Lower(v.product.value), Names(ActiveRows(rows)));
      && (name.Some? <==> AnyByName(rows, v))
      && (name.Some? ==> name.value in ByLowerName(ActiveRows(rows)))
  {
    hide ActiveRows, IsActive, Names, ByLowerName, Related, Lower;
    var active := ActiveRows(rows);
    var product := Lower(v.product.value);
    var name := FirstName(product, Names(active));
    NamesAreKeys(active);
    if name.Some? {
      var k :| 0 <= k < |active| && Lower(active[k].key.name) == name.value;
      ActiveAt(rows, active[k]);
      var j :| 0 <= j < |rows| && rows[j] == active[k];
      assert ByName(rows[j], v);
    }
    if j :| 0 <= j < |rows| && IsActive(rows[j]) && ByName(rows[j], v) {
      ActiveAt(rows, rows[j]);
      var k :| 0 <= k < |active| && active[k] == rows[j];
      assert Lower(active[k].key.name) in ByLowerName(active);
    }
  }

  /** The search through the indexes finds a match exactly when some active row is affected, and names the precise rule
      whenever it applies. */
  lemma MatchIsNaive(rows: seq<Software>, v: Vulnerability)
    ensures MatchOf(ActiveRows(rows), v).Some? <==> Affected(rows, v)
    ensures MatchOf(ActiveRows(rows), v).Some? ==>
      (MatchOf(ActiveRows(rows), v).value.via == "cpe" <==> AnyByCpe(rows, v))
  {
    hide ByCpe, ByName, ActiveRows, Names, ByLowerName, Cpes, Lower;
    CpeFoundExactly(rows, v);
    if Given(v.product) {
      NameFoundExactly(rows, v);
    } else {
      NoProductNoName(rows, v);
    }
    assert Affected(rows, v) <==> AnyByCpe(rows, v) || AnyByName(rows, v);
  }

  lemma NoProductNoName(rows: seq<Software>, v: Vulnerability)
    requires !Given(v.product)
    ensures !AnyByName(rows, v)
  {
  }

  function AffectedIds(rows: seq<Software>, vulns: seq<Vulnerability>): set<string> {
    MatchedIds(ActiveRows(rows), vulns)
  }

  lemma AffectedIdsAreNaive(rows: seq<Software>, vulns: seq<Vulnerability>, id: string)
    ensures id in AffectedIds(rows, vulns) <==>
      exists i :: 0 <= i < |vulns| && vulns[i].id == id && Affected(rows, vulns[i])
  {
    hide MatchOf, ActiveRows, Affected;
    forall i | 0 <= i < |vulns| ensures MatchOf(ActiveRows(rows), vulns[i]).Some? <==> Affected(rows, vulns[i]) {
      MatchIsNaive(rows, vulns[i]);
    }
  }

  // ---------------------------------------------------------------- the table after a recomputation

  function Ids(rows: seq<Exposure>): set<string> {
    set i | 0 <= i < |rows| :: rows[i].vulnerability
  }

  lemma IdsPush(rows: seq<Exposure>, e: Exposure)
    ensures Ids(rows + [e]) == Ids(rows) + {e.vulnerability}
  {
    var more := rows + [e];
    assert forall i :: 0 <= i < |rows| ==> more[i] == rows[i];
    assert more[|rows|] == e;
  }

  lemma {:induction false} NewExposureIds(active: seq<Software>, vulns: seq<Vulnerability>, open: set<string>, now: int)
    ensures Ids(NewExposures(active, vulns, open, now)) == MatchedIds(active, vulns) - open
    ensures forall e :: e in NewExposures(active, vulns, open, now) ==> IsOpen(e) && e.detectedAt == now
  {
    hide MatchOf;
    if vulns != [] {
      var front, v := vulns[..|vulns| - 1], vulns[|vulns| - 1];
      NewExposureIds(active, front, open, now);
      assert vulns == front + [v];
      MatchNext(active, front, v, open, now);
      if MatchOf(active, v).Some? {
        IdsPush(NewExposures(active, front, open, now), Detected(v, MatchOf(active, v).value, now));
      }
    }
  }

  lemma OpenIdsConcat(a: seq<Exposure>, b: seq<Exposure>)
    ensures OpenIds(a + b) == OpenIds(a) + OpenIds(b)
  {
    var s := a + b;
    assert forall i :: 0 <= i < |a| ==> s[i] == a[i];
    assert forall i :: 0 <= i < |b| ==> s[|a| + i] == b[i];
    assert forall i :: |a| <= i < |s| ==> s[i] == b[i - |a|];
  }

  lemma OpenAfterResolving(rows: seq<Exposure>, matched: set<string>, now: int)
    ensures OpenIds(ResolvedRows(rows, matched, now)) == OpenIds(rows) * matched
  {
    var after := ResolvedRows(rows, matched, now);
    assert forall i :: 0 <= i < |rows| ==> after[i] == ResolvedRow(rows[i], matched, now);
    forall id | id in OpenIds(rows) * matched ensures id in OpenIds(after) {
      var i :| 0 <= i < |rows| && IsOpen(rows[i]) && rows[i].vulnerability == id;
      assert IsOpen(after[i]);
    }
  }

  lemma AllOpen(rows: seq<Exposure>)
    requires forall e :: e in rows ==> IsOpen(e)
    ensures OpenIds(rows) == Ids(rows)
  {
    assert forall i :: 0 <= i < |rows| ==> rows[i] in rows;
  }

  /** The open exposures are exactly the vulnerabilities that affect an active row. */
  lemma OpenExposuresAreAffected(rows: seq<Exposure>, software: seq<Software>, vulns: seq<Vulnerability>, now: int)
    ensures OpenIds(Recomputed(rows, software, vulns, now)) == AffectedIds(software, vulns)
  {
    hide OpenIds, NewExposures, ResolvedRows, MatchedIds, ActiveRows, Ids;
    var active := ActiveRows(software);
    var matched, added := MatchedIds(active, vulns), NewExposures(active, vulns, OpenIds(rows), now);
    OpenIdsConcat(ResolvedRows(rows, matched, now), added);
    OpenAfterResolving(rows, matched, now);
    NewExposureIds(active, vulns, OpenIds(rows), now);
    AllOpen(added);
  }

  /** A stored exposure is kept as it is, unless it was open and no longer matches: then it is resolved. */
  lemma StoredExposures(rows: seq<Exposure>, software: seq<Software>, vulns: seq<Vulnerability>, now: int, i: nat)
    requires i < |rows|
    ensures i < |Recomputed(rows, software, vulns, now)|
    ensures
      var e := rows[i];
      Recomputed(rows, software, vulns, now)[i] ==
        if IsOpen(e) && e.vulnerability !in AffectedIds(software, vulns) then e.(resolvedAt := Some(now)) else e
  {
  }

  /** An exposure added by a recomputation is open and dated, and due by the severity of a vulnerability it matched. */
  lemma {:induction false} AddedExposures(
      active: seq<Software>, vulns: seq<Vulnerability>, open: set<string>, now: int, e: Exposure)
    requires e in NewExposures(active, vulns, open, now)
    ensures exists i :: 0 <= i < |vulns| && vulns[i].id !in open && MatchOf(active, vulns[i]).Some?
                        && e == Detected(vulns[i], MatchOf(active, vulns[i]).value, now)
  {
    hide MatchOf, Detected;
    var front, v := vulns[..|vulns| - 1], vulns[|vulns| - 1];
    if e in NewExposures(active, front, open, now) {
      AddedExposures(active, front, open, now, e);
      var i :| 0 <= i < |front| && front[i].id !in open && MatchOf(active, front[i]).Some?
               && e == Detected(front[i], MatchOf(active, front[i]).value, now);
      assert vulns[i] == front[i];
    } else {
      assert e == Detected(v, MatchOf(active, v).value, now);
      assert vulns[|vulns| - 1].id !in open;
    }
  }

  predicate NoLater(a: Option<int>, b: Option<int>) {
    a.Some? && (b.None? || a.value <= b.value)
  }

  /** Being known-exploited never delays a deadline, except for critical vulnerabilities: these gain a week. */
  lemma KevDeadlineExactly(severity: Option<string>, detectedAt: int)
    ensures
      NoLater(SlaDue(severity, true, detectedAt), SlaDue(severity, false, detectedAt)) <==> severity != Some("critical")
    ensures severity == Some("critical") ==>
      SlaDue(severity, true, detectedAt).value == SlaDue(severity, false, detectedAt).value + 7 * DAY
  {
    assert severity.Some? && severity.value in SLA_DAYS ==> severity.value in {"critical", "high", "medium", "low"};
  }

  // ---------------------------------------------------------------- when a recomputation is refused

  lemma UniquePush(rows: seq<Exposure>, e: Exposure)
    ensures UniqueExposures(rows + [e]) <==> UniqueExposures(rows) && e.vulnerability !in Ids(rows)
  {
    var more := rows + [e];
    assert forall i :: 0 <= i < |rows| ==> more[i] == rows[i];
    assert more[|rows|] == e;
    if UniqueExposures(more) {
      forall i, j | 0 <= i < j < |rows| ensures rows[i].vulnerability != rows[j].vulnerability {
        assert more[i].vulnerability != more[j].vulnerability;
      }
    }
  }

  lemma UniqueConcat(a: seq<Exposure>, b: seq<Exposure>)
    requires UniqueExposures(a) && UniqueExposures(b)
    ensures UniqueExposures(a + b) <==> Ids(a) !! Ids(b)
  {
    var s := a + b;
    assert forall i :: 0 <= i < |a| ==> s[i] == a[i];
    assert forall i :: |a| <= i < |s| ==> s[i] == b[i - |a|];
    assert forall i :: 0 <= i < |b| ==> s[|a| + i] == b[i];
    if !(Ids(a) !! Ids(b)) {
      var id :| id in Ids(a) && id in Ids(b);
      var i :| 0 <= i < |a| && a[i].vulnerability == id;
      var j :| 0 <= j < |b| && b[j].vulnerability == id;
      assert s[i].vulnerability == s[|a| + j].vulnerability;
    } else {
      forall i, j | 0 <= i < |a| && 0 <= j < |b| ensures a[i].vulnerability != b[j].vulnerability {
        assert a[i].vulnerability in Ids(a);
        assert b[j].vulnerability in Ids(b);
      }
    }
  }

  lemma {:induction false} NewExposuresUnique(
      active: seq<Software>, vulns: seq<Vulnerability>, open: set<string>, now: int)
    requires DistinctIds(vulns)
    ensures UniqueExposures(NewExposures(active, vulns, open, now))
  {
    hide MatchOf, UniqueExposures;
    if vulns == [] {
      assert UniqueExposures([]) by { NothingClashes(); }
    } else {
      var front, v := vulns[..|vulns| - 1], vulns[|vulns| - 1];
      NewExposuresUnique(active, front, open, now);
      NewExposureIds(active, front, open, now);
      if MatchOf(active, v).Some? {
        UniquePush(NewExposures(active, front, open, now), Detected(v, MatchOf(active, v).value, now));
      }
    }
  }

  lemma NothingClashes()
    ensures UniqueExposures([])
  {
  }

  lemma ResolvedIds(rows: seq<Exposure>, matched: set<string>, now: int)
    ensures Ids(ResolvedRows(rows, matched, now)) == Ids(rows)
    ensures UniqueExposures(ResolvedRows(rows, matched, now)) <==> UniqueExposures(rows)
  {
    var after := ResolvedRows(rows, matched, now);
    assert forall i :: 0 <= i < |rows| ==> after[i].vulnerability == rows[i].vulnerability;
    assert forall i, j :: 0 <= i < j < |rows| ==>
        (after[i].vulnerability == after[j].vulnerability <==> rows[i].vulnerability == rows[j].vulnerability);
  }

  /** A vulnerability that affects the asset again while its only row is resolved. */
  ghost predicate Rematched(rows: seq<Exposure>, software: seq<Software>, vulns: seq<Vulnerability>, i: nat) {
    i < |rows| && !IsOpen(rows[i]) && rows[i].vulnerability in AffectedIds(software, vulns)
  }

  /** A recomputation is accepted exactly when no resolved exposure matches again. */
  lemma RecomputeSucceedsExactly(rows: seq<Exposure>, software: seq<Software>, vulns: seq<Vulnerability>, now: int)
    requires UniqueExposures(rows) && DistinctIds(vulns)
    ensures UniqueExposures(Recomputed(rows, software, vulns, now)) <==>
      !(exists i :: Rematched(rows, software, vulns, i))
  {
    hide NewExposures, ResolvedRows, MatchedIds, ActiveRows, UniqueExposures, DistinctIds;
    var active, open := ActiveRows(software), OpenIds(rows);
    var matched, added := MatchedIds(active, vulns), NewExposures(active, vulns, open, now);
    NewExposuresUnique(active, vulns, open, now);
    NewExposureIds(active, vulns, open, now);
    ResolvedIds(rows, matched, now);
    UniqueConcat(ResolvedRows(rows, matched, now), added);
    ClashIsRematch(rows, matched);
    assert forall i: nat :: Rematched(rows, software, vulns, i) <==>
        i < |rows| && !IsOpen(rows[i]) && rows[i].vulnerability in matched;
  }

  lemma ClashIsRematch(rows: seq<Exposure>, matched: set<string>)
    requires UniqueExposures(rows)
    ensures Ids(rows) !! matched - OpenIds(rows) <==>
      forall i :: 0 <= i < |rows| && !IsOpen(rows[i]) ==> rows[i].vulnerability !in matched
  {
    forall i | 0 <= i < |rows| ensures rows[i].vulnerability in OpenIds(rows) <==> IsOpen(rows[i]) {
      if rows[i].vulnerability in OpenIds(rows) {
        var j :| 0 <= j < |rows| && IsOpen(rows[j]) && rows[j].vulnerability == rows[i].vulnerability;
      }
    }
    if Ids(rows) !! matched - OpenIds(rows) {
      forall i | 0 <= i < |rows| && !IsOpen(rows[i]) ensures rows[i].vulnerability !in matched {
        assert rows[i].vulnerability in Ids(rows);
      }
    }
  }

  // ---------------------------------------------------------------- over whole runs

  datatype Recomputation = Recomputation(software: seq<Software>, vulns: seq<Vulnerability>, now: int)

  function Recompute(rows: seq<Exposure>, e: Recomputation): seq<Exposure> {
    var next := Recomputed(rows, e.software, e.vulns, e.now);
    if UniqueExposures(next) then next else rows
  }

  function RunFrom(rows: seq<Exposure>, es: seq<Recomputation>): seq<Exposure> {
    if es == [] then rows else Recompute(RunFrom(rows, es[..|es| - 1]), es[|es| - 1])
  }

  lemma {:induction false} UniqueStays(rows: seq<Exposure>, es: seq<Recomputation>)
    requires UniqueExposures(rows)
    ensures UniqueExposures(RunFrom(rows, es))
  {
    hide UniqueExposures;
    if es != [] {
      UniqueStays(rows, es[..|es| - 1]);
    }
  }

  /** A resolved exposure keeps its row for ever. */
  lemma {:induction false} ResolvedStays(rows: seq<Exposure>, es: seq<Recomputation>, i: nat)
    requires i < |rows| && !IsOpen(rows[i])
    ensures i < |RunFrom(rows, es)| && RunFrom(rows, es)[i] == rows[i]
  {
    hide UniqueExposures, Recomputed;
    if es != [] {
      var front, e := es[..|es| - 1], es[|es| - 1];
      ResolvedStays(rows, front, i);
      StoredExposures(RunFrom(rows, front), e.software, e.vulns, e.now, i);
    }
  }

  /** So the return of a remediated vulnerability is never recorded: whatever happened since, the recomputation
      that sees it is refused and the table stays as it was. */
  lemma ReturnIsNeverRecorded(rows: seq<Exposure>, es: seq<Recomputation>, e: Recomputation, i: nat)
    requires UniqueExposures(rows) && DistinctIds(e.vulns)
    requires i < |rows| && !IsOpen(rows[i]) && rows[i].vulnerability in AffectedIds(e.software, e.vulns)
    ensures RunFrom(rows, es + [e]) == RunFrom(rows, es)
  {
    hide UniqueExposures, Recomputed, AffectedIds, DistinctIds, IsOpen;
    assert (es + [e])[..|es|] == es;
    UniqueStays(rows, es);
    ResolvedStays(rows, es, i);
    assert Rematched(RunFrom(rows, es), e.software, e.vulns, i);
    RecomputeSucceedsExactly(RunFrom(rows, es), e.software, e.vulns, e.now);
  }

  /** Install, remove, install again: the third recomputation is refused. */
  lemma ReinstallIsRefused(v: Vulnerability, installed: seq<Software>, removed: seq<Software>, s: int, t: int, u: int)
    requires Affected(installed, v) && !Affected(removed, v)
    ensures
      var first := Recomputed([], installed, [v], s);
      var second := Recomputed(first, removed, [v], t);
      && UniqueExposures(first) && OpenIds(first) == {v.id}
      && UniqueExposures(second) && OpenIds(second) == {}
      && !UniqueExposures(Recomputed(second, installed, [v], u))
  {
    hide Affected, Recomputed, UniqueExposures;
    var first := Recomputed([], installed, [v], s);
    var second := Recomputed(first, removed, [v], t);
    SingleAffected(installed, v);
    SingleAffected(removed, v);
    NothingClashes();
    RecomputeSucceedsExactly([], installed, [v], s);
    OpenExposuresAreAffected([], installed, [v], s);
    RecomputeSucceedsExactly(first, removed, [v], t);
    OpenExposuresAreAffected(first, removed, [v], t);
    RecomputeSucceedsExactly(second, installed, [v], u);
    var i :| 0 <= i < |first| && IsOpen(first[i]) && first[i].vulnerability == v.id;
    StoredExposures(first, removed, [v], t, i);
    assert Rematched(second, installed, [v], i);
  }

  lemma SingleAffected(software: seq<Software>, v: Vulnerability)
    ensures AffectedIds(software, [v]) == if Affected(software, v) then {v.id} else {}
  {
    hide Affected, AffectedIds;
    forall id ensures id in AffectedIds(software, [v]) <==> id == v.id && Affected(software, v) {
      AffectedIdsAreNaive(software, [v], id);
      assert [v][0] == v;
    }
  }

  // ---------------------------------------------------------------- the whole heartbeat

  /** From a uniquely keyed inventory, an accepted heartbeat leaves the reported software active and the vulnerabilities
      affecting it open, no more and no less. */
  lemma HeartbeatReconciles(
      inventory: seq<Software>, rows: seq<Exposure>, report: seq<Item>, vulns: seq<Vulnerability>, now: int, id: string)
    requires UniqueKeys(inventory) && DistinctReport(report)
    ensures
      var software := Reconciled(inventory, report, now);
      && UniqueKeys(software) && ActiveKeys(software) == ReportedKeys(report)
      && (id in OpenIds(Recomputed(rows, software, vulns, now)) <==>
            exists i :: 0 <= i < |vulns| && vulns[i].id == id && Affected(software, vulns[i]))
  {
    hide Recomputed, Reconciled, Affected, UniqueKeys, DistinctReport, ActiveKeys, ReportedKeys, TwiceNew, AffectedIds;
    var software := Reconciled(inventory, report, now);
    DistinctNotTwice(Keys(inventory), report);
    KeysStayUniqueExactly(inventory, report, now);
    UniqueKeysNothingStale(inventory, report, now);
    OpenExposuresAreAffected(rows, software, vulns, now);
    AffectedIdsAreNaive(software, vulns, id);
  }
}
