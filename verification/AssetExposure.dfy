/** Matching an asset's active software against the known vulnerabilities (app/services/agents.py): two indexes
    stand for the naive search over pairs, and exposures that no longer match are resolved, never deleted. */
module AssetExposure {
  import opened Options
  import opened Sequences
  import opened SoftwareInventory

  datatype Vulnerability = Vulnerability(
    id: string, cpes: seq<string>, vendor: Option<string>, product: Option<string>, severity: Option<string>,
    isKev: bool)

  datatype Match = Match(via: string, evidence: string)

  datatype Exposure = Exposure(
    vulnerability: string, found: Match, detectedAt: int, resolvedAt: Option<int>, slaDue: Option<int>)

  const DAY := 86_400
  const KEV_SLA_DAYS := 14
  const SLA_DAYS := map["critical" := 7, "high" := 14, "medium" := 30, "low" := 90]

  function SlaDue(severity: Option<string>, isKev: bool, detectedAt: int): Option<int> {
    if isKev then Some(detectedAt + KEV_SLA_DAYS * DAY)
    else if severity.Some? && severity.value in SLA_DAYS then Some(detectedAt + SLA_DAYS[severity.value] * DAY)
    else None
  }

  function LowerChar(c: char): char {
    if 'A' <= c <= 'Z' then c - 'A' + 'a' else c
  }

  function Lower(s: string): string {
    seq(|s|, i requires 0 <= i < |s| => LowerChar(s[i]))
  }

  predicate Within(a: string, b: string) {
    exists i :: 0 <= i <= |b| && a <= b[i..]
  }

  predicate Related(product: string, name: string) {
    Within(product, name) || Within(name, product)
  }

  predicate Given(s: Option<string>) {
    s.Some? && s.value != ""
  }

  // ---------------------------------------------------------------- the naive specification

  predicate ByCpe(r: Software, v: Vulnerability) {
    Given(r.cpe) && r.cpe.value in v.cpes
  }

  predicate ByName(r: Software, v: Vulnerability) {
    Given(v.product) && Related(Lower(v.product.value), Lower(r.key.name))
  }

  ghost predicate Affected(rows: seq<Software>, v: Vulnerability) {
    exists i :: 0 <= i < |rows| && IsActive(rows[i]) && (ByCpe(rows[i], v) || ByName(rows[i], v))
  }

  // ---------------------------------------------------------------- the indexed search

  function ActiveRows(rows: seq<Software>): seq<Software> {
    Filter(r => IsActive(r), rows)
  }

  function Cpes(rows: seq<Software>): set<string> {
    set i | 0 <= i < |rows| && Given(rows[i].cpe) :: rows[i].cpe.value
  }

  /** The names in lower case, each once, in order of first appearance. */
  function Names(rows: seq<Software>): seq<string> {
    if rows == [] then [] else
      var before, name := Names(rows[..|rows| - 1]), Lower(rows[|rows| - 1].key.name);
      if name in before then before else before + [name]
  }

  /** The row a name stands for: the last one that carries it. */
  function ByLowerName(rows: seq<Software>): map<string, Software> {
    if rows == [] then map[] else
      ByLowerName(rows[..|rows| - 1])[Lower(rows[|rows| - 1].key.name) := rows[|rows| - 1]]
  }

  function FirstCpe(cpes: seq<string>, known: set<string>): (c: Option<string>)
    ensures c.Some? <==> exists i :: 0 <= i < |cpes| && cpes[i] in known
    ensures c.Some? ==> c.value in known && c.value in cpes
  {
    if cpes == [] then None else
      var before := FirstCpe(cpes[..|cpes| - 1], known);
      if before.Some? then before
      else if cpes[|cpes| - 1] in known then Some(cpes[|cpes| - 1]) else None
  }

  function FirstName(product: string, names: seq<string>): (n: Option<string>)
    ensures n.Some? <==> exists i :: 0 <= i < |names| && Related(product, names[i])
    ensures n.Some? ==> n.value in names && Related(product, n.value)
  {
    if names == [] then None else
      var before := FirstName(product, names[..|names| - 1]);
      if before.Some? then before
      else if Related(product, names[|names| - 1]) then Some(names[|names| - 1]) else None
  }

  function OrUnknown(s: Option<string>): string {
    if Given(s) then s.value else "?"
  }

  function NameEvidence(v: Vulnerability, r: Software): string {
    OrUnknown(v.vendor) + " / " + (if v.product.Some? then v.product.value else "") + " ~ " + r.key.name
  }

  lemma {:induction false} NamesAreKeys(rows: seq<Software>)
    ensures forall n :: n in Names(rows) <==> n in ByLowerName(rows)
    ensures forall n :: n in ByLowerName(rows) <==> exists i :: 0 <= i < |rows| && Lower(rows[i].key.name) == n
  {
    if rows != [] {
      var front, r := rows[..|rows| - 1], rows[|rows| - 1];
      NamesAreKeys(front);
      assert forall i :: 0 <= i < |front| ==> front[i] == rows[i];
    }
  }

  function MatchOf(active: seq<Software>, v: Vulnerability): Option<Match> {
    var cpe := FirstCpe(v.cpes, Cpes(active));
    if cpe.Some? then Some(Match("cpe", cpe.value))
    else if !Given(v.product) then None else
      var name := FirstName(Lower(v.product.value), Names(active));
      if name.Some? && name.value in ByLowerName(active)
      then Some(Match("vendor_product", NameEvidence(v, ByLowerName(active)[name.value])))
      else None
  }

  // ---------------------------------------------------------------- the recomputation

  predicate IsOpen(e: Exposure) {
    e.resolvedAt.None?
  }

  function OpenIds(rows: seq<Exposure>): set<string> {
    set i | 0 <= i < |rows| && IsOpen(rows[i]) :: rows[i].vulnerability
  }

  function MatchedIds(active: seq<Software>, vulns: seq<Vulnerability>): set<string> {
    set i | 0 <= i < |vulns| && MatchOf(active, vulns[i]).Some? :: vulns[i].id
  }

  /** The table's constraint: one row a vulnerability, open or resolved. */
  predicate UniqueExposures(rows: seq<Exposure>) {
    forall i, j :: 0 <= i < j < |rows| ==> rows[i].vulnerability != rows[j].vulnerability
  }

  ghost predicate DistinctIds(vulns: seq<Vulnerability>) {
    forall i, j :: 0 <= i < j < |vulns| ==> vulns[i].id != vulns[j].id
  }

  function Detected(v: Vulnerability, m: Match, now: int): Exposure {
    Exposure(v.id, m, now, None, SlaDue(v.severity, v.isKev, now))
  }

  function NewExposures(active: seq<Software>, vulns: seq<Vulnerability>, open: set<string>, now: int): seq<Exposure> {
    if vulns == [] then [] else
      var before, v := NewExposures(active, vulns[..|vulns| - 1], open, now), vulns[|vulns| - 1];
      var m := MatchOf(active, v);
      if m.Some? && v.id !in open then before + [Detected(v, m.value, now)] else before
  }

  function ResolvedRow(e: Exposure, matched: set<string>, now: int): Exposure {
    if IsOpen(e) && e.vulnerability !in matched then e.(resolvedAt := Some(now)) else e
  }

  function ResolvedRows(rows: seq<Exposure>, matched: set<string>, now: int): seq<Exposure> {
    seq(|rows|, i requires 0 <= i < |rows| => ResolvedRow(rows[i], matched, now))
  }

  function Recomputed(rows: seq<Exposure>, software: seq<Software>, vulns: seq<Vulnerability>, now: int): seq<Exposure>
  {
    var active := ActiveRows(software);
    ResolvedRows(rows, MatchedIds(active, vulns), now) + NewExposures(active, vulns, OpenIds(rows), now)
  }

  // ---------------------------------------------------------------- the methods

  method BuildIndexes(active: seq<Software>)
    returns (cpes: map<string, Software>, names: seq<string>, byName: map<string, Software>)
    ensures cpes.Keys == Cpes(active) && names == Names(active) && byName == ByLowerName(active)
  {
    hide Lower, Cpes;
    cpes, names, byName := map[], [], map[];
    NoCpes();
    assert active[..0] == [];
    var i := 0;
    while i < |active|
      invariant 0 <= i <= |active| && cpes.Keys == Cpes(active[..i])
      invariant names == Names(active[..i]) && byName == ByLowerName(active[..i])
    {
      var r := active[i];
      assert active[..i + 1] == active[..i] + [r] && active[..i + 1][..i] == active[..i];
      CpesPush(active[..i], r);
      NamesAreKeys(active[..i]);
      var name := Lower(r.key.name);
      if Given(r.cpe) {
        cpes := cpes[r.cpe.value := r];
      }
      // a key that is already in the dictionary keeps its place
      if name !in byName {
        names := names + [name];
      }
      byName := byName[name := r];
      i := i + 1;
    }
    assert active[..i] == active;
  }

  method FindMatch(ghost active: seq<Software>, cpes: map<string, Software>, names: seq<string>,
                   byName: map<string, Software>, v: Vulnerability)
    returns (m: Option<Match>)
    requires cpes.Keys == Cpes(active) && names == Names(active) && byName == ByLowerName(active)
    ensures m == MatchOf(active, v)
  {
    hide Related, Lower, Names, ByLowerName, Cpes;
    m := None;
    var i := 0;
    while i < |v.cpes| && m.None?
      invariant 0 <= i <= |v.cpes|
      invariant FirstCpe(v.cpes[..i], Cpes(active)) == if m.Some? then Some(m.value.evidence) else None
      invariant m.Some? ==> m.value.via == "cpe"
    {
      assert v.cpes[..i + 1][..i] == v.cpes[..i];
      if v.cpes[i] in cpes {
        m := Some(Match("cpe", v.cpes[i]));
      }
      i := i + 1;
    }
    FirstCpeFound(v.cpes, i, Cpes(active));
    if m.None? && Given(v.product) {
      var product := Lower(v.product.value);
      var found := None;
      var j := 0;
      while j < |names| && found.None?
        invariant 0 <= j <= |names| && found == FirstName(product, names[..j])
      {
        assert names[..j + 1][..j] == names[..j];
        if Related(product, names[j]) {
          found := Some(names[j]);
        }
        j := j + 1;
      }
      FirstNameFound(product, names, j);
      NamesAreKeys(active);
      if found.Some? {
        m := Some(Match("vendor_product", NameEvidence(v, byName[found.value])));
      }
    }
  }

  lemma {:induction false} FirstCpeFound(cpes: seq<string>, i: nat, known: set<string>)
    requires i <= |cpes| && (i < |cpes| ==> FirstCpe(cpes[..i], known).Some?)
    ensures FirstCpe(cpes, known) == FirstCpe(cpes[..i], known)
  {
    if i == |cpes| {
      assert cpes[..i] == cpes;
    } else {
      assert cpes[..|cpes| - 1][..i] == cpes[..i];
      FirstCpeFound(cpes[..|cpes| - 1], i, known);
    }
  }

  lemma {:induction false} FirstNameFound(product: string, names: seq<string>, i: nat)
    requires i <= |names| && (i < |names| ==> FirstName(product, names[..i]).Some?)
    ensures FirstName(product, names) == FirstName(product, names[..i])
  {
    hide Related;
    if i == |names| {
      assert names[..i] == names;
    } else {
      assert names[..|names| - 1][..i] == names[..i];
      FirstNameFound(product, names[..|names| - 1], i);
    }
  }

  lemma NoCpes()
    ensures Cpes([]) == {}
  {
  }

  lemma CpesPush(rows: seq<Software>, r: Software)
    ensures Cpes(rows + [r]) == if Given(r.cpe) then Cpes(rows) + {r.cpe.value} else Cpes(rows)
  {
    var more := rows + [r];
    assert forall i :: 0 <= i < |rows| ==> more[i] == rows[i];
    assert more[|rows|] == r;
  }

  class ExposureTable {
    var rows: seq<Exposure>

    constructor ()
      ensures rows == []
    {
      rows := [];
    }

    method OpenVulnerabilities() returns (open: set<string>)
      ensures open == OpenIds(rows)
    {
      open := {};
      var i := 0;
      while i < |rows|
        invariant 0 <= i <= |rows| && open == OpenIds(rows[..i])
      {
        assert forall j :: 0 <= j < i ==> rows[..i + 1][j] == rows[..i][j];
        assert rows[..i + 1][i] == rows[i];
        if rows[i].resolvedAt.None? {
          open := open + {rows[i].vulnerability};
        }
        i := i + 1;
      }
      assert rows[..i] == rows;
    }

    /** A clash on the unique constraint undoes everything. */
    method Recompute(software: seq<Software>, vulns: seq<Vulnerability>, now: int) returns (ok: bool, count: nat)
      modifies this
      ensures ok <==> UniqueExposures(Recomputed(old(rows), software, vulns, now))
      ensures rows == if ok then Recomputed(old(rows), software, vulns, now) else old(rows)
      ensures count == |MatchedIds(ActiveRows(software), vulns)|
    {
      hide MatchOf, MatchedIds, NewExposures, OpenIds, UniqueExposures, ActiveRows;
      var before := rows;
      var active := ActiveRows(software);
      var cpes, names, byName := BuildIndexes(active);
      var existing := OpenVulnerabilities();
      var matched, added := {}, [];
      NothingMatched(active, existing, now);
      var i := 0;
      while i < |vulns|
        invariant 0 <= i <= |vulns| && rows == before
        invariant matched == MatchedIds(active, vulns[..i])
        invariant added == NewExposures(active, vulns[..i], existing, now)
      {
        var v := vulns[i];
        MatchNext(active, vulns[..i], v, existing, now);
        assert vulns[..i + 1] == vulns[..i] + [v];
        var m := FindMatch(active, cpes, names, byName, v);
        if m.Some? {
          matched := matched + {v.id};
          if v.id !in existing {
            added := added + [Detected(v, m.value, now)];
          }
        }
        i := i + 1;
      }
      assert vulns[..i] == vulns;
      Resolve(matched, now);
      ok := UniqueExposures(rows + added);
      rows, count := if ok then rows + added else before, |matched|;
    }

    method Resolve(matched: set<string>, now: int)
      modifies this
      ensures rows == ResolvedRows(old(rows), matched, now)
    {
      var i := 0;
      while i < |rows|
        invariant 0 <= i <= |rows| == |old(rows)|
        invariant forall j :: 0 <= j < i ==> rows[j] == ResolvedRow(old(rows)[j], matched, now)
        invariant forall j :: i <= j < |rows| ==> rows[j] == old(rows)[j]
      {
        if rows[i].resolvedAt.None? && rows[i].vulnerability !in matched {
          rows := rows[i := rows[i].(resolvedAt := Some(now))];
        }
        i := i + 1;
      }
    }
  }

  lemma NothingMatched(active: seq<Software>, open: set<string>, now: int)
    ensures MatchedIds(active, []) == {} && NewExposures(active, [], open, now) == []
  {
  }

  lemma MatchNext(active: seq<Software>, vulns: seq<Vulnerability>, v: Vulnerability, open: set<string>, now: int)
    ensures MatchedIds(active, vulns + [v]) ==
      if MatchOf(active, v).Some? then MatchedIds(active, vulns) + {v.id} else MatchedIds(active, vulns)
    ensures NewExposures(active, vulns + [v], open, now) ==
      if MatchOf(active, v).Some? && v.id !in open
      then NewExposures(active, vulns, open, now) + [Detected(v, MatchOf(active, v).value, now)]
      else NewExposures(active, vulns, open, now)
  {
    hide MatchOf, Detected;
    var more := vulns + [v];
    assert more[..|vulns|] == vulns;
    assert forall i :: 0 <= i < |vulns| ==> more[i] == vulns[i];
    assert more[|vulns|] == v;
  }

  /** The inventory part of a heartbeat: one transaction over both tables. */
  method Heartbeat(
      inventory: Inventory, exposures: ExposureTable, report: seq<Item>, vulns: seq<Vulnerability>, now: int)
    returns (ok: bool)
    modifies inventory, exposures
    ensures
      var software := Reconciled(old(inventory.rows), report, now);
      var recomputed := Recomputed(old(exposures.rows), software, vulns, now);
      && (ok <==> UniqueVersions(software) && UniqueExposures(recomputed))
      && inventory.rows == (if ok then software else old(inventory.rows))
      && exposures.rows == (if ok then recomputed else old(exposures.rows))
  {
    hide Reconciled, Recomputed, UniqueVersions, UniqueExposures;
    var before := inventory.rows;
    ok := inventory.Apply(report, now);
    if ok {
      var count: nat;
      ok, count := exposures.Recompute(inventory.rows, vulns, now);
      if !ok {
        inventory.rows := before;
      }
    }
  }
}
