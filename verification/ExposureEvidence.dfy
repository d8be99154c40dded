/** What counts as affected, what a match says of it, and when it is due, in the words of the rules themselves. */
module ExposureEvidence {
  import opened Options
  import opened SoftwareInventory
  import opened AssetExposure
  import opened ExposureReconciliation

  // ---------------------------------------------------------------- affected

  /** The one text stands in the other, whatever the case of their letters. */
  ghost predicate Inside(a: string, b: string) {
    exists before, after :: Lower(b) == before + Lower(a) + after
  }

  lemma InsideIsWithin(a: string, b: string)
    ensures Within(Lower(a), Lower(b)) <==> Inside(a, b)
  {
    hide Lower;
    var x, y := Lower(a), Lower(b);
    if Within(x, y) {
      var i :| 0 <= i <= |y| && x <= y[i..];
      assert y[i..] == x + y[i..][|x|..];
      assert y == y[..i] + x + y[i..][|x|..];
    }
    if before, after :| y == before + x + after {
      assert y[|before|..] == x + after;
    }
  }

  lemma LowerIs(s: string, i: nat)
    requires i < |s|
    ensures |Lower(s)| == |s|
    ensures Lower(s)[i] == if 'A' <= s[i] <= 'Z' then s[i] + ' ' else s[i]
  {
  }

  /** The row has a CPE of the vulnerability, or a name that contains the product or is contained in it. */
  ghost predicate Hits(r: Software, v: Vulnerability) {
    || (r.cpe != None && r.cpe != Some("") && r.cpe.value in v.cpes)
    || (v.product != None && v.product != Some("")
        && (Inside(v.product.value, r.key.name) || Inside(r.key.name, v.product.value)))
  }

  /** A vulnerability affects an asset exactly when it hits a row that was not removed. */
  lemma AffectedExactly(rows: seq<Software>, v: Vulnerability)
    ensures Affected(rows, v) <==> exists r :: r in rows && r.removedAt == None && Hits(r, v)
  {
    hide Lower, Within, Inside;
    forall r: Software ensures Hits(r, v) <==> ByCpe(r, v) || ByName(r, v) {
      if v.product.Some? {
        InsideIsWithin(v.product.value, r.key.name);
        InsideIsWithin(r.key.name, v.product.value);
      }
    }
    if Affected(rows, v) {
      var i :| 0 <= i < |rows| && IsActive(rows[i]) && (ByCpe(rows[i], v) || ByName(rows[i], v));
      assert rows[i] in rows;
    }
  }

  // ---------------------------------------------------------------- what a match says

  lemma {:induction false} FirstCpeIsFirst(cpes: seq<string>, known: set<string>) returns (i: nat)
    requires FirstCpe(cpes, known).Some?
    ensures i < |cpes| && cpes[i] == FirstCpe(cpes, known).value && cpes[i] in known
    ensures forall j :: 0 <= j < i ==> cpes[j] !in known
  {
    var n := |cpes| - 1;
    if FirstCpe(cpes[..n], known).Some? {
      i := FirstCpeIsFirst(cpes[..n], known);
    } else {
      i := n;
      assert forall j :: 0 <= j < n ==> cpes[..n][j] == cpes[j];
    }
  }

  ghost predicate HasCpe(rows: seq<Software>, cpe: string) {
    cpe != "" && exists r :: r in rows && r.removedAt == None && r.cpe == Some(cpe)
  }

  lemma CpesAre(rows: seq<Software>, cpe: string)
    ensures cpe in Cpes(ActiveRows(rows)) <==> HasCpe(rows, cpe)
  {
    hide ActiveRows;
    var active := ActiveRows(rows);
    if cpe in Cpes(active) {
      var i :| 0 <= i < |active| && Given(active[i].cpe) && active[i].cpe.value == cpe;
      ActiveAt(rows, active[i]);
    }
    if HasCpe(rows, cpe) {
      var r :| r in rows && r.removedAt == None && r.cpe == Some(cpe);
      ActiveAt(rows, r);
      var i :| 0 <= i < |active| && active[i] == r;
    }
  }

  /** A match by CPE names the first CPE of the vulnerability that an active row has. */
  lemma CpeEvidence(rows: seq<Software>, v: Vulnerability) returns (i: nat)
    requires MatchOf(ActiveRows(rows), v).Some? && MatchOf(ActiveRows(rows), v).value.via == "cpe"
    ensures i < |v.cpes| && MatchOf(ActiveRows(rows), v).value.evidence == v.cpes[i] && HasCpe(rows, v.cpes[i])
    ensures forall j :: 0 <= j < i ==> !HasCpe(rows, v.cpes[j])
  {
    hide ActiveRows, HasCpe, Cpes, Names, ByLowerName;
    i := FirstCpeIsFirst(v.cpes, Cpes(ActiveRows(rows)));
    forall cpe ensures cpe in Cpes(ActiveRows(rows)) <==> HasCpe(rows, cpe) {
      CpesAre(rows, cpe);
    }
  }

  /** The product and the name contain one another. */
  predicate Relates(product: string, r: Software) {
    Related(Lower(product), Lower(r.key.name))
  }

  lemma RelatesMeans(product: string, r: Software)
    ensures Relates(product, r) <==> Inside(product, r.key.name) || Inside(r.key.name, product)
  {
    hide Lower, Inside, Within;
    InsideIsWithin(product, r.key.name);
    InsideIsWithin(r.key.name, product);
  }

  lemma NamesNext(rows: seq<Software>)
    requires rows != []
    ensures
      var before, name := Names(rows[..|rows| - 1]), Lower(rows[|rows| - 1].key.name);
      && Names(rows) == (if name in before then before else before + [name])
      && forall j :: 0 <= j < |rows| - 1 ==> Lower(rows[j].key.name) in before
  {
    hide Lower;
    var front := rows[..|rows| - 1];
    NamesAreKeys(front);
    assert forall j :: 0 <= j < |front| ==> front[j] == rows[j];
  }

  lemma NoneRelated(product: string, names: seq<string>, name: string)
    requires FirstName(product, names).None? && FirstName(product, names + [name]).Some?
    ensures forall n :: n in names ==> !Related(product, n)
    ensures Related(product, name) && FirstName(product, names + [name]) == Some(name)
  {
    hide Related;
    assert (names + [name])[..|names|] == names;
  }

  /** The first name that satisfies a test belongs to the first row whose name does. */
  lemma {:induction false} FirstNameRow(product: string, rows: seq<Software>) returns (i: nat)
    requires FirstName(Lower(product), Names(rows)).Some?
    ensures i < |rows| && Relates(product, rows[i])
    ensures Lower(rows[i].key.name) == FirstName(Lower(product), Names(rows)).value
    ensures forall j :: 0 <= j < i ==> !Relates(product, rows[j])
  {
    hide Lower, Related, Names, FirstName;
    if rows == [] {
      NoNames(product);
    }
    NamesNext(rows);
    var n := |rows| - 1;
    var before, name := Names(rows[..n]), Lower(rows[n].key.name);
    if FirstName(Lower(product), before).Some? {
      i := FirstNameRow(product, rows[..n]);
      FirstNameStays(Lower(product), before, name);
    } else {
      NoneRelated(Lower(product), before, name);
      i := n;
    }
  }

  lemma NoNames(product: string)
    ensures FirstName(Lower(product), Names([])).None?
  {
  }

  lemma FirstNameStays(product: string, names: seq<string>, name: string)
    requires FirstName(product, names).Some?
    ensures FirstName(product, names + [name]) == FirstName(product, names)
  {
    hide Related;
    assert (names + [name])[..|names|] == names;
  }

  /** The row that a name stands for is the last one that carries it. */
  lemma {:induction false} LastOfName(rows: seq<Software>, name: string) returns (i: nat)
    requires name in ByLowerName(rows)
    ensures i < |rows| && ByLowerName(rows)[name] == rows[i] && Lower(rows[i].key.name) == name
    ensures forall j :: i < j < |rows| ==> Lower(rows[j].key.name) != name
  {
    hide Lower;
    var n := |rows| - 1;
    if Lower(rows[n].key.name) == name {
      i := n;
    } else {
      i := LastOfName(rows[..n], name);
    }
  }

  /** A match by name says vendor and product of the vulnerability and the name of a row: of the active rows, the first
      related one decides the name in lower case, and the last one with that name is the one shown. */
  lemma NameEvidenceIs(rows: seq<Software>, v: Vulnerability) returns (first: nat, shown: nat)
    requires MatchOf(ActiveRows(rows), v).Some? && MatchOf(ActiveRows(rows), v).value.via != "cpe"
    ensures v.product != None && MatchOf(ActiveRows(rows), v).value.via == "vendor_product"
    ensures
      var active := ActiveRows(rows);
      && first < |active| && Relates(v.product.value, active[first])
      && (forall j :: 0 <= j < first ==> !Relates(v.product.value, active[j]))
      && shown < |active| && Lower(active[shown].key.name) == Lower(active[first].key.name)
      && (forall j :: shown < j < |active| ==> Lower(active[j].key.name) != Lower(active[first].key.name))
      && MatchOf(active, v).value.evidence ==
         (if v.vendor == None || v.vendor == Some("") then "?" else v.vendor.value)
         + " / " + v.product.value + " ~ " + active[shown].key.name
  {
    hide ActiveRows, Lower, Related, Cpes, Names, ByLowerName;
    var active := ActiveRows(rows);
    first := FirstNameRow(v.product.value, active);
    shown := LastOfName(active, Lower(active[first].key.name));
  }

  // ---------------------------------------------------------------- deadlines

  /** Two weeks for what is known to be exploited; otherwise a week, two weeks, thirty days or ninety days by
      severity, and none without one of these. */
  function Deadline(severity: Option<string>, isKev: bool, now: int): Option<int> {
    if isKev then Some(now + 1_209_600)
    else if severity == Some("critical") then Some(now + 604_800)
    else if severity == Some("high") then Some(now + 1_209_600)
    else if severity == Some("medium") then Some(now + 2_592_000)
    else if severity == Some("low") then Some(now + 7_776_000)
    else None
  }

  lemma DeadlinesAre(severity: Option<string>, isKev: bool, now: int)
    ensures SlaDue(severity, isKev, now) == Deadline(severity, isKev, now)
  {
    if severity.Some? {
      assert severity.value in SLA_DAYS <==> severity.value in {"critical", "high", "medium", "low"};
    }
  }

  /** Every exposure that a recomputation adds is of a vulnerability that affects the asset and had no open exposure; it
      shows the match, is open since now and due by its rule. */
  lemma AddedExposuresAre(
      rows: seq<Exposure>, software: seq<Software>, vulns: seq<Vulnerability>, now: int, a: nat) returns (i: nat)
    requires |rows| <= a < |Recomputed(rows, software, vulns, now)|
    ensures i < |vulns| && Affected(software, vulns[i]) && vulns[i].id !in OpenIds(rows)
    ensures
      var e, m := Recomputed(rows, software, vulns, now)[a], MatchOf(ActiveRows(software), vulns[i]);
      && m.Some? && e.vulnerability == vulns[i].id && e.found == m.value && e.detectedAt == now && e.resolvedAt == None
      && e.slaDue == Deadline(vulns[i].severity, vulns[i].isKev, now)
  {
    hide MatchOf, SlaDue, Deadline, ActiveRows, Affected, MatchedIds, OpenIds, NewExposures;
    var active, open := ActiveRows(software), OpenIds(rows);
    var added := NewExposures(active, vulns, open, now);
    var e := added[a - |rows|];
    assert e in added;
    AddedExposures(active, vulns, open, now, e);
    i :| 0 <= i < |vulns| && vulns[i].id !in open && MatchOf(active, vulns[i]).Some?
         && e == Detected(vulns[i], MatchOf(active, vulns[i]).value, now);
    MatchIsNaive(software, vulns[i]);
    DeadlinesAre(vulns[i].severity, vulns[i].isKev, now);
  }
}
