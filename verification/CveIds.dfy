/** Extraction of CVE identifiers from free text (app/ingest/normalize.py). */
module CveIds {
  import opened Options
  import opened Sequences
  import opened OrderedUnion
  import opened Decimals
  import opened TextScanner

  function UpperChar(c: char): char {
    if 'a' <= c <= 'z' then c - 'a' + 'A' else c
  }

  function Upper(s: string): string {
    seq(|s|, i requires 0 <= i < |s| => UpperChar(s[i]))
  }

  /** The prefix in any case, a year of 19 or 20, a hyphen. */
  predicate HasPrefix(s: string) {
    && |s| >= 9
    && UpperChar(s[0]) == 'C' && UpperChar(s[1]) == 'V' && UpperChar(s[2]) == 'E' && s[3] == '-'
    && ((s[4] == '1' && s[5] == '9') || (s[4] == '2' && s[5] == '0'))
    && IsDigit(s[6]) && IsDigit(s[7]) && s[8] == '-'
  }

  /** The length of the identifier a text starts with: four digits at least and seven at most, as many as there are. */
  function IdLength(s: string): (n: nat)
    ensures n <= |s| && (n == 0 || 13 <= n <= 16)
  {
    if HasPrefix(s) && DigitRun(s[9..], 7) >= 4 then 9 + DigitRun(s[9..], 7) else 0
  }

  function Found(value: string): seq<string> {
    var ms := Matches(IdLength, value);
    seq(|ms|, i requires 0 <= i < |ms| => Upper(ms[i]))
  }

  function TextOf(value: Option<string>): string {
    if value.Some? then value.value else ""
  }

  /** The identifiers of several texts, in order of first appearance. */
  function CveIdsOf(values: seq<Option<string>>): seq<string> {
    if values == [] then [] else
      Extend(CveIdsOf(values[..|values| - 1]), Found(TextOf(values[|values| - 1])))
  }

  method ExtractCveIds(values: seq<Option<string>>) returns (ids: seq<string>)
    ensures ids == CveIdsOf(values)
  {
    hide IdLength, Upper, Extend;
    ids := [];
    var i := 0;
    while i < |values|
      invariant 0 <= i <= |values| && ids == CveIdsOf(values[..i])
    {
      assert values[..i + 1][..i] == values[..i];
      if values[i].Some? && values[i].value != "" {
        ids := ScanInto(ids, values[i].value);
      } else {
        NothingFound(ids);
      }
      i := i + 1;
    }
    assert values[..i] == values;
  }

  method ScanInto(known: seq<string>, value: string) returns (ids: seq<string>)
    ensures ids == Extend(known, Found(value))
  {
    hide IdLength, Upper, Extend, Matches;
    ids := known;
    var at := 0;
    NothingFound(known);
    ghost var ms := [];
    ghost var found: seq<string> := [];
    assert value[0..] == value;
    while at < |value|
      invariant 0 <= at <= |value|
      invariant ms + Matches(IdLength, value[at..]) == Matches(IdLength, value)
      invariant found == seq(|ms|, i requires 0 <= i < |ms| => Upper(ms[i]))
      invariant ids == Extend(known, found)
    {
      var n := IdLength(value[at..]);
      if n > 0 {
        var id := Upper(value[at..at + n]);
        MatchesFirst(IdLength, value[at..]);
        assert value[at..][..n] == value[at..at + n] && value[at..][n..] == value[at + n..];
        ExtendPush(known, found, id);
        if id !in ids {
          ids := ids + [id];
        }
        ms, found := ms + [value[at..at + n]], found + [id];
        at := at + n;
      } else {
        MatchesNext(IdLength, value[at..]);
        assert value[at..][1..] == value[at + 1..];
        at := at + 1;
      }
    }
    NoMatches();
    assert value[at..] == "" && ms == Matches(IdLength, value);
    assert found == Found(value);
  }

  lemma NoMatches()
    ensures Matches(IdLength, "") == []
  {
  }

  lemma NothingFound(known: seq<string>)
    ensures Extend(known, []) == known && Extend(known, Found("")) == known
  {
  }

  // ---------------------------------------------------------------- what is found

  lemma UpperLength(s: string)
    ensures |Upper(s)| == |s| && forall i :: 0 <= i < |s| ==> Upper(s)[i] == UpperChar(s[i])
  {
  }

  lemma {:induction false} DigitRunUpper(s: string, limit: nat)
    ensures DigitRun(Upper(s), limit) == DigitRun(s, limit)
  {
    if limit > 0 && s != "" {
      assert Upper(s)[1..] == Upper(s[1..]);
      DigitRunUpper(s[1..], limit - 1);
    }
  }

  lemma IdLengthUpper(s: string)
    ensures IdLength(Upper(s)) == IdLength(s)
  {
    if |s| >= 9 {
      assert Upper(s)[9..] == Upper(s[9..]);
      DigitRunUpper(s[9..], 7);
    }
  }

  lemma UpperTwice(s: string)
    ensures Upper(Upper(s)) == Upper(s)
  {
  }

  /** The case of the text does not matter. */
  lemma {:induction false} FoundUpper(s: string)
    ensures Found(Upper(s)) == Found(s)
    decreases |s|
  {
    hide IdLength;
    UpperLength(s);
    if s != "" {
      IdLengthUpper(s);
      var n := if IdLength(s) > 0 then IdLength(s) else 1;
      assert Upper(s)[n..] == Upper(s[n..]);
      FoundUpper(s[n..]);
      if IdLength(s) > 0 {
        assert Upper(s)[..n] == Upper(s[..n]);
        UpperTwice(s[..n]);
        FoundFirst(s);
        FoundFirst(Upper(s));
      }
    }
  }

  lemma FoundFirst(s: string)
    requires IdLength(s) > 0
    ensures Found(s) == [Upper(s[..IdLength(s)])] + Found(s[IdLength(s)..])
  {
    hide IdLength;
    MatchesFirst(IdLength, s);
  }

  lemma InsideIsNoStart(s: string, i: nat)
    requires 0 < i < IdLength(s) <= |s|
    ensures IdLength(s[i..]) == 0
  {
    assert s[i..][0] == s[i];
    if i >= 9 {
      var n := DigitRun(s[9..], 7);
      assert s[9..][..n][i - 9] == s[i];
      assert IsDigit(s[i]);
    }
  }

  lemma IdsDoNotOverlap()
    ensures NoOverlap(IdLength)
  {
    hide IdLength;
    forall s: string, i | 0 < i < IdLength(s) <= |s| ensures IdLength(s[i..]) == 0 {
      InsideIsNoStart(s, i);
    }
  }

  /** An identifier begins at a position of the text, in any case. */
  predicate Occurs(s: string, i: int, id: string) {
    0 <= i < |s| && IdLength(s[i..]) > 0 && Upper(s[i..i + IdLength(s[i..])]) == id
  }

  /** The identifiers found are those that occur anywhere in the text. */
  lemma FoundIsEveryOccurrence(s: string, id: string)
    ensures id in Found(s) <==> exists i :: Occurs(s, i, id)
  {
    hide IdLength, Matches;
    IdsDoNotOverlap();
    var ms := Matches(IdLength, s);
    if id in Found(s) {
      var k :| 0 <= k < |ms| && Upper(ms[k]) == id;
      FoundExactly(IdLength, s, ms[k]);
      var i :| MatchAt(IdLength, s, i, ms[k]);
      assert Occurs(s, i, id);
    }
    if i :| Occurs(s, i, id) {
      var x := s[i..i + IdLength(s[i..])];
      assert MatchAt(IdLength, s, i, x);
      FoundExactly(IdLength, s, x);
      var k :| 0 <= k < |ms| && ms[k] == x;
      assert Found(s)[k] == id;
    }
  }

  // ---------------------------------------------------------------- the round trip

  /** An identifier as it is returned. */
  predicate IsCveId(x: string) {
    IdLength(x) == |x| > 0 && Upper(x) == x
  }

  lemma MatchIsId(s: string)
    requires IdLength(s) > 0
    ensures IsCveId(Upper(s[..IdLength(s)]))
  {
    var n := IdLength(s);
    var x := s[..n];
    assert x[9..] == s[9..][..n - 9];
    DigitRunTake(s[9..], 7);
    assert forall i :: 0 <= i < 9 ==> x[i] == s[i];
    IdLengthUpper(x);
    UpperTwice(x);
  }

  lemma {:induction false} FoundAreIds(s: string)
    ensures forall x :: x in Found(s) ==> IsCveId(x)
    decreases |s|
  {
    hide IdLength, IsCveId;
    if s != "" {
      if IdLength(s) > 0 {
        MatchIsId(s);
        FoundFirst(s);
        FoundAreIds(s[IdLength(s)..]);
      } else {
        FoundAreIds(s[1..]);
      }
    }
  }

  lemma {:induction false} ResultsAreIds(values: seq<Option<string>>)
    ensures Distinct(CveIdsOf(values)) && forall x :: x in CveIdsOf(values) ==> IsCveId(x)
  {
    hide IsCveId, Found;
    if values != [] {
      var front, s := CveIdsOf(values[..|values| - 1]), TextOf(values[|values| - 1]);
      ResultsAreIds(values[..|values| - 1]);
      FoundAreIds(s);
      ExtendElements(front, Found(s));
    }
  }

  function Join(ids: seq<string>): string {
    if ids == [] then "" else if |ids| == 1 then ids[0] else ids[0] + " " + Join(ids[1..])
  }

  /** An identifier followed by anything but a digit is found as it is. */
  lemma IdBeforeBlank(x: string, t: string)
    requires IsCveId(x) && (t != "" ==> !IsDigit(t[0]))
    ensures IdLength(x + t) == |x|
  {
    assert (x + t)[9..] == x[9..] + t;
    assert x[9..] == x[9..][..DigitRun(x[9..], 7)];
    DigitRunStops(x[9..], t, 7);
    assert forall i :: 0 <= i < 9 ==> (x + t)[i] == x[i];
  }

  lemma FoundBlank(t: string)
    ensures Found(" " + t) == Found(t)
  {
    assert IdLength(" " + t) == 0;
    assert (" " + t)[1..] == t;
    MatchesNext(IdLength, " " + t);
  }

  lemma {:induction false} FoundJoined(ids: seq<string>)
    requires forall i :: 0 <= i < |ids| ==> IsCveId(ids[i])
    ensures Found(Join(ids)) == ids
  {
    if ids != [] {
      var t := if |ids| == 1 then "" else " " + Join(ids[1..]);
      FoundJoinedFirst(ids[0], t);
      assert Join(ids) == ids[0] + t by {
        if |ids| == 1 {
          assert ids[0] + "" == ids[0];
        } else {
          assert ids[0] + " " + Join(ids[1..]) == ids[0] + (" " + Join(ids[1..]));
        }
      }
      FoundJoined(ids[1..]);
      if |ids| > 1 {
        FoundBlank(Join(ids[1..]));
      }
      assert ids == [ids[0]] + ids[1..];
    }
  }

  lemma FoundJoinedFirst(x: string, t: string)
    requires IsCveId(x) && (t != "" ==> !IsDigit(t[0]))
    ensures Found(x + t) == [x] + Found(t)
  {
    IdBeforeBlank(x, t);
    assert (x + t)[..|x|] == x && (x + t)[|x|..] == t;
    FoundFirst(x + t);
  }

  /** What was extracted is extracted again from its own listing. */
  lemma ExtractRoundTrip(values: seq<Option<string>>)
    ensures CveIdsOf([Some(Join(CveIdsOf(values)))]) == CveIdsOf(values)
  {
    hide IsCveId, Found, Extend;
    var ids := CveIdsOf(values);
    ResultsAreIds(values);
    FoundJoined(ids);
    OneValue(Join(ids));
    ExtendDistinct(ids);
  }

  lemma OneValue(s: string)
    ensures CveIdsOf([Some(s)]) == Extend([], Found(s))
  {
    hide Found, Extend;
    assert [Some(s)][..0] == [];
    assert CveIdsOf([]) == [];
  }

  /** Several texts yield what each yields alone, in order, each identifier once. */
  lemma {:induction false} ExtractIsUnion(a: seq<Option<string>>, b: seq<Option<string>>)
    ensures CveIdsOf(a + b) == Extend(CveIdsOf(a), CveIdsOf(b))
  {
    hide Found, Extend;
    if b == [] {
      assert a + b == a;
      NothingFound(CveIdsOf(a));
    } else {
      assert (a + b)[..|a + b| - 1] == a + b[..|b| - 1];
      ExtractIsUnion(a, b[..|b| - 1]);
      ExtendAssociative(CveIdsOf(a), CveIdsOf(b[..|b| - 1]), Found(TextOf(b[|b| - 1])));
    }
  }

  /** An identifier is extracted exactly when it occurs in one of the texts. */
  lemma {:induction false} ExtractedExactly(values: seq<Option<string>>, id: string)
    ensures id in CveIdsOf(values) <==>
      exists v, i :: 0 <= v < |values| && Occurs(TextOf(values[v]), i, id)
  {
    hide Found, Extend, Occurs;
    if values != [] {
      var front, last := values[..|values| - 1], values[|values| - 1];
      ExtractedExactly(front, id);
      FoundIsEveryOccurrence(TextOf(last), id);
      ExtendElements(CveIdsOf(front), Found(TextOf(last)));
      if v, i :| 0 <= v < |values| && Occurs(TextOf(values[v]), i, id) {
        assert v < |front| ==> front[v] == values[v];
      }
      if v, i :| 0 <= v < |front| && Occurs(TextOf(front[v]), i, id) {
        assert values[v] == front[v];
      }
    }
  }
}
