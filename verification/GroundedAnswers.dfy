/** Retrieval, numbering and the citation contract of generated answers (app/ai/rag.py, app/ai/grounding.py). */
module GroundedAnswers {
  import opened Options
  import opened Sequences
  import opened Decimals
  import opened TextScanner
  import opened CveIds

  datatype Chunk = Chunk(entityType: string, entityId: string, title: string, text: string)

  /** The known CVEs with the text that renders them, the documents nearest to the question first, the victims that its
      text matches, and whether a model is configured. */
  datatype Evidence = Evidence(known: map<string, string>, documents: seq<Chunk>, victims: seq<Chunk>, configured: bool)

  function KeyOf(c: Chunk): (string, string) {
    (c.entityType, c.entityId)
  }

  function VulnerabilityChunk(cve: string, text: string): Chunk {
    Chunk("vulnerability", cve, cve, text)
  }

  function FirstOf(s: seq<Chunk>, limit: int): seq<Chunk> {
    if limit <= 0 then [] else if limit < |s| then s[..limit] else s
  }

  function ExactChunks(known: map<string, string>, ids: seq<string>): seq<Chunk> {
    if ids == [] then [] else
      var before, id := ExactChunks(known, ids[..|ids| - 1]), ids[|ids| - 1];
      if id in known then before + [VulnerabilityChunk(id, known[id])] else before
  }

  function Keys(chunks: seq<Chunk>): set<(string, string)> {
    set i | 0 <= i < |chunks| :: KeyOf(chunks[i])
  }

  function UniqueChunks(chunks: seq<Chunk>): seq<Chunk> {
    if chunks == [] then [] else
      var before, c := UniqueChunks(chunks[..|chunks| - 1]), chunks[|chunks| - 1];
      if KeyOf(c) in Keys(chunks[..|chunks| - 1]) then before else before + [c]
  }

  function KnownChunks(e: Evidence, question: string): seq<Chunk> {
    ExactChunks(e.known, CveIdsOf([Some(question)]))
  }

  function Candidates(e: Evidence, question: string, topK: int): seq<Chunk> {
    var exact := KnownChunks(e, question);
    var more := if |exact| < topK && e.configured then exact + FirstOf(e.documents, topK - |exact|) else exact;
    if more == [] then FirstOf(e.victims, topK) else more
  }

  function Retrieved(e: Evidence, question: string, topK: int): seq<Chunk> {
    FirstOf(UniqueChunks(Candidates(e, question, topK)), topK)
  }

  method Retrieve(e: Evidence, question: string, topK: nat) returns (chunks: seq<Chunk>)
    ensures chunks == Retrieved(e, question, topK)
  {
    hide CveIdsOf;
    var ids := ExtractCveIds([Some(question)]);
    chunks := [];
    var i := 0;
    while i < |ids|
      invariant 0 <= i <= |ids| && chunks == ExactChunks(e.known, ids[..i])
    {
      assert ids[..i + 1][..i] == ids[..i];
      if ids[i] in e.known {
        chunks := chunks + [VulnerabilityChunk(ids[i], e.known[ids[i]])];
      }
      i := i + 1;
    }
    assert ids[..i] == ids;
    if |chunks| < topK && e.configured {
      chunks := chunks + FirstOf(e.documents, topK - |chunks|);
    }
    if chunks == [] {
      chunks := FirstOf(e.victims, topK);
    }
    chunks := Deduplicate(chunks);
    chunks := FirstOf(chunks, topK);
  }

  method Deduplicate(chunks: seq<Chunk>) returns (unique: seq<Chunk>)
    ensures unique == UniqueChunks(chunks)
  {
    hide Keys;
    unique := [];
    var seen := {};
    NoKeys();
    assert chunks[..0] == [];
    var i := 0;
    while i < |chunks|
      invariant 0 <= i <= |chunks| && unique == UniqueChunks(chunks[..i]) && seen == Keys(chunks[..i])
    {
      assert chunks[..i + 1][..i] == chunks[..i];
      assert chunks[..i + 1] == chunks[..i] + [chunks[i]];
      KeysPush(chunks[..i], chunks[i]);
      if KeyOf(chunks[i]) !in seen {
        seen := seen + {KeyOf(chunks[i])};
        unique := unique + [chunks[i]];
      }
      i := i + 1;
    }
    assert chunks[..i] == chunks;
  }

  lemma NoKeys()
    ensures Keys([]) == {}
  {
  }

  lemma KeysPush(chunks: seq<Chunk>, c: Chunk)
    ensures Keys(chunks + [c]) == Keys(chunks) + {KeyOf(c)}
  {
    var more := chunks + [c];
    assert forall i :: 0 <= i < |chunks| ==> more[i] == chunks[i];
    assert more[|chunks|] == c;
  }

  // ---------------------------------------------------------------- what is retrieved

  ghost predicate DistinctKeys(chunks: seq<Chunk>) {
    forall i, j :: 0 <= i < j < |chunks| ==> KeyOf(chunks[i]) != KeyOf(chunks[j])
  }

  lemma DistinctKeysPush(chunks: seq<Chunk>, c: Chunk)
    requires DistinctKeys(chunks) && KeyOf(c) !in Keys(chunks)
    ensures DistinctKeys(chunks + [c])
  {
    forall i | 0 <= i < |chunks| ensures KeyOf(chunks[i]) != KeyOf(c) {
      assert KeyOf(chunks[i]) in Keys(chunks);
    }
  }

  lemma {:induction false} UniqueChunksKeys(chunks: seq<Chunk>)
    ensures DistinctKeys(UniqueChunks(chunks)) && Keys(UniqueChunks(chunks)) == Keys(chunks)
    ensures forall c :: c in UniqueChunks(chunks) ==> c in chunks
  {
    hide Keys;
    if chunks == [] {
      assert DistinctKeys([]);
    } else {
      var front, c := chunks[..|chunks| - 1], chunks[|chunks| - 1];
      assert chunks == front + [c];
      UniqueChunksKeys(front);
      KeysPush(front, c);
      KeysPush(UniqueChunks(front), c);
      if KeyOf(c) !in Keys(front) {
        DistinctKeysPush(UniqueChunks(front), c);
      }
    }
  }

  /** A front without repetition survives. */
  lemma {:induction false} UniqueKeepsFront(a: seq<Chunk>, b: seq<Chunk>)
    requires DistinctKeys(a)
    ensures a <= UniqueChunks(a + b)
  {
    hide Keys;
    if b != [] {
      assert (a + b)[..|a + b| - 1] == a + b[..|b| - 1];
      UniqueKeepsFront(a, b[..|b| - 1]);
    } else if a != [] {
      var front, c := a[..|a| - 1], a[|a| - 1];
      assert a + b == a;
      assert front + [] == front;
      UniqueKeepsFront(front, []);
      UniqueChunksKeys(front);
      LastIsNew(a);
      UniqueLength(front);
      assert UniqueChunks(front) == front;
    }
  }

  lemma LastIsNew(a: seq<Chunk>)
    requires DistinctKeys(a) && a != []
    ensures KeyOf(a[|a| - 1]) !in Keys(a[..|a| - 1])
  {
  }

  lemma {:induction false} UniqueLength(chunks: seq<Chunk>)
    ensures |UniqueChunks(chunks)| <= |chunks|
  {
    hide Keys;
    if chunks != [] {
      UniqueLength(chunks[..|chunks| - 1]);
    }
  }

  lemma {:induction false} ExactChunksAre(known: map<string, string>, ids: seq<string>)
    requires Distinct(ids)
    ensures DistinctKeys(ExactChunks(known, ids))
    ensures forall c :: c in ExactChunks(known, ids) ==>
      c.entityId in ids && c.entityId in known && c == VulnerabilityChunk(c.entityId, known[c.entityId])
    ensures forall id :: id in ids && id in known ==> VulnerabilityChunk(id, known[id]) in ExactChunks(known, ids)
  {
    if ids != [] {
      var front, id := ids[..|ids| - 1], ids[|ids| - 1];
      ExactChunksAre(known, front);
      assert id !in front;
    }
  }

  /** Retrieval returns at most the asked number of chunks, none twice, and the known CVEs of the question come first,
      in the order of the question. */
  lemma RetrievalIsExactFirst(e: Evidence, question: string, topK: nat)
    ensures
      var chunks := Retrieved(e, question, topK);
      && |chunks| <= topK && DistinctKeys(chunks)
      && FirstOf(KnownChunks(e, question), topK) <= chunks
  {
    hide Keys, UniqueChunks, DistinctKeys, KeyOf, ExactChunks, CveIdsOf;
    var exact, all := KnownChunks(e, question), Candidates(e, question, topK);
    ResultsAreIds([Some(question)]);
    ExactChunksAre(e.known, CveIdsOf([Some(question)]));
    UniqueChunksKeys(all);
    UniqueKeepsFront(exact, all[|exact|..]);
    assert all == exact + all[|exact|..];
    FrontIsDistinct(UniqueChunks(all), topK);
  }

  lemma FrontIsDistinct(chunks: seq<Chunk>, limit: nat)
    requires DistinctKeys(chunks)
    ensures DistinctKeys(FirstOf(chunks, limit))
  {
  }

  /** Every known CVE that the question mentions is among those that come first, and nothing else is. */
  lemma KnownChunksExactly(e: Evidence, question: string, id: string)
    ensures
      (exists c :: c in KnownChunks(e, question) && c.entityId == id) <==>
        id in e.known && exists i :: Occurs(question, i, id)
  {
    hide CveIdsOf, ExactChunks, Occurs;
    var ids := CveIdsOf([Some(question)]);
    ResultsAreIds([Some(question)]);
    ExactChunksAre(e.known, ids);
    ExtractedExactly([Some(question)], id);
    assert [Some(question)][0] == Some(question) && TextOf(Some(question)) == question;
  }

  // ---------------------------------------------------------------- numbering

  function Label(number: nat): string {
    "[" + Decimal(number) + "]"
  }

  function Entry(number: nat, c: Chunk): string {
    Label(number) + " (" + c.entityType + ") " + c.title + "\n" + c.text
  }

  /** The context a model is given: the chunks numbered from one. */
  function Context(chunks: seq<Chunk>): string {
    if chunks == [] then ""
    else if |chunks| == 1 then Entry(1, chunks[0])
    else Context(chunks[..|chunks| - 1]) + "\n\n" + Entry(|chunks|, chunks[|chunks| - 1])
  }

  ghost predicate Contains(s: string, x: string) {
    exists p :: 0 <= p <= |s| && x <= s[p..]
  }

  lemma ContainsLater(a: string, b: string, x: string)
    requires Contains(a, x)
    ensures Contains(a + b, x)
  {
    var p :| 0 <= p <= |a| && x <= a[p..];
    assert (a + b)[p..] == a[p..] + b;
  }

  lemma ContainsEnd(a: string, x: string)
    ensures Contains(a + x, x)
  {
    assert (a + x)[|a|..] == x;
  }

  lemma EntryReads(number: nat, c: Chunk)
    ensures Entry(number, c) == "[" + Decimal(number) + "] (" + c.entityType + ") " + c.title + "\n" + c.text
  {
    hide Decimal;
    assert ("[" + Decimal(number)) + ("]" + " (") == "[" + Decimal(number) + "] (";
  }

  /** Consecutive chunks are printed one after the other with an empty line between them. */
  lemma {:induction false} PrintedInOrder(chunks: seq<Chunk>, number: nat)
    requires 1 <= number < |chunks|
    ensures Contains(Context(chunks), Entry(number, chunks[number - 1]) + "\n\n" + Entry(number + 1, chunks[number]))
  {
    hide Contains, Entry;
    var n := |chunks|;
    var front := chunks[..n - 1];
    var before, last := Context(front), Entry(n, chunks[n - 1]);
    if number + 1 == n {
      var head := ContextEnds(front);
      assert before + "\n\n" + last == head + (Entry(number, chunks[number - 1]) + "\n\n" + last);
      ContainsEnd(head, Entry(number, chunks[number - 1]) + "\n\n" + last);
    } else {
      PrintedInOrder(front, number);
      var both := Entry(number, chunks[number - 1]) + "\n\n" + Entry(number + 1, chunks[number]);
      ContainsLater(before, "\n\n", both);
      ContainsLater(before + "\n\n", last, both);
    }
  }

  lemma ContextEnds(chunks: seq<Chunk>) returns (head: string)
    requires chunks != []
    ensures Context(chunks) == head + Entry(|chunks|, chunks[|chunks| - 1])
  {
    hide Entry;
    head := if |chunks| == 1 then "" else Context(chunks[..|chunks| - 1]) + "\n\n";
    if |chunks| == 1 {
      assert "" + Entry(1, chunks[0]) == Entry(1, chunks[0]);
    }
  }

  /** Chunk number n is printed as n. */
  lemma {:induction false} PrintedAs(chunks: seq<Chunk>, number: nat)
    requires 1 <= number <= |chunks|
    ensures Contains(Context(chunks), Entry(number, chunks[number - 1]))
    ensures
      var c := chunks[number - 1];
      Contains(Context(chunks), "[" + Decimal(number) + "] (" + c.entityType + ") " + c.title + "\n" + c.text)
  {
    hide Contains, Entry;
    EntryReads(number, chunks[number - 1]);
    var n := |chunks|;
    if n == 1 {
      ContainsEnd("", Entry(1, chunks[0]));
      assert "" + Entry(1, chunks[0]) == Entry(1, chunks[0]);
    } else {
      var before, last := Context(chunks[..n - 1]), Entry(n, chunks[n - 1]);
      if number == n {
        ContainsEnd(before + "\n\n", last);
      } else {
        PrintedAs(chunks[..n - 1], number);
        ContainsLater(before, "\n\n", Entry(number, chunks[number - 1]));
        ContainsLater(before + "\n\n", last, Entry(number, chunks[number - 1]));
      }
    }
  }

  // ---------------------------------------------------------------- the citation contract

  /** Stands for the sentence that replaces a rejected answer. */
  const WITHHELD_ANSWER := "Rejected: the citations of this answer do not hold. See the sources."

  /** The length of the marker a text starts with: a number in brackets. */
  function MarkerLength(s: string): (n: nat)
    ensures n <= |s|
    ensures n > 0 ==> n >= 3 && s[0] == '[' && AllDigits(s[1..n - 1]) && s[n - 1] == ']'
  {
    if s == "" || s[0] != '[' then 0 else
      var n := DigitRun(s[1..], |s|);
      assert n > 0 && n + 1 < |s| ==> s[1..n + 1] == s[1..][..n];
      if n > 0 && n + 1 < |s| && s[n + 1] == ']' then n + 2 else 0
  }

  function MarkerValue(m: string): nat {
    if |m| >= 2 && AllDigits(m[1..|m| - 1]) then Value(m[1..|m| - 1]) else 0
  }

  function Markers(answer: string): seq<nat> {
    var ms := Matches(MarkerLength, answer);
    seq(|ms|, i requires 0 <= i < |ms| => MarkerValue(ms[i]))
  }

  predicate InRange(values: seq<nat>, citations: nat) {
    forall i :: 0 <= i < |values| ==> 1 <= values[i] <= citations
  }

  function EnforceCitationContract(answer: string, citations: nat, generated: bool): (string, bool) {
    if !generated then (answer, true)
    else if citations > 0 && Markers(answer) != [] && InRange(Markers(answer), citations) then (answer, true)
    else (WITHHELD_ANSWER, false)
  }

  /** A marker begins at a position of the answer and names a number. */
  predicate Cites(answer: string, i: int, number: int) {
    0 <= i < |answer| && MarkerLength(answer[i..]) > 0
    && MarkerValue(answer[i..i + MarkerLength(answer[i..])]) == number
  }

  /** Digits in brackets. */
  predicate IsMarker(x: string) {
    && |x| >= 3 && x[0] == '[' && x[|x| - 1] == ']'
    && forall i :: 0 < i < |x| - 1 ==> '0' <= x[i] <= '9'
  }

  lemma FoundIsMarker(s: string)
    requires MarkerLength(s) > 0
    ensures IsMarker(s[..MarkerLength(s)])
  {
    var n := MarkerLength(s);
    assert forall i :: 0 < i < n - 1 ==> s[1..n - 1][i - 1] == s[i] && IsDigit(s[1..n - 1][i - 1]);
    assert forall i :: 0 <= i < n ==> s[..n][i] == s[i];
  }

  lemma AfterBracket(s: string, n: nat)
    requires 3 <= n <= |s|
    ensures s[1..] == s[1..n - 1] + s[n - 1..]
  {
  }

  lemma MarkerIsFound(s: string, n: nat)
    requires n <= |s| && IsMarker(s[..n])
    ensures MarkerLength(s) == n
  {
    assert forall i :: 0 <= i < n ==> s[..n][i] == s[i];
    var digits, rest := s[1..n - 1], s[n - 1..];
    AfterBracket(s, n);
    assert forall i :: 0 <= i < |digits| ==> digits[i] == s[i + 1] && IsDigit(digits[i]);
    assert rest[0] == s[n - 1];
    DigitRunStops(digits, rest, |s|);
  }

  /** A text starts with a marker exactly when that is what is found at its front. */
  lemma MarkersAreDigitsInBrackets(s: string, n: nat)
    requires 0 < n <= |s|
    ensures IsMarker(s[..n]) <==> MarkerLength(s) == n
  {
    hide MarkerLength, IsMarker;
    if IsMarker(s[..n]) {
      MarkerIsFound(s, n);
    } else if MarkerLength(s) == n {
      FoundIsMarker(s);
    }
  }

  lemma InsideIsNoMarker(s: string, i: nat)
    requires 0 < i < MarkerLength(s) <= |s|
    ensures MarkerLength(s[i..]) == 0
  {
    var n := MarkerLength(s);
    assert s[i..][0] == s[i];
    if i < n - 1 {
      assert s[1..n - 1][i - 1] == s[i];
    }
  }

  lemma MarkersDoNotOverlap()
    ensures NoOverlap(MarkerLength)
  {
    hide MarkerLength;
    forall s: string, i | 0 < i < MarkerLength(s) <= |s| ensures MarkerLength(s[i..]) == 0 {
      InsideIsNoMarker(s, i);
    }
  }

  ghost predicate Cited(answer: string, number: int) {
    exists i :: Cites(answer, i, number)
  }

  lemma MarkerIsCited(answer: string, k: nat)
    requires k < |Markers(answer)|
    ensures Cited(answer, Markers(answer)[k])
  {
    hide MarkerLength, Matches, MarkerValue, NoOverlap;
    MarkersDoNotOverlap();
    var x := Matches(MarkerLength, answer)[k];
    FoundExactly(MarkerLength, answer, x);
    var i :| MatchAt(MarkerLength, answer, i, x);
    assert Cites(answer, i, Markers(answer)[k]);
  }

  lemma CitedIsMarker(answer: string, i: int, number: int)
    requires Cites(answer, i, number)
    ensures number in Markers(answer)
  {
    hide MarkerLength, Matches, MarkerValue, NoOverlap;
    MarkersDoNotOverlap();
    var x := answer[i..i + MarkerLength(answer[i..])];
    assert MatchAt(MarkerLength, answer, i, x) by { hide NoOverlap; MarkerFits(answer, i); }
    FoundExactly(MarkerLength, answer, x);
    var ms := Matches(MarkerLength, answer);
    var k :| 0 <= k < |ms| && ms[k] == x;
    assert Markers(answer)[k] == number;
  }

  lemma MarkerFits(answer: string, i: nat)
    requires i < |answer|
    ensures MarkerLength(answer[i..]) <= |answer| - i
  {
  }

  /** The scan misses no marker and invents none. */
  lemma MarkersAreCitations(answer: string, number: int)
    ensures number in Markers(answer) <==> Cited(answer, number)
  {
    hide Markers, Cites;
    if number in Markers(answer) {
      var k :| 0 <= k < |Markers(answer)| && Markers(answer)[k] == number;
      MarkerIsCited(answer, k);
    }
    if i :| Cites(answer, i, number) {
      CitedIsMarker(answer, i, number);
    }
  }

  /** A generated answer is passed on exactly when it cites something and every citation, wherever it stands, resolves;
      otherwise nothing of it is. */
  lemma AcceptedExactly(answer: string, citations: nat)
    ensures
      var (text, accepted) := EnforceCitationContract(answer, citations, true);
      && text == (if accepted then answer else WITHHELD_ANSWER)
      && (accepted <==>
            (exists number :: Cited(answer, number))
            && forall number :: Cited(answer, number) ==> 1 <= number <= citations)
  {
    hide Markers, Cited;
    var values := Markers(answer);
    forall number: int ensures number in values <==> Cited(answer, number) {
      MarkersAreCitations(answer, number);
    }
    if values != [] {
      assert values[0] in values;
      assert Cited(answer, values[0]);
    }
    RangeOfMembers(values, citations);
  }

  lemma RangeOfMembers(values: seq<nat>, citations: nat)
    ensures InRange(values, citations) <==> forall number: int :: number in values ==> 1 <= number <= citations
  {
    if forall number: int :: number in values ==> 1 <= number <= citations {
      forall i | 0 <= i < |values| ensures 1 <= values[i] <= citations {
        assert values[i] in values;
      }
    }
  }

  /** In an accepted answer every marker names a retrieved chunk, and that chunk is the one printed under its number. */
  lemma AcceptedCitationsResolve(e: Evidence, question: string, topK: nat, answer: string, number: int)
    requires EnforceCitationContract(answer, |Retrieved(e, question, topK)|, true).1
    requires Cited(answer, number)
    ensures
      var chunks := Retrieved(e, question, topK);
      1 <= number <= |chunks| <= topK && Contains(Context(chunks), Entry(number, chunks[number - 1]))
  {
    hide Cited, Retrieved, EnforceCitationContract, Context, Entry, Contains;
    AcceptedExactly(answer, |Retrieved(e, question, topK)|);
    RetrievalIsExactFirst(e, question, topK);
    PrintedAs(Retrieved(e, question, topK), number);
  }

  /** A printed label is read back as its number. */
  lemma LabelReadsBack(number: nat)
    ensures Markers(Label(number)) == [number]
  {
    hide Decimal, Value;
    var d, s := Decimal(number), Label(number);
    assert s[1..] == d + "]";
    DigitRunStops(d, "]", |s|);
    assert MarkerLength(s) == |s|;
    MatchesFirst(MarkerLength, s);
    assert s[..|s|] == s && s[|s|..] == "";
    assert s[1..|s| - 1] == d;
    ValueOfDecimal(number);
  }
}
