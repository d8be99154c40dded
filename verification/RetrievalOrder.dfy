/** Which chunks retrieval returns, and in which order, told without the steps that collect them. */
module RetrievalOrder {
  import opened Options
  import opened Sequences
  import opened OrderedUnion
  import opened Decimals
  import opened TextScanner
  import opened CveIds
  import opened GroundedAnswers

  // ---------------------------------------------------------------- the grammar of an identifier

  /** The text is an identifier in any case: four to seven digits after the year. */
  predicate IsIdText(x: string) {
    && 13 <= |x| <= 16 && x[0] in "Cc" && x[1] in "Vv" && x[2] in "Ee" && x[3] == '-'
    && x[4..6] in {"19", "20"} && '0' <= x[6] <= '9' && '0' <= x[7] <= '9' && x[8] == '-'
    && forall i :: 9 <= i < |x| ==> '0' <= x[i] <= '9'
  }

  lemma UpperIs(c: char)
    ensures UpperChar(c) == 'C' <==> c in "Cc"
    ensures UpperChar(c) == 'V' <==> c in "Vv"
    ensures UpperChar(c) == 'E' <==> c in "Ee"
  {
  }

  lemma YearIs(s: string)
    requires |s| >= 9
    ensures s[4..6] in {"19", "20"} <==> (s[4] == '1' && s[5] == '9') || (s[4] == '2' && s[5] == '0')
  {
    assert s[4..6] == [s[4], s[5]];
  }

  lemma IdTextHasPrefix(s: string, n: nat)
    requires 13 <= n <= 16 && n <= |s|
    ensures IsIdText(s[..n]) <==> HasPrefix(s) && forall i :: 9 <= i < n ==> '0' <= s[i] <= '9'
  {
    UpperIs(s[0]);
    UpperIs(s[1]);
    UpperIs(s[2]);
    YearIs(s);
    assert s[..n][4..6] == s[4..6];
    assert forall i :: 0 <= i < n ==> s[..n][i] == s[i];
  }

  /** What is found at the front of a text is the longest identifier that stands there. */
  lemma LongestId(s: string)
    ensures IdLength(s) > 0 ==> IsIdText(s[..IdLength(s)])
    ensures forall n :: IdLength(s) < n <= |s| ==> !IsIdText(s[..n])
  {
    hide HasPrefix;
    var run := if |s| >= 9 then DigitRun(s[9..], 7) else 0;
    if IdLength(s) > 0 {
      ShortText(s);
      IdTextHasPrefix(s, IdLength(s));
      assert forall i :: 0 <= i < run ==> s[9..][..run][i] == s[9 + i] && IsDigit(s[9..][..run][i]);
    }
    forall n: nat | IdLength(s) < n <= |s| && 13 <= n <= 16 ensures !IsIdText(s[..n]) {
      IdTextHasPrefix(s, n);
      if HasPrefix(s) {
        assert run < n - 9;
        assert s[9..][run] == s[9 + run];
      }
    }
  }

  lemma ShortText(s: string)
    requires IdLength(s) > 0
    ensures |s| >= 9 && IdLength(s) == 9 + DigitRun(s[9..], 7)
  {
  }

  // ---------------------------------------------------------------- identifiers in order of appearance

  /** The identifier begins there, and nowhere before. */
  ghost predicate FirstAt(s: string, i: int, id: string) {
    Occurs(s, i, id) && forall j :: Occurs(s, j, id) ==> i <= j
  }

  ghost predicate Rising(at: seq<int>) {
    forall k, l :: 0 <= k < l < |at| ==> at[k] < at[l]
  }

  /** The positions at which an identifier begins, from left to right. */
  ghost predicate AllBegins(s: string, at: seq<int>) {
    && |at| == |Found(s)| && Rising(at)
    && (forall k :: 0 <= k < |at| ==> Occurs(s, at[k], Found(s)[k]))
    && forall i, id :: Occurs(s, i, id) ==> exists k :: 0 <= k < |at| && at[k] == i
  }

  lemma OccursShift(s: string, n: nat, i: int, id: string)
    requires n <= |s| && 0 <= i
    ensures Occurs(s[n..], i, id) <==> Occurs(s, n + i, id)
  {
    hide IdLength;
    if i < |s| - n {
      assert s[n..][i..] == s[n + i..];
      var k := IdLength(s[n + i..]);
      assert s[n..][i..i + k] == s[n + i..n + i + k];
    }
  }

  lemma OccursInside(s: string, i: int, id: string)
    requires Occurs(s, i, id)
    ensures 0 <= i < |s| && IdLength(s[i..]) > 0 && id == Upper(s[i..i + IdLength(s[i..])])
  {
  }

  lemma NoneWithin(s: string, i: int, id: string)
    requires Occurs(s, i, id) && s != ""
    ensures i == 0 || i >= StepOf(s)
  {
    hide IdLength;
    IdsDoNotOverlap();
  }

  /** One step of the scan: past the identifier that stands at the front, or past one character. */
  function StepOf(s: string): nat {
    if IdLength(s) > 0 then IdLength(s) else 1
  }

  function FrontOf(s: string): seq<string> {
    if IdLength(s) > 0 then [Upper(s[..IdLength(s)])] else []
  }

  function Shifted(s: string, rest: seq<int>): seq<int> {
    (if IdLength(s) > 0 then [0] else []) + seq(|rest|, k requires 0 <= k < |rest| => StepOf(s) + rest[k])
  }

  lemma ShiftedAt(s: string, rest: seq<int>)
    ensures
      var at, d := Shifted(s, rest), |FrontOf(s)|;
      && |at| == d + |rest| && d <= 1 && (d == 1 ==> at[0] == 0)
      && forall k :: 0 <= k < |rest| ==> at[d + k] == StepOf(s) + rest[k]
  {
    hide IdLength, Upper, StepOf;
  }

  lemma ShiftedOccurs(s: string, rest: seq<int>, k: nat)
    requires s != "" && StepOf(s) <= |s| && Found(s) == FrontOf(s) + Found(s[StepOf(s)..])
    requires AllBegins(s[StepOf(s)..], rest) && k < |Shifted(s, rest)|
    ensures Occurs(s, Shifted(s, rest)[k], Found(s)[k])
  {
    hide IdLength, Upper, Found, Occurs, StepOf, Shifted, Rising;
    var n, d := StepOf(s), |FrontOf(s)|;
    ShiftedAt(s, rest);
    if k < d {
      FirstOccurs(s);
    } else {
      var id := Found(s[n..])[k - d];
      OccursInside(s[n..], rest[k - d], id);
      OccursShift(s, n, rest[k - d], id);
      assert Shifted(s, rest)[d + (k - d)] == n + rest[k - d];
    }
  }

  lemma ShiftedRises(s: string, rest: seq<int>)
    requires Rising(rest) && forall k :: 0 <= k < |rest| ==> rest[k] >= 0
    ensures Rising(Shifted(s, rest))
  {
    hide IdLength, Upper, StepOf;
    StepsOn(s);
  }

  lemma BeginsInside(s: string, at: seq<int>)
    requires AllBegins(s, at)
    ensures forall k :: 0 <= k < |at| ==> at[k] >= 0
  {
    hide IdLength, Upper, Found, Rising;
  }

  lemma StepsOn(s: string)
    ensures StepOf(s) >= 1
  {
  }

  lemma ShiftedAll(s: string, rest: seq<int>, i: int, id: string)
    requires s != "" && StepOf(s) <= |s| && AllBegins(s[StepOf(s)..], rest) && Occurs(s, i, id)
    ensures exists k :: 0 <= k < |Shifted(s, rest)| && Shifted(s, rest)[k] == i
  {
    hide IdLength, Upper, Found, Occurs, StepOf, Shifted;
    var n, d := StepOf(s), |FrontOf(s)|;
    ShiftedAt(s, rest);
    NoneWithin(s, i, id);
    OccursInside(s, i, id);
    if i == 0 {
      ZeroBegins(s, id);
      assert Shifted(s, rest)[0] == i;
    } else {
      OccursShift(s, n, i - n, id);
      var k :| 0 <= k < |rest| && rest[k] == i - n;
      assert Shifted(s, rest)[d + k] == i;
    }
  }

  lemma ShiftedBegins(s: string, rest: seq<int>)
    requires s != "" && StepOf(s) <= |s| && Found(s) == FrontOf(s) + Found(s[StepOf(s)..])
    requires AllBegins(s[StepOf(s)..], rest)
    ensures AllBegins(s, Shifted(s, rest))
  {
    hide IdLength, Upper, Found, Occurs, StepOf, Shifted;
    ShiftedAt(s, rest);
    BeginsInside(s[StepOf(s)..], rest);
    ShiftedRises(s, rest);
    forall k | 0 <= k < |Shifted(s, rest)| ensures Occurs(s, Shifted(s, rest)[k], Found(s)[k]) {
      ShiftedOccurs(s, rest, k);
    }
    forall i, id | Occurs(s, i, id) ensures exists k :: 0 <= k < |Shifted(s, rest)| && Shifted(s, rest)[k] == i {
      ShiftedAll(s, rest, i, id);
    }
  }

  lemma ZeroBegins(s: string, id: string)
    requires Occurs(s, 0, id)
    ensures IdLength(s) > 0
  {
    assert s[0..] == s;
  }

  lemma FirstOccurs(s: string)
    requires IdLength(s) > 0
    ensures Occurs(s, 0, Upper(s[..IdLength(s)]))
  {
    assert s[0..] == s && s[0..0 + IdLength(s)] == s[..IdLength(s)];
  }

  lemma {:induction false} Begins(s: string) returns (at: seq<int>)
    ensures AllBegins(s, at)
    decreases |s|
  {
    hide IdLength, Upper, Occurs, AllBegins, StepOf, Shifted, FrontOf, Found;
    if s == "" {
      at := [];
      assert AllBegins(s, at) by { NoneBegin(); }
    } else {
      StepOfFound(s);
      var rest := Begins(s[StepOf(s)..]);
      at := Shifted(s, rest);
      ShiftedBegins(s, rest);
    }
  }

  lemma StepOfFound(s: string)
    requires s != ""
    ensures 1 <= StepOf(s) <= |s| && Found(s) == FrontOf(s) + Found(s[StepOf(s)..])
  {
    hide IdLength, Upper;
    if IdLength(s) > 0 {
      FoundFirst(s);
    } else {
      MatchesNext(IdLength, s);
    }
  }

  lemma NoneBegin()
    ensures AllBegins("", [])
  {
  }

  /** The entries that are not repeated from further left, with where they stand. */
  ghost predicate Firsts<T>(source: seq<T>, list: seq<T>, at: seq<nat>) {
    && |at| == |list| && (forall k, l :: 0 <= k < l < |at| ==> at[k] < at[l])
    && (forall k :: 0 <= k < |at| ==> at[k] < |source| && list[k] == source[at[k]])
    && forall j :: 0 <= j < |source| ==> (j in at <==> source[j] !in source[..j])
  }

  lemma FirstsPush<T>(source: seq<T>, x: T, list: seq<T>, at: seq<nat>)
    requires Firsts(source, list, at)
    ensures x in source ==> Firsts(source + [x], list, at)
    ensures x !in source ==> Firsts(source + [x], list + [x], at + [|source|])
  {
    var longer := source + [x];
    assert longer[..|source|] == source && longer[|source|] == x;
    forall j | 0 <= j < |source| ensures longer[j] == source[j] && longer[..j] == source[..j] {
    }
    if x !in source {
      assert forall j :: j in at + [|source|] <==> j in at || j == |source|;
    }
  }

  lemma {:induction false} ExtendIsFirsts<T>(source: seq<T>) returns (at: seq<nat>)
    ensures Firsts(source, Extend([], source), at)
  {
    hide Firsts;
    if source == [] {
      at := [];
      assert Firsts<T>([], [], []) by { NoFirsts<T>(); }
    } else {
      var front, x := source[..|source| - 1], source[|source| - 1];
      var before := ExtendIsFirsts(front);
      ExtendElements([], front);
      FirstsPush(front, x, Extend([], front), before);
      assert front + [x] == source;
      at := if x in front then before else before + [|front|];
    }
  }

  lemma NoFirsts<T>()
    ensures Firsts<T>([], [], [])
  {
  }

  /** The identifiers of a text stand in the order in which they first begin in it. */
  lemma IdsInOrder(s: string) returns (at: seq<int>)
    ensures |at| == |CveIdsOf([Some(s)])| && Rising(at)
    ensures forall k :: 0 <= k < |at| ==> FirstAt(s, at[k], CveIdsOf([Some(s)])[k])
  {
    hide Occurs, Upper, IdLength, Found, Extend;
    var begins := Begins(s);
    OneValue(s);
    var ids := CveIdsOf([Some(s)]);
    var firsts := ExtendIsFirsts(Found(s));
    at := seq(|firsts|, k requires 0 <= k < |firsts| => begins[firsts[k]]);
    forall k | 0 <= k < |at| ensures FirstAt(s, at[k], ids[k]) {
      FirstBegins(s, begins, firsts[k], ids[k]);
    }
  }

  lemma FirstBegins(s: string, begins: seq<int>, j: nat, id: string)
    requires AllBegins(s, begins) && j < |begins| && id == Found(s)[j] && id !in Found(s)[..j]
    ensures FirstAt(s, begins[j], id)
  {
    hide Upper, IdLength, Found, Occurs;
    assert forall m :: 0 <= m < j ==> Found(s)[m] in Found(s)[..j];
    forall i | Occurs(s, i, id) ensures begins[j] <= i {
      var k :| 0 <= k < |begins| && begins[k] == i;
      OccursOnce(s, i, id, Found(s)[k]);
    }
  }

  lemma OccursOnce(s: string, i: int, x: string, y: string)
    requires Occurs(s, i, x) && Occurs(s, i, y)
    ensures x == y
  {
  }

  // ---------------------------------------------------------------- what is retrieved

  ghost predicate ExactAt(known: map<string, string>, ids: seq<string>, chunks: seq<Chunk>, at: seq<nat>) {
    && |at| == |chunks| && (forall k, l :: 0 <= k < l < |at| ==> at[k] < at[l])
    && forall k :: 0 <= k < |at| ==>
      && at[k] < |ids| && ids[at[k]] in known
      && chunks[k] == Chunk("vulnerability", ids[at[k]], ids[at[k]], known[ids[at[k]]])
  }

  lemma ExactPush(known: map<string, string>, ids: seq<string>, id: string, chunks: seq<Chunk>, at: seq<nat>)
    requires ExactAt(known, ids, chunks, at)
    ensures ExactAt(known, ids + [id], chunks, at)
    ensures id in known ==> ExactAt(known, ids + [id], chunks + [VulnerabilityChunk(id, known[id])], at + [|ids|])
  {
  }

  lemma {:induction false} ExactPositions(known: map<string, string>, ids: seq<string>) returns (at: seq<nat>)
    ensures ExactAt(known, ids, ExactChunks(known, ids), at)
  {
    hide ExactAt, VulnerabilityChunk;
    if ids == [] {
      at := [];
      assert ExactAt(known, [], [], []) by { NothingExact(known); }
    } else {
      var n := |ids| - 1;
      var front := ExactPositions(known, ids[..n]);
      ExactPush(known, ids[..n], ids[n], ExactChunks(known, ids[..n]), front);
      assert ids[..n] + [ids[n]] == ids;
      at := if ids[n] in known then front + [n] else front;
    }
  }

  lemma NothingExact(known: map<string, string>)
    ensures ExactAt(known, [], [], [])
  {
  }

  /** The chunks of known CVEs stand in the order in which the question first names them, each as it is rendered. */
  lemma KnownInOrder(e: Evidence, question: string) returns (at: seq<int>)
    ensures |at| == |KnownChunks(e, question)| && Rising(at)
    ensures forall k :: 0 <= k < |at| ==>
      var c := KnownChunks(e, question)[k];
      && FirstAt(question, at[k], c.entityId) && c.entityId in e.known
      && c == Chunk("vulnerability", c.entityId, c.entityId, e.known[c.entityId])
  {
    hide CveIdsOf, ExactChunks, FirstAt;
    var ids := CveIdsOf([Some(question)]);
    var begins := IdsInOrder(question);
    var exact := ExactPositions(e.known, ids);
    at := seq(|exact|, k requires 0 <= k < |exact| => begins[exact[k]]);
  }

  /** The chunks of which none stands further left with the same key. */
  ghost predicate KeyFirsts(source: seq<Chunk>, list: seq<Chunk>, at: seq<nat>) {
    && |at| == |list| && (forall k, l :: 0 <= k < l < |at| ==> at[k] < at[l])
    && (forall k :: 0 <= k < |at| ==> at[k] < |source| && list[k] == source[at[k]])
    && forall j :: 0 <= j < |source| ==> (j in at <==> NewKey(source, j))
  }

  ghost predicate NewKey(source: seq<Chunk>, j: nat)
    requires j < |source|
  {
    forall i :: 0 <= i < j ==>
      !(source[i].entityType == source[j].entityType && source[i].entityId == source[j].entityId)
  }

  lemma NewKeyMeans(source: seq<Chunk>, c: Chunk)
    ensures NewKey(source + [c], |source|) <==> KeyOf(c) !in Keys(source)
    ensures forall j :: 0 <= j < |source| ==> NewKey(source + [c], j) == NewKey(source, j)
  {
    var longer := source + [c];
    assert forall i :: 0 <= i < |source| ==> longer[i] == source[i];
    if KeyOf(c) in Keys(source) {
      var i :| 0 <= i < |source| && KeyOf(source[i]) == KeyOf(c);
      assert longer[i].entityType == c.entityType && longer[i].entityId == c.entityId;
    }
  }

  lemma KeyFirstsPush(source: seq<Chunk>, c: Chunk, list: seq<Chunk>, at: seq<nat>)
    requires KeyFirsts(source, list, at)
    ensures KeyOf(c) in Keys(source) ==> KeyFirsts(source + [c], list, at)
    ensures KeyOf(c) !in Keys(source) ==> KeyFirsts(source + [c], list + [c], at + [|source|])
  {
    hide NewKey, Keys;
    NewKeyMeans(source, c);
    if KeyOf(c) !in Keys(source) {
      assert forall j :: j in at + [|source|] <==> j in at || j == |source|;
    }
  }

  lemma {:induction false} UniqueAreFirsts(chunks: seq<Chunk>) returns (at: seq<nat>)
    ensures KeyFirsts(chunks, UniqueChunks(chunks), at)
  {
    hide KeyFirsts, Keys;
    if chunks == [] {
      at := [];
      assert KeyFirsts([], [], []) by { NoKeyFirsts(); }
    } else {
      var front, c := chunks[..|chunks| - 1], chunks[|chunks| - 1];
      var before := UniqueAreFirsts(front);
      KeyFirstsPush(front, c, UniqueChunks(front), before);
      assert front + [c] == chunks;
      at := if KeyOf(c) in Keys(front) then before else before + [|front|];
    }
  }

  lemma NoKeyFirsts()
    ensures KeyFirsts([], [], [])
  {
  }

  /** The first so many. */
  function AtMost(s: seq<Chunk>, n: nat): seq<Chunk> {
    if |s| <= n then s else s[..n]
  }

  lemma AtMostIs(s: seq<Chunk>, n: nat)
    ensures FirstOf(s, n) == AtMost(s, n)
  {
  }

  /** Known CVEs that fill the answer are all of it. */
  lemma ExactFills(e: Evidence, question: string, topK: nat)
    requires |KnownChunks(e, question)| >= topK
    ensures Retrieved(e, question, topK) == (if topK == 0 then [] else KnownChunks(e, question)[..topK])
  {
    hide KnownChunks;
    RetrievalIsExactFirst(e, question, topK);
    AtMostIs(KnownChunks(e, question), topK);
  }

  lemma UncutIsFirsts(e: Evidence, question: string, topK: nat, source: seq<Chunk>) returns (at: seq<nat>)
    requires Candidates(e, question, topK) == source && |source| <= topK
    ensures KeyFirsts(source, Retrieved(e, question, topK), at)
  {
    hide UniqueChunks, Candidates, KeyFirsts;
    at := UniqueAreFirsts(source);
    UniqueLength(source);
  }

  /** With a model and room left, the answer is the known CVEs and then the nearest documents that still fit, without
      the repeated ones. */
  lemma DocumentsFollow(e: Evidence, question: string, topK: nat) returns (at: seq<nat>)
    requires |KnownChunks(e, question)| < topK && e.configured
    requires KnownChunks(e, question) != [] || e.documents != []
    ensures
      var exact := KnownChunks(e, question);
      KeyFirsts(exact + AtMost(e.documents, topK - |exact|), Retrieved(e, question, topK), at)
  {
    hide KnownChunks, Retrieved, UniqueChunks, KeyFirsts;
    var exact := KnownChunks(e, question);
    AtMostIs(e.documents, topK - |exact|);
    at := UncutIsFirsts(e, question, topK, exact + AtMost(e.documents, topK - |exact|));
  }

  /** Without a model the known CVEs are all. */
  lemma NoModelNoDocuments(e: Evidence, question: string, topK: nat)
    requires 0 < |KnownChunks(e, question)| < topK && !e.configured
    ensures Retrieved(e, question, topK) == KnownChunks(e, question)
  {
    hide KnownChunks, UniqueChunks, CveIdsOf, ExactChunks, DistinctKeys;
    var exact := KnownChunks(e, question);
    RetrievalIsExactFirst(e, question, topK);
    UniqueLength(exact);
    AtMostIs(exact, topK);
    AtMostIs(UniqueChunks(exact), topK);
    assert Candidates(e, question, topK) == exact;
  }

  /** Only where neither yields anything are the first matching victims returned, without the repeated ones. */
  lemma VictimsInstead(e: Evidence, question: string, topK: nat) returns (at: seq<nat>)
    requires KnownChunks(e, question) == [] && topK > 0 && (!e.configured || e.documents == [])
    ensures KeyFirsts(AtMost(e.victims, topK), Retrieved(e, question, topK), at)
  {
    hide KnownChunks, Retrieved, UniqueChunks, KeyFirsts;
    AtMostIs(e.victims, topK);
    at := UncutIsFirsts(e, question, topK, AtMost(e.victims, topK));
  }

  lemma {:induction false} SmallestWithKey(source: seq<Chunk>, j: nat) returns (i: nat)
    requires j < |source|
    ensures i <= j && KeyOf(source[i]) == KeyOf(source[j]) && NewKey(source, i)
  {
    if NewKey(source, j) {
      i := j;
    } else {
      var k :| 0 <= k < j && source[k].entityType == source[j].entityType && source[k].entityId == source[j].entityId;
      i := SmallestWithKey(source, k);
    }
  }

  /** So each of these documents is in the answer, itself or under a chunk with its key, and whatever follows the
      known CVEs is one of them. */
  lemma DocumentsAreReturned(e: Evidence, question: string, topK: nat, d: Chunk)
    requires |KnownChunks(e, question)| < topK && e.configured
    ensures d in AtMost(e.documents, topK - |KnownChunks(e, question)|) ==>
      exists c :: c in Retrieved(e, question, topK) && c.entityType == d.entityType && c.entityId == d.entityId
    ensures (KnownChunks(e, question) != [] || e.documents != []) && d in Retrieved(e, question, topK) ==>
      d in KnownChunks(e, question) || d in AtMost(e.documents, topK - |KnownChunks(e, question)|)
  {
    hide KnownChunks, Retrieved, NewKey;
    var exact, list := KnownChunks(e, question), Retrieved(e, question, topK);
    if exact != [] || e.documents != [] {
      var docs := AtMost(e.documents, topK - |exact|);
      var source := exact + docs;
      var at := DocumentsFollow(e, question, topK);
      if d in docs {
        var m :| 0 <= m < |docs| && docs[m] == d;
        assert source[|exact| + m] == d;
        var i := SmallestWithKey(source, |exact| + m);
        assert i in at;
        var k :| 0 <= k < |at| && at[k] == i;
        assert list[k] in list;
      }
      if d in list {
        var k :| 0 <= k < |list| && list[k] == d;
        assert source[at[k]] == d && source[at[k]] in source;
      }
    }
  }

  /** A victim is returned only if the question names no known CVE and there are no documents to return. */
  lemma VictimsOnlyInstead(e: Evidence, question: string, topK: nat, c: Chunk)
    requires c in Retrieved(e, question, topK) && c !in KnownChunks(e, question) && c !in e.documents
    ensures KnownChunks(e, question) == [] && topK > 0 && (!e.configured || e.documents == [])
  {
    hide KnownChunks, Retrieved;
    var exact := KnownChunks(e, question);
    if |exact| >= topK {
      ExactFills(e, question, topK);
      PrefixMembers(exact, topK, c);
    } else if e.configured {
      DocumentsAreReturned(e, question, topK, c);
    } else if exact != [] {
      NoModelNoDocuments(e, question, topK);
    }
  }

  lemma PrefixMembers(s: seq<Chunk>, n: nat, c: Chunk)
    requires n <= |s| && c !in s
    ensures c !in s[..n]
  {
  }
}
