/** Leftmost scanning of a text for a pattern, given as the length of the match at the front of a text. */
module TextScanner {

  function Matches(len: string -> nat, s: string): seq<string>
    decreases |s|
  {
    if s == "" then []
    else if 0 < len(s) <= |s| then [s[..len(s)]] + Matches(len, s[len(s)..])
    else Matches(len, s[1..])
  }

  predicate MatchAt(len: string -> nat, s: string, i: int, x: string) {
    0 <= i < |s| && 0 < len(s[i..]) <= |s| - i && s[i..i + len(s[i..])] == x
  }

  /** No match begins inside another. */
  ghost predicate NoOverlap(len: string -> nat) {
    forall s, i :: 0 < i < len(s) <= |s| ==> len(s[i..]) == 0
  }

  lemma MatchShift(len: string -> nat, s: string, n: nat, i: int, x: string)
    requires n <= |s| && 0 <= i
    ensures MatchAt(len, s[n..], i, x) <==> MatchAt(len, s, n + i, x)
  {
    if i < |s| - n {
      assert s[n..][i..] == s[n + i..];
      var k := len(s[n + i..]);
      if k <= |s| - n - i {
        assert s[n..][i..i + k] == s[n + i..n + i + k];
      }
    }
  }

  lemma NoneInside(len: string -> nat, s: string, i: nat)
    requires NoOverlap(len) && i < |s| && (i > 0 ==> i < len(s) <= |s|)
    ensures i > 0 ==> len(s[i..]) == 0
  {
  }

  lemma FrontMatch(len: string -> nat, s: string, x: string)
    requires s != ""
    ensures MatchAt(len, s, 0, x) <==> 0 < len(s) <= |s| && x == s[..len(s)]
  {
    assert s[0..] == s;
  }

  ghost predicate Begins(len: string -> nat, s: string, x: string) {
    exists i :: MatchAt(len, s, i, x)
  }

  function Stride(len: string -> nat, s: string): nat {
    if 0 < len(s) <= |s| then len(s) else 1
  }

  lemma BeginsLater(len: string -> nat, s: string, x: string)
    requires s != "" && Begins(len, s[Stride(len, s)..], x)
    ensures Begins(len, s, x)
  {
    hide MatchAt;
    var n := Stride(len, s);
    assert Begins(len, s[n..], x);
    var i :| MatchAt(len, s[n..], i, x);
    assert i >= 0 by { MatchInside(len, s[n..], i, x); }
    MatchShift(len, s, n, i, x);
  }

  lemma MatchInside(len: string -> nat, s: string, i: int, x: string)
    requires MatchAt(len, s, i, x)
    ensures 0 <= i < |s| && len(s[i..]) > 0
  {
  }

  lemma BeginsNowOrLater(len: string -> nat, s: string, x: string)
    requires NoOverlap(len) && s != "" && Begins(len, s, x)
    ensures MatchAt(len, s, 0, x) || Begins(len, s[Stride(len, s)..], x)
  {
    hide MatchAt, NoOverlap;
    var i: int :| MatchAt(len, s, i, x);
    var n := Stride(len, s);
    MatchInside(len, s, i, x);
    if i >= n {
      MatchShift(len, s, n, i - n, x);
    } else {
      NoneInside(len, s, i);
    }
  }

  /** The scan finds what begins anywhere in the text, and nothing else. */
  lemma {:induction false} FoundExactly(len: string -> nat, s: string, x: string)
    requires NoOverlap(len)
    ensures x in Matches(len, s) <==> Begins(len, s, x)
    decreases |s|
  {
    hide MatchAt, NoOverlap;
    if s == "" {
      if i :| MatchAt(len, s, i, x) {
        MatchInside(len, s, i, x);
      }
    } else {
      FoundExactly(len, s[Stride(len, s)..], x);
      FrontMatch(len, s, x);
      if Begins(len, s, x) {
        BeginsNowOrLater(len, s, x);
      }
      if Begins(len, s[Stride(len, s)..], x) {
        BeginsLater(len, s, x);
      }
    }
  }

  /** A text whose front is a match. */
  lemma MatchesFirst(len: string -> nat, s: string)
    requires 0 < len(s) <= |s|
    ensures Matches(len, s) == [s[..len(s)]] + Matches(len, s[len(s)..])
  {
  }

  lemma MatchesNext(len: string -> nat, s: string)
    requires s != "" && len(s) == 0
    ensures Matches(len, s) == Matches(len, s[1..])
  {
  }
}
