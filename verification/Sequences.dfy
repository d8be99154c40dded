/** Filters over sequences, read from the back so that tables and histories can grow at the end. */
module Sequences {

  function Filter<T>(keep: T -> bool, s: seq<T>): (r: seq<T>) {
    if s == [] then [] else
      var front := Filter(keep, s[..|s| - 1]);
      if keep(s[|s| - 1]) then front + [s[|s| - 1]] else front
  }

  lemma {:induction false} FilterElements<T(!new)>(keep: T -> bool, s: seq<T>)
    ensures forall x :: x in Filter(keep, s) <==> x in s && keep(x)
    ensures |Filter(keep, s)| <= |s|
  {
    if s != [] {
      FilterElements(keep, s[..|s| - 1]);
      assert forall x :: x in s <==> x in s[..|s| - 1] || x == s[|s| - 1];
    }
  }

  lemma FilterPush<T>(keep: T -> bool, s: seq<T>, x: T)
    ensures Filter(keep, s + [x]) == if keep(x) then Filter(keep, s) + [x] else Filter(keep, s)
  {
    assert (s + [x])[..|s|] == s;
  }

  ghost predicate Distinct<T>(s: seq<T>) {
    forall i, j :: 0 <= i < j < |s| ==> s[i] != s[j]
  }

  lemma {:induction false} FilterDistinct<T(!new)>(keep: T -> bool, s: seq<T>)
    requires Distinct(s)
    ensures Distinct(Filter(keep, s))
  {
    if s != [] {
      FilterDistinct(keep, s[..|s| - 1]);
      FilterElements(keep, s[..|s| - 1]);
      assert s[|s| - 1] !in s[..|s| - 1];
    }
  }

  lemma {:induction false} FilterSame<T>(p: T -> bool, q: T -> bool, s: seq<T>)
    requires forall x :: x in s ==> p(x) == q(x)
    ensures Filter(p, s) == Filter(q, s)
  {
    if s != [] {
      FilterSame(p, q, s[..|s| - 1]);
    }
  }

  lemma {:induction false} FilterConcat<T>(keep: T -> bool, a: seq<T>, b: seq<T>)
    ensures Filter(keep, a + b) == Filter(keep, a) + Filter(keep, b)
  {
    if b == [] {
      assert a + b == a;
    } else {
      assert (a + b)[..|a + b| - 1] == a + b[..|b| - 1];
      FilterConcat(keep, a, b[..|b| - 1]);
    }
  }

  function Elems<T>(s: seq<T>): set<T> {
    set x | x in s
  }

  lemma ElemsPush<T>(s: seq<T>, x: T)
    ensures Elems(s + [x]) == Elems(s) + {x}
  {
  }

  lemma EmptyOrElement<T>(s: seq<T>)
    ensures s == [] || exists x :: x in s
  {
    if s != [] {
      assert s[0] in s;
    }
  }

  lemma DistinctConcat<T>(a: seq<T>, b: seq<T>)
    requires Distinct(a) && Distinct(b) && forall x :: x in a ==> x !in b
    ensures Distinct(a + b)
  {
    forall i, j | 0 <= i < j < |a + b| ensures (a + b)[i] != (a + b)[j] {
      assert i < |a| ==> a[i] in a;
      assert j >= |a| ==> b[j - |a|] in b;
    }
  }

  /** A sequence without repetition has as many elements as the set of its elements. */
  lemma {:induction false} DistinctSize<T>(s: seq<T>)
    requires Distinct(s)
    ensures |Elems(s)| == |s|
  {
    if s != [] {
      var front := s[..|s| - 1];
      DistinctSize(front);
      ElemsPush(front, s[|s| - 1]);
      assert s == front + [s[|s| - 1]];
      assert s[|s| - 1] !in front;
    }
  }

  /** A text is cut in one way only at its first separator. */
  lemma SplitAtFirst<T>(a: seq<T>, b: seq<T>, c: seq<T>, d: seq<T>, mark: T)
    requires mark !in a && mark !in c
    requires a + [mark] + b == c + [mark] + d
    ensures a == c && b == d
  {
    var s := a + [mark] + b;
    assert s[|a|] == mark && forall i :: 0 <= i < |a| ==> s[i] == a[i];
    assert s[|c|] == mark && forall i :: 0 <= i < |c| ==> s[i] == c[i];
    assert a == s[..|a|] && c == s[..|c|];
    assert b == s[|a| + 1..] && d == s[|c| + 1..];
  }

  /** And in one way only at its last. */
  lemma SplitAtLast<T>(a: seq<T>, b: seq<T>, c: seq<T>, d: seq<T>, mark: T)
    requires mark !in b && mark !in d
    requires a + [mark] + b == c + [mark] + d
    ensures a == c && b == d
  {
    var s := a + [mark] + b;
    assert s[|a|] == mark && forall i :: |a| < i < |s| ==> s[i] == b[i - |a| - 1];
    assert s[|c|] == mark && forall i :: |c| < i < |s| ==> s[i] == d[i - |c| - 1];
    assert a == s[..|a|] && c == s[..|c|];
    assert b == s[|a| + 1..] && d == s[|c| + 1..];
  }

  /** Replacing the newest kept element replaces the last element of the filter. */
  lemma {:induction false} FilterReplaceNewest<T>(keep: T -> bool, s: seq<T>, i: nat, x: T)
    requires i < |s| && keep(s[i]) && keep(x)
    requires forall j :: i < j < |s| ==> !keep(s[j])
    ensures
      var r := Filter(keep, s);
      |r| > 0 && r[|r| - 1] == s[i] && Filter(keep, s[i := x]) == r[|r| - 1 := x]
  {
    var front := s[..|s| - 1];
    if i == |s| - 1 {
      assert s[i := x][..|s| - 1] == front;
    } else {
      assert !keep(s[|s| - 1]) && s[i := x][|s| - 1] == s[|s| - 1];
      FilterReplaceNewest(keep, front, i, x);
      assert s[i := x][..|s| - 1] == front[i := x];
    }
  }

  /** Replacing an element by one that is dropped like it leaves the filter as it was. */
  lemma {:induction false} FilterReplaceDropped<T>(keep: T -> bool, s: seq<T>, i: nat, x: T)
    requires i < |s| && !keep(s[i]) && !keep(x)
    ensures Filter(keep, s[i := x]) == Filter(keep, s)
  {
    var front := s[..|s| - 1];
    if i == |s| - 1 {
      assert s[i := x][..|s| - 1] == front;
    } else {
      FilterReplaceDropped(keep, front, i, x);
      assert s[i := x][..|s| - 1] == front[i := x];
    }
  }
}
