/** Lists that grow without repetition and keep the order of first appearance. */
module OrderedUnion {
  import opened Sequences

  function Extend<T(==)>(a: seq<T>, b: seq<T>): seq<T> {
    if b == [] then a else
      var u, x := Extend(a, b[..|b| - 1]), b[|b| - 1];
      if x in u then u else u + [x]
  }

  lemma ExtendPush<T>(a: seq<T>, b: seq<T>, x: T)
    ensures Extend(a, b + [x]) == if x in Extend(a, b) then Extend(a, b) else Extend(a, b) + [x]
  {
    assert (b + [x])[..|b|] == b;
  }

  lemma {:induction false} ExtendElements<T>(a: seq<T>, b: seq<T>)
    ensures forall x :: x in Extend(a, b) <==> x in a || x in b
    ensures a <= Extend(a, b)
    ensures Distinct(a) ==> Distinct(Extend(a, b))
  {
    if b != [] {
      ExtendElements(a, b[..|b| - 1]);
      assert forall x :: x in b <==> x in b[..|b| - 1] || x == b[|b| - 1];
    }
  }

  lemma {:induction false} ExtendKnown<T>(a: seq<T>, b: seq<T>)
    requires forall x :: x in b ==> x in a
    ensures Extend(a, b) == a
  {
    if b != [] {
      ExtendKnown(a, b[..|b| - 1]);
    }
  }

  lemma {:induction false} ExtendConcat<T>(a: seq<T>, b: seq<T>, c: seq<T>)
    ensures Extend(a, b + c) == Extend(Extend(a, b), c)
  {
    if c == [] {
      assert b + c == b;
    } else {
      assert (b + c)[..|b + c| - 1] == b + c[..|c| - 1];
      ExtendConcat(a, b, c[..|c| - 1]);
    }
  }

  lemma {:induction false} ExtendAssociative<T>(a: seq<T>, b: seq<T>, c: seq<T>)
    ensures Extend(a, Extend(b, c)) == Extend(Extend(a, b), c)
  {
    if c != [] {
      var front, x := c[..|c| - 1], c[|c| - 1];
      ExtendAssociative(a, b, front);
      ExtendElements(a, Extend(b, front));
      ExtendPush(a, Extend(b, front), x);
    }
  }

  lemma {:induction false} ExtendDistinct<T>(s: seq<T>)
    requires Distinct(s)
    ensures Extend([], s) == s
  {
    if s != [] {
      ExtendDistinct(s[..|s| - 1]);
      assert s == s[..|s| - 1] + [s[|s| - 1]];
    }
  }

  /** Removing repetitions from two lists in a row is extending the first by the second. */
  lemma ExtendFromNothing<T>(a: seq<T>, b: seq<T>)
    requires Distinct(a)
    ensures Extend([], a + b) == Extend(a, b)
  {
    ExtendConcat([], a, b);
    ExtendDistinct(a);
  }
}
