/** Tables kept by merging keyed records into them. If merging is associative and idempotent, then records may be
    delivered again. */
module Replay {
  import opened Options

  datatype Entry<K, R> = Entry(key: K, row: R)

  function Absorb<K, R>(merge: (R, R) -> R, store: map<K, R>, e: Entry<K, R>): map<K, R> {
    store[e.key := if e.key in store then merge(store[e.key], e.row) else e.row]
  }

  function AbsorbAll<K, R>(merge: (R, R) -> R, store: map<K, R>, es: seq<Entry<K, R>>): map<K, R> {
    if es == [] then store else Absorb(merge, AbsorbAll(merge, store, es[..|es| - 1]), es[|es| - 1])
  }

  ghost predicate Associative<R(!new)>(merge: (R, R) -> R) {
    forall a, b, c :: merge(merge(a, b), c) == merge(a, merge(b, c))
  }

  ghost predicate Idempotent<R(!new)>(merge: (R, R) -> R) {
    forall a :: merge(a, a) == a
  }

  lemma AbsorbAllPush<K, R>(merge: (R, R) -> R, store: map<K, R>, es: seq<Entry<K, R>>, e: Entry<K, R>)
    ensures AbsorbAll(merge, store, es + [e]) == Absorb(merge, AbsorbAll(merge, store, es), e)
  {
    assert (es + [e])[..|es|] == es;
  }

  lemma {:induction false} AbsorbConcat<K, R>(
      merge: (R, R) -> R, store: map<K, R>, es: seq<Entry<K, R>>, fs: seq<Entry<K, R>>)
    ensures AbsorbAll(merge, store, es + fs) == AbsorbAll(merge, AbsorbAll(merge, store, es), fs)
  {
    if fs == [] {
      assert es + fs == es;
    } else {
      assert (es + fs)[..|es + fs| - 1] == es + fs[..|fs| - 1];
      AbsorbConcat(merge, store, es, fs[..|fs| - 1]);
    }
  }

  /** All that a stream says about one key. */
  function Total<K(==), R>(merge: (R, R) -> R, es: seq<Entry<K, R>>, k: K): Option<R> {
    if es == [] then None else
      var before, e := Total(merge, es[..|es| - 1], k), es[|es| - 1];
      if e.key != k then before else if before.Some? then Some(merge(before.value, e.row)) else Some(e.row)
  }

  function Join<R>(merge: (R, R) -> R, a: Option<R>, b: Option<R>): Option<R> {
    if a.None? then b else if b.None? then a else Some(merge(a.value, b.value))
  }

  function At<K, R>(store: map<K, R>, k: K): Option<R> {
    if k in store then Some(store[k]) else None
  }

  /** A table row is its old value joined with all that the stream says about it. */
  lemma {:induction false} AbsorbTotals<K, R(!new)>(merge: (R, R) -> R, store: map<K, R>, es: seq<Entry<K, R>>, k: K)
    requires Associative(merge)
    ensures At(AbsorbAll(merge, store, es), k) == Join(merge, At(store, k), Total(merge, es, k))
  {
    if es != [] {
      AbsorbTotals(merge, store, es[..|es| - 1], k);
    }
  }

  lemma MapsAgree<K(!new), R>(a: map<K, R>, b: map<K, R>)
    requires forall k :: At(a, k) == At(b, k)
    ensures a == b
  {
    forall k ensures k in a <==> k in b {
      assert At(a, k) == At(b, k);
    }
    forall k | k in a ensures a[k] == b[k] {
      assert At(a, k) == At(b, k);
    }
  }

  /** Delivering a stream again changes nothing. */
  lemma TwiceIsOnce<K(!new), R(!new)>(merge: (R, R) -> R, store: map<K, R>, es: seq<Entry<K, R>>)
    requires Associative(merge) && Idempotent(merge)
    ensures AbsorbAll(merge, AbsorbAll(merge, store, es), es) == AbsorbAll(merge, store, es)
  {
    hide AbsorbAll, Total;
    var once := AbsorbAll(merge, store, es);
    forall k ensures At(AbsorbAll(merge, once, es), k) == At(once, k) {
      AbsorbTotals(merge, store, es, k);
      AbsorbTotals(merge, once, es, k);
      var total, before := Total(merge, es, k), At(store, k);
      if total.Some? && before.Some? {
        var r, d := before.value, total.value;
        assert merge(merge(r, d), d) == merge(r, merge(d, d));
      }
    }
    MapsAgree(AbsorbAll(merge, once, es), once);
  }

  /** The second delivery may differ from the first in what a merge never reads from its right side. */
  ghost predicate AlikeEntries<K, R(!new)>(merge: (R, R) -> R, e: Entry<K, R>, f: Entry<K, R>) {
    e.key == f.key && forall r :: merge(r, e.row) == merge(r, f.row)
  }

  ghost predicate Alike<K, R(!new)>(merge: (R, R) -> R, es: seq<Entry<K, R>>, fs: seq<Entry<K, R>>) {
    |es| == |fs| && forall i :: 0 <= i < |es| ==> AlikeEntries(merge, es[i], fs[i])
  }

  lemma {:induction false} AbsorbKeys<K, R>(merge: (R, R) -> R, store: map<K, R>, es: seq<Entry<K, R>>)
    ensures forall k :: k in store ==> k in AbsorbAll(merge, store, es)
    ensures forall i :: 0 <= i < |es| ==> es[i].key in AbsorbAll(merge, store, es)
  {
    if es != [] {
      AbsorbKeys(merge, store, es[..|es| - 1]);
      forall i | 0 <= i < |es| ensures es[i].key in AbsorbAll(merge, store, es) {
        if i < |es| - 1 {
          assert es[..|es| - 1][i] == es[i];
        }
      }
    }
  }

  lemma {:induction false} AbsorbAlike<K, R(!new)>(
      merge: (R, R) -> R, store: map<K, R>, es: seq<Entry<K, R>>, fs: seq<Entry<K, R>>)
    requires Alike(merge, es, fs) && forall i :: 0 <= i < |es| ==> es[i].key in store
    ensures AbsorbAll(merge, store, es) == AbsorbAll(merge, store, fs)
  {
    if es != [] {
      var n := |es| - 1;
      AbsorbAlike(merge, store, es[..n], fs[..n]);
      AbsorbKeys(merge, store, es[..n]);
      assert AlikeEntries(merge, es[n], fs[n]);
    }
  }

  /** Delivering an alike stream again, in whole or as the rerun of a delivery that broke off, ends where one delivery
      ends. */
  lemma RerunIsOnce<K(!new), R(!new)>(
      merge: (R, R) -> R, store: map<K, R>, done: seq<Entry<K, R>>, again: seq<Entry<K, R>>, rest: seq<Entry<K, R>>)
    requires Associative(merge) && Idempotent(merge) && Alike(merge, done, again)
    ensures AbsorbAll(merge, AbsorbAll(merge, store, done), again + rest) == AbsorbAll(merge, store, done + rest)
  {
    hide AbsorbAll, Associative, Idempotent, Alike;
    var once := AbsorbAll(merge, store, done);
    AbsorbKeys(merge, store, done);
    AbsorbAlike(merge, once, done, again);
    TwiceIsOnce(merge, store, done);
    AbsorbConcat(merge, once, again, rest);
    AbsorbConcat(merge, store, done, rest);
  }
}
