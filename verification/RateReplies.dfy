/** What a client is told by the rate limiter, counted from the replies that were given before. */
module RateReplies {
  import opened Sequences
  import opened RateLimiting

  /** What the script answers to the i-th request of a run. */
  function Told(window: nat, run: seq<Request>, i: nat): Reply
    requires i < |run|
  {
    LuaReply(Of(RunOf(window, run[..i]), run[i].identity), window, run[i])
  }

  predicate Allowed(window: nat, run: seq<Request>, i: nat)
    requires i < |run|
  {
    Told(window, run, i).Answer? && Told(window, run, i).allowed
  }

  /** The earlier requests of the same client that were allowed and are still inside its window. */
  function Counted(window: nat, run: seq<Request>, i: nat): set<nat>
    requires i < |run|
  {
    set j: nat | 0 <= j < i && run[j].identity == run[i].identity && run[j].now > run[i].now - window as real
                 && Allowed(window, run, j)
  }

  /** The admissions of a client are its allowed requests, in order. */
  ghost predicate Admissions(window: nat, run: seq<Request>, identity: string, hits: seq<Hit>, at: seq<nat>) {
    && |at| == |hits| && (forall k, l :: 0 <= k < l < |at| ==> at[k] < at[l])
    && (forall k :: 0 <= k < |at| ==> at[k] < |run| && hits[k] == Hit(run[at[k]].member, run[at[k]].now))
    && forall j: nat :: j < |run| ==> (j in at <==> run[j].identity == identity && Allowed(window, run, j))
  }

  lemma AllowedMeans(window: nat, run: seq<Request>, i: nat)
    requires i < |run|
    ensures Allowed(window, run, i) <==>
      Admits(Of(RunOf(window, run[..i]), run[i].identity), run[i].now, window, run[i].limit)
  {
    hide Filter, RunOf;
  }

  lemma AllowedBefore(window: nat, run: seq<Request>, n: nat, j: nat)
    requires j < n <= |run|
    ensures Allowed(window, run[..n], j) == Allowed(window, run, j)
  {
    hide RunOf, LuaReply;
    assert run[..n][..j] == run[..j];
  }

  lemma AdmissionsPush(window: nat, run: seq<Request>, identity: string, hits: seq<Hit>, at: seq<nat>)
    requires run != [] && Admissions(window, run[..|run| - 1], identity, hits, at)
    ensures
      var n := |run| - 1;
      if run[n].identity == identity && Allowed(window, run, n)
      then Admissions(window, run, identity, hits + [Hit(run[n].member, run[n].now)], at + [n])
      else Admissions(window, run, identity, hits, at)
  {
    hide Allowed;
    var n := |run| - 1;
    forall j: nat | j < n ensures run[..n][j] == run[j] && Allowed(window, run[..n], j) == Allowed(window, run, j) {
      AllowedBefore(window, run, n, j);
    }
    assert forall j :: j in at + [n] <==> j in at || j == n;
  }

  lemma {:induction false} AdmissionsAre(window: nat, run: seq<Request>, identity: string) returns (at: seq<nat>)
    ensures Admissions(window, run, identity, Of(RunOf(window, run), identity), at)
  {
    hide Admits, Allowed, Admissions;
    if run == [] {
      at := [];
      assert Admissions(window, run, identity, [], []) by { NoAdmissions(window, identity); }
    } else {
      var n := |run| - 1;
      var front := AdmissionsAre(window, run[..n], identity);
      AllowedMeans(window, run, n);
      AdmissionsPush(window, run, identity, Of(RunOf(window, run[..n]), identity), front);
      at := if run[n].identity == identity && Allowed(window, run, n) then front + [n] else front;
    }
  }

  lemma NoAdmissions(window: nat, identity: string)
    ensures Admissions(window, [], identity, [], [])
  {
  }

  lemma SuffixSize(at: seq<nat>, k: nat, from: set<nat>)
    requires k <= |at| && forall i, j :: 0 <= i < j < |at| ==> at[i] < at[j]
    requires forall x :: x in from <==> x in at[k..]
    ensures |from| == |at| - k
  {
    DistinctSize(at[k..]);
    assert from == Elems(at[k..]);
  }

  /** The live admissions a request meets are the requests it counts. */
  lemma LiveAreCounted(window: nat, run: seq<Request>, i: nat) returns (at: seq<nat>)
    requires ClockNeverSteps(run) && i < |run|
    ensures
      var live := Live(Of(RunOf(window, run[..i]), run[i].identity), run[i].now - window as real);
      && |at| == |live| == |Counted(window, run, i)|
      && (forall k :: 0 <= k < |at| ==> at[k] in Counted(window, run, i) && live[k].time == run[at[k]].now)
      && (at != [] ==> forall j :: j in Counted(window, run, i) ==> at[0] <= j)
  {
    hide Allowed, Live, RunOf;
    var front, q := run[..i], run[i];
    var hits, cutoff := Of(RunOf(window, front), q.identity), q.now - window as real;
    var all := AdmissionsAre(window, front, q.identity);
    RunIsOrdered(window, front, q.identity, q.now);
    var k := LiveIsSuffix(hits, q.now, cutoff);
    at := all[k..];
    forall j: nat | j < i ensures Allowed(window, front, j) == Allowed(window, run, j) && front[j] == run[j] {
      AllowedBefore(window, run, i, j);
    }
    forall j ensures j in Counted(window, run, i) <==> j in at {
      CountedIsSuffix(window, run, i, hits, all, k, j);
    }
    SuffixSize(all, k, Counted(window, run, i));
  }

  lemma CountedIsSuffix(
      window: nat, run: seq<Request>, i: nat, hits: seq<Hit>, all: seq<nat>, k: nat, j: nat)
    requires i < |run| && Admissions(window, run[..i], run[i].identity, hits, all) && k <= |hits|
    requires forall m: nat :: m < i ==>
      Allowed(window, run[..i], m) == Allowed(window, run, m) && run[..i][m] == run[m]
    requires forall m :: 0 <= m < k ==> hits[m].time <= run[i].now - window as real
    requires forall m :: k <= m < |hits| ==> hits[m].time > run[i].now - window as real
    ensures j in Counted(window, run, i) <==> j in all[k..]
  {
    hide Allowed;
    if j in Counted(window, run, i) {
      assert j in all;
      var m :| 0 <= m < |all| && all[m] == j;
      assert m >= k;
      assert all[k..][m - k] == j;
    }
    if j in all[k..] {
      var m :| k <= m < |all| && all[m] == j;
      assert j in all;
    }
  }

  /** Every client is told what its earlier replies add up to: it is allowed exactly while fewer requests than its
      limit were allowed in the window, the count is theirs with its own if allowed, and the wait on a refusal is the
      time until the oldest of them leaves the window, in whole seconds rounded up. */
  lemma RepliesAddUp(window: nat, run: seq<Request>, i: nat)
    requires ClockNeverSteps(run) && i < |run|
    ensures
      var r, q, n := Told(window, run, i), run[i], |Counted(window, run, i)|;
      && r.Answer? && (r.allowed <==> n < q.limit)
      && r.used == (if r.allowed then n + 1 else n)
      && (r.allowed || n == 0 ==> r.reset == window)
      && (!r.allowed && n > 0 ==>
            exists first :: first in Counted(window, run, i)
              && (forall j :: j in Counted(window, run, i) ==> first <= j)
              && r.reset as real - 1.0 < run[first].now + window as real - q.now <= r.reset as real)
  {
    hide Counted, RunOf, Filter;
    var at := LiveAreCounted(window, run, i);
    if at != [] {
      LeftIsPositive(window, run, i, at[0]);
      var left := run[at[0]].now + window as real - run[i].now;
      assert (-left).Floor as real <= -left < (-left).Floor as real + 1.0;
      assert at[0] in Counted(window, run, i);
    }
  }

  /** The in-memory limiter tells the same, with a second more where the time left is a whole number of seconds, and
      fails where the limit is below one and nothing is counted. */
  lemma MemoryAddsUp(window: nat, run: seq<Request>, i: nat)
    requires ClockNeverSteps(run) && i < |run|
    ensures
      var r := MemoryReply(Of(RunOf(window, run[..i]), run[i].identity), window, run[i]);
      var q, n := run[i], |Counted(window, run, i)|;
      && (r == IndexError <==> q.limit <= 0 && n == 0)
      && (r.Answer? ==>
            && (r.allowed <==> n < q.limit) && r.used == (if r.allowed then n + 1 else n)
            && (r.allowed ==> r.reset == window)
            && (!r.allowed ==>
                  exists first :: first in Counted(window, run, i)
                    && (forall j :: j in Counted(window, run, i) ==> first <= j)
                    && r.reset as real - 1.0 <= run[first].now + window as real - q.now < r.reset as real))
  {
    hide Counted, RunOf, Filter;
    var at := LiveAreCounted(window, run, i);
    RunIsOrdered(window, run[..i], run[i].identity, run[i].now);
    if at != [] {
      LeftIsPositive(window, run, i, at[0]);
      var left := run[at[0]].now + window as real - run[i].now;
      assert left.Floor as real <= left < left.Floor as real + 1.0;
      assert at[0] in Counted(window, run, i);
    }
  }

  lemma LeftIsPositive(window: nat, run: seq<Request>, i: nat, j: nat)
    requires i < |run| && j in Counted(window, run, i)
    ensures j < i && run[j].now + window as real - run[i].now > 0.0
  {
    hide Allowed;
  }
}
