/** The two sliding-window limiters (app/core/ratelimit.py) and the one specification they meet. */
module RateLimiting {
  import opened Options
  import opened Sequences

  /** An admitted request: its sorted-set member and its arrival time. */
  datatype Hit = Hit(member: string, time: real)

  datatype Request = Request(identity: string, now: real, limit: int, member: string)

  datatype Reply = Answer(allowed: bool, used: nat, reset: int) | IndexError

  /** All admissions of each identity, in order. */
  type History = map<string, seq<Hit>>

  // ---------------------------------------------------------------- specification

  function Of(history: History, identity: string): seq<Hit> {
    if identity in history then history[identity] else []
  }

  /** The admissions still inside the window that begins after `cutoff`. */
  function Live(hits: seq<Hit>, cutoff: real): seq<Hit> {
    Filter((x: Hit) => x.time > cutoff, hits)
  }

  predicate Admits(hits: seq<Hit>, now: real, window: nat, limit: int) {
    |Live(hits, now - window as real)| < limit
  }

  function Push(hits: seq<Hit>, window: nat, q: Request): seq<Hit> {
    if Admits(hits, q.now, window, q.limit) then hits + [Hit(q.member, q.now)] else hits
  }

  function Admit(history: History, window: nat, q: Request): History {
    var hits := Of(history, q.identity);
    if Admits(hits, q.now, window, q.limit) then history[q.identity := Push(hits, window, q)] else history
  }

  function Ceil(x: real): int {
    -((-x).Floor)
  }

  /** Python's int(): towards zero. */
  function Trunc(x: real): int {
    if x >= 0.0 then x.Floor else -((-x).Floor)
  }

  function Max(a: int, b: int): int {
    if a < b then b else a
  }

  function LuaReset(live: seq<Hit>, now: real, window: nat): int {
    if live == [] then window else Ceil(live[0].time + window as real - now)
  }

  function MemoryReset(oldest: real, now: real, window: nat): int {
    Max(1, Trunc(oldest + window as real - now) + 1)
  }

  /** The reply of the in-memory limiter to a request that finds these admissions. */
  function MemoryReply(hits: seq<Hit>, window: nat, q: Request): Reply {
    var live := Live(hits, q.now - window as real);
    if |live| < q.limit then Answer(true, |live| + 1, window)
    else if live == [] then IndexError
    else Answer(false, |live|, MemoryReset(live[0].time, q.now, window))
  }

  /** The reply of the Lua script to a request that finds these admissions. */
  function LuaReply(hits: seq<Hit>, window: nat, q: Request): Reply {
    var live := Live(hits, q.now - window as real);
    if |live| < q.limit then Answer(true, |live| + 1, window)
    else Answer(false, |live|, LuaReset(live, q.now, window))
  }

  ghost predicate Ordered(hits: seq<Hit>, clock: real) {
    && (forall i, j :: 0 <= i < j < |hits| ==> hits[i].time <= hits[j].time)
    && (forall i :: 0 <= i < |hits| ==> 0.0 <= hits[i].time <= clock)
  }

  ghost predicate DistinctMembers(hits: seq<Hit>) {
    forall i, j :: 0 <= i < j < |hits| ==> hits[i].member != hits[j].member
  }

  // ---------------------------------------------------------------- facts about windows

  /** In an ordered history the live admissions are a suffix. */
  lemma {:induction false} LiveIsSuffix(hits: seq<Hit>, clock: real, cutoff: real) returns (k: nat)
    requires Ordered(hits, clock)
    ensures k <= |hits| && Live(hits, cutoff) == hits[k..]
    ensures forall i :: 0 <= i < k ==> hits[i].time <= cutoff
    ensures forall i :: k <= i < |hits| ==> hits[i].time > cutoff
  {
    if hits == [] {
      k := 0;
    } else {
      hide Filter;
      var front, last := hits[..|hits| - 1], hits[|hits| - 1];
      k := LiveIsSuffix(front, clock, cutoff);
      FilterPush((x: Hit) => x.time > cutoff, front, last);
      assert hits == front + [last];
      if last.time > cutoff {
        assert hits[k..] == front[k..] + [last];
      } else {
        assert forall i :: 0 <= i < |front| ==> hits[i].time <= hits[|front|].time;
        k := |hits|;
      }
    }
  }

  /** Pruning at an earlier cutoff loses nothing that a later cutoff keeps. */
  lemma {:induction false} LiveTwice(hits: seq<Hit>, early: real, late: real)
    requires early <= late
    ensures Live(Live(hits, early), late) == Live(hits, late)
  {
    if hits != [] {
      var front, last := hits[..|hits| - 1], hits[|hits| - 1];
      LiveTwice(front, early, late);
      if last.time > early {
        assert (Live(front, early) + [last])[..|Live(front, early)|] == Live(front, early);
      }
    }
  }

  lemma {:induction false} LiveAntitone(hits: seq<Hit>, early: real, late: real)
    requires early <= late
    ensures |Live(hits, late)| <= |Live(hits, early)|
  {
    if hits != [] {
      LiveAntitone(hits[..|hits| - 1], early, late);
    }
  }

  // ---------------------------------------------------------------- the bound

  /** Every admission found fewer than `limit` admissions in the window ending at it. */
  ghost predicate AdmittedUnder(hits: seq<Hit>, window: nat, limit: int) {
    forall i :: 0 <= i < |hits| ==> Admits(hits[..i], hits[i].time, window, limit)
  }

  function InWindow(hits: seq<Hit>, end: real, window: nat): seq<Hit> {
    Filter((x: Hit) => end - window as real < x.time <= end, hits)
  }

  lemma {:induction false} WindowBoundOne(hits: seq<Hit>, clock: real, window: nat, limit: int, end: real)
    requires limit >= 1 && Ordered(hits, clock) && AdmittedUnder(hits, window, limit)
    ensures |InWindow(hits, end, window)| <= limit
  {
    hide Filter;
    FilterElements((x: Hit) => end - window as real < x.time <= end, hits);
    if hits != [] {
      var n := |hits| - 1;
      var front, last := hits[..n], hits[n];
      if last.time <= end {
        var inside := (x: Hit) => end - window as real < x.time <= end;
        var start := end - window as real;
        FilterSame(inside, (x: Hit) => x.time > start, front);
        assert Filter(inside, front) == Live(front, start);
        LiveAntitone(front, last.time - window as real, start);
        assert Admits(hits[..n], hits[n].time, window, limit);
        FilterPush(inside, front, last);
        assert hits == front + [last];
      } else {
        assert AdmittedUnder(front, window, limit) by {
          forall i | 0 <= i < |front| ensures Admits(front[..i], front[i].time, window, limit) {
            assert front[..i] == hits[..i];
          }
        }
        WindowBoundOne(front, clock, window, limit, end);
        FilterPush((x: Hit) => end - window as real < x.time <= end, front, last);
        assert hits == front + [last];
      }
    }
  }

  function RunOf(window: nat, run: seq<Request>): History {
    if run == [] then map[] else Admit(RunOf(window, run[..|run| - 1]), window, run[|run| - 1])
  }

  ghost predicate ClockNeverSteps(run: seq<Request>) {
    && (forall i, j :: 0 <= i < j < |run| ==> run[i].now <= run[j].now)
    && (forall i :: 0 <= i < |run| ==> 0.0 <= run[i].now)
  }

  ghost predicate FixedLimit(run: seq<Request>, identity: string, limit: int) {
    forall i :: 0 <= i < |run| && run[i].identity == identity ==> run[i].limit == limit
  }

  ghost predicate NotAfter(run: seq<Request>, clock: real) {
    forall i :: 0 <= i < |run| ==> run[i].now <= clock
  }

  lemma {:induction false} RunIsOrdered(window: nat, run: seq<Request>, identity: string, clock: real)
    requires ClockNeverSteps(run) && NotAfter(run, clock)
    ensures Ordered(Of(RunOf(window, run), identity), clock)
  {
    hide Admits;
    if run != [] {
      var n := |run| - 1;
      RunIsOrdered(window, run[..n], identity, run[n].now);
    }
  }

  lemma {:induction false} RunIsAdmitted(window: nat, run: seq<Request>, identity: string, limit: int)
    requires FixedLimit(run, identity, limit)
    ensures AdmittedUnder(Of(RunOf(window, run), identity), window, limit)
  {
    hide Admits;
    if run != [] {
      var n := |run| - 1;
      var front, q := run[..n], run[n];
      RunIsAdmitted(window, front, identity, limit);
      var hits, more := Of(RunOf(window, front), identity), Of(RunOf(window, run), identity);
      forall i | 0 <= i < |more| ensures Admits(more[..i], more[i].time, window, limit) {
        assert i <= |hits| && more[..i] == hits[..i];
        assert i == |hits| ==> hits[..i] == hits;
      }
    }
  }

  /** Whatever the run, no window of the given length ever holds more than `limit` admissions of an identity. */
  lemma SlidingWindowBound(window: nat, run: seq<Request>, identity: string, limit: int, end: real)
    requires ClockNeverSteps(run) && FixedLimit(run, identity, limit) && limit >= 1
    ensures |InWindow(Of(RunOf(window, run), identity), end, window)| <= limit
  {
    RunIsAdmitted(window, run, identity, limit);
    var clock := if run == [] then 0.0 else run[|run| - 1].now;
    RunIsOrdered(window, run, identity, clock);
    WindowBoundOne(Of(RunOf(window, run), identity), clock, window, limit, end);
  }

  // ---------------------------------------------------------------- the two reset values

  /** On a refusal the two implementations report waits that differ by one second exactly when the
      remaining time is a whole number of seconds, and by nothing otherwise. */
  lemma ResetsDiffer(hits: seq<Hit>, clock: real, now: real, window: nat)
    requires Ordered(hits, clock) && Live(hits, now - window as real) != []
    ensures
      var live := Live(hits, now - window as real);
      var left := live[0].time + window as real - now;
      && left > 0.0 && LuaReset(live, now, window) >= 1
      && MemoryReset(live[0].time, now, window)
         == LuaReset(live, now, window) + (if IsWhole(left) then 1 else 0)
  {
    var k := LiveIsSuffix(hits, clock, now - window as real);
    var left := hits[k].time + window as real - now;
    assert (-left).Floor as real <= -left < (-left).Floor as real + 1.0;
    assert left.Floor as real <= left < left.Floor as real + 1.0;
  }

  /** Same decision and count; waits as in ResetsDiffer; and where the list is empty and the limit below one,
      the script refuses while the in-memory limiter fails. */
  ghost predicate Agree(lua: Reply, memory: Reply, live: seq<Hit>, q: Request, window: nat) {
    && lua.Answer?
    && (memory == IndexError <==> q.limit <= 0 && live == [])
    && (memory.Answer? ==>
          && memory.allowed == lua.allowed && memory.used == lua.used
          && memory.reset - lua.reset ==
             if !lua.allowed && live != [] && IsWhole(live[0].time + window as real - q.now) then 1 else 0)
  }

  predicate IsWhole(x: real) {
    x == x.Floor as real
  }

  /** The two limiters agree on every request of every run. */
  lemma LimitersAgree(window: nat, run: seq<Request>, i: nat)
    requires ClockNeverSteps(run) && i < |run|
    ensures
      var q := run[i];
      var past := Of(RunOf(window, run[..i]), q.identity);
      Agree(LuaReply(past, window, q), MemoryReply(past, window, q), Live(past, q.now - window as real), q, window)
  {
    hide Live;
    var q := run[i];
    var past := Of(RunOf(window, run[..i]), q.identity);
    RunIsOrdered(window, run[..i], q.identity, q.now);
    if Live(past, q.now - window as real) != [] {
      ResetsDiffer(past, q.now, q.now, window);
    }
  }

  /** A refused client that meets no competing request is admitted after a wait exactly when, of its live
      admissions, the one that many places from the end has left the window by then. */
  lemma AdmittedAfterExactly(hits: seq<Hit>, clock: real, now: real, window: nat, limit: int, wait: nat)
    requires Ordered(hits, clock) && limit >= 1
    requires |Live(hits, now - window as real)| >= limit
    ensures
      var live := Live(hits, now - window as real);
      Admits(hits, now + wait as real, window, limit) <==>
        live[|live| - limit].time + window as real <= now + wait as real
  {
    var early, late := now - window as real, now + wait as real - window as real;
    var k := LiveIsSuffix(hits, clock, early);
    var j := LiveIsSuffix(hits, clock, late);
    assert hits[k..][|hits| - k - limit] == hits[|hits| - limit];
    assert |hits| - j < limit <==> j > |hits| - limit;
  }

  /** So a refused client that waits as told, whichever limiter told it, is admitted if it has used up its limit
      exactly. Under a limit lowered since, it has to wait until enough of its admissions have left. */
  lemma WaitIsEnough(hits: seq<Hit>, clock: real, now: real, window: nat, limit: int, wait: nat)
    requires Ordered(hits, clock) && limit >= 1
    requires |Live(hits, now - window as real)| >= limit
    requires wait >= LuaReset(Live(hits, now - window as real), now, window)
    ensures
      var live := Live(hits, now - window as real);
      Admits(hits, now + wait as real, window, limit) <==>
        |live| == limit || live[|live| - limit].time + window as real <= now + wait as real
  {
    AdmittedAfterExactly(hits, clock, now, window, limit, wait);
    var left := Live(hits, now - window as real)[0].time + window as real - now;
    assert (-left).Floor as real <= -left;
  }

  // ---------------------------------------------------------------- the in-memory limiter

  function Times(hits: seq<Hit>): seq<real> {
    seq(|hits|, i requires 0 <= i < |hits| => hits[i].time)
  }

  lemma TimesAre(hits: seq<Hit>)
    ensures |Times(hits)| == |hits| && forall i :: 0 <= i < |hits| ==> Times(hits)[i] == hits[i].time
  {
  }

  lemma NoHits(cutoff: real)
    ensures Filter((t: real) => t > cutoff, []) == [] && Times(Live([], cutoff)) == []
  {
  }

  lemma {:induction false} TimesOfLive(hits: seq<Hit>, cutoff: real)
    ensures Filter((t: real) => t > cutoff, Times(hits)) == Times(Live(hits, cutoff))
  {
    if hits != [] {
      var front, last := hits[..|hits| - 1], hits[|hits| - 1];
      TimesOfLive(front, cutoff);
      assert Times(hits) == Times(front) + [last.time];
      FilterPush((t: real) => t > cutoff, Times(front), last.time);
    }
  }

  /** Pruning what is stored gives what is live in the whole history. */
  lemma StoredIsLive(past: seq<Hit>, early: real, late: real, stored: seq<real>)
    requires early <= late && stored == Times(Live(past, early))
    ensures Filter((t: real) => t > late, stored) == Times(Live(past, late))
  {
    TimesOfLive(Live(past, early), late);
    LiveTwice(past, early, late);
  }

  lemma OrderedPush(past: seq<Hit>, clock: real, x: Hit)
    requires Ordered(past, clock) && x.time >= clock >= 0.0
    ensures Ordered(past, x.time) && Ordered(past + [x], x.time)
  {
  }

  lemma AdmittedIsLive(past: seq<Hit>, x: Hit, window: nat)
    requires window > 0
    ensures Live(past + [x], x.time - window as real) == Live(past, x.time - window as real) + [x]
    ensures Times(Live(past + [x], x.time - window as real)) == Times(Live(past, x.time - window as real)) + [x.time]
  {
    var cutoff := x.time - window as real;
    FilterPush((y: Hit) => y.time > cutoff, past, x);
    assert Times(Live(past, cutoff) + [x]) == Times(Live(past, cutoff)) + [x.time];
  }

  /** What is stored of an identity is its admission history, pruned at some cutoff the window has passed. */
  ghost predicate TimesFor(stored: seq<real>, past: seq<Hit>, window: nat, clock: real, early: real) {
    && Ordered(past, clock)
    && (stored != [] || past != [] ==> early <= clock - window as real && stored == Times(Live(past, early)))
  }

  lemma TimesLater(stored: seq<real>, past: seq<Hit>, window: nat, clock: real, now: real, early: real)
    requires TimesFor(stored, past, window, clock, early) && now >= clock >= 0.0
    ensures TimesFor(stored, past, window, now, early)
    ensures Filter((t: real) => t > now - window as real, stored) == Times(Live(past, now - window as real))
    ensures Ordered(past, clock)
  {
    OrderedPush(past, clock, Hit("", now));
    if stored == [] && past == [] {
      NoHits(now - window as real);
    } else {
      StoredIsLive(past, early, now - window as real, stored);
    }
  }

  lemma TimesAfter(stored: seq<real>, past: seq<Hit>, window: nat, clock: real, early: real, q: Request, saved: bool)
    requires TimesFor(stored, past, window, clock, early) && q.now >= clock >= 0.0 && window > 0
    requires !saved ==> !Admits(past, q.now, window, q.limit)
    ensures
      var later, cutoff := Push(past, window, q), q.now - window as real;
      TimesFor(if saved then Times(Live(later, cutoff)) else stored, later, window, q.now,
               if saved then cutoff else early)
  {
    OrderedPush(past, clock, Hit(q.member, q.now));
  }

  /** The decision on the pruned list, and the list it leaves. */
  method Decide(recent: seq<real>, ghost past: seq<Hit>, window: nat, q: Request)
    returns (after: seq<real>, reply: Reply)
    requires window > 0 && recent == Times(Live(past, q.now - window as real))
    ensures reply == MemoryReply(past, window, q)
    ensures reply.Answer? ==> after == Times(Live(Push(past, window, q), q.now - window as real))
    ensures !reply.Answer? ==> !Admits(past, q.now, window, q.limit)
  {
    hide Live, Times;
    TimesAre(Live(past, q.now - window as real));
    if |recent| >= q.limit {
      if |recent| == 0 {
        return recent, IndexError;
      }
      return recent, Answer(false, |recent|, Max(1, Trunc(recent[0] + window as real - q.now) + 1));
    }
    AdmittedIsLive(past, Hit(q.member, q.now), window);
    after := recent + [q.now];
    return after, Answer(true, |after|, window);
  }

  class InMemoryRateLimiter {
    const window: nat
    var hits: map<string, seq<real>>
    ghost var history: History
    ghost var pruned: map<string, real>
    ghost var clock: real

    function Stored(id: string): seq<real>
      reads this
    {
      if id in hits then hits[id] else []
    }

    ghost function Early(id: string): real
      reads this
    {
      if id in pruned then pruned[id] else 0.0
    }

    ghost predicate Kept(id: string)
      reads this
    {
      TimesFor(Stored(id), Of(history, id), window, clock, Early(id))
    }

    ghost predicate Valid()
      reads this
    {
      window > 0 && clock >= 0.0 && forall id :: Kept(id)
    }

    constructor (window: nat)
      requires window > 0
      ensures Valid() && this.window == window && history == map[] && clock == 0.0
    {
      this.window := window;
      hits, history, pruned, clock := map[], map[], map[], 0.0;
    }

    /** One call; with a limit below one and nothing live, the list has no oldest entry to read. */
    method Check(q: Request) returns (reply: Reply)
      requires Valid() && q.now >= clock
      modifies this
      ensures Valid() && clock == q.now
      ensures history == Admit(old(history), window, q)
      ensures reply == MemoryReply(Of(old(history), q.identity), window, q)
      ensures reply.Answer? ==> Stored(q.identity) == Times(Live(Of(history, q.identity), q.now - window as real))
      ensures forall id :: id != q.identity ==> Stored(id) == old(Stored(id))
    {
      hide Filter, Ordered, Live, Times, TimesFor, Admits, MemoryReset;
      var key, cutoff := q.identity, q.now - window as real;
      ghost var past, early := Of(history, key), Early(key);
      assert Kept(key);
      TimesLater(Stored(key), past, window, clock, q.now, early);
      var recent := Filter((t: real) => t > cutoff, Stored(key));
      recent, reply := Decide(recent, past, window, q);
      TimesAfter(Stored(key), past, window, clock, early, q, reply.Answer?);
      hits, history, pruned, clock :=
        if reply.Answer? then hits[key := recent] else hits,
        Admit(history, window, q),
        if reply.Answer? then pruned[key := cutoff] else pruned,
        q.now;
      forall id | id != key ensures Kept(id) {
        assert old(Kept(id));
        TimesLater(Stored(id), Of(history, id), window, old(clock), q.now, Early(id));
      }
    }
  }

  // ---------------------------------------------------------------- the Lua script on a sorted set

  /** The sorted set holding these admissions. */
  function ToZset(hits: seq<Hit>): map<string, real> {
    if hits == [] then map[] else ToZset(hits[..|hits| - 1])[hits[|hits| - 1].member := hits[|hits| - 1].time]
  }

  lemma {:induction false} ZsetFacts(hits: seq<Hit>)
    requires DistinctMembers(hits)
    ensures |ToZset(hits)| == |hits|
    ensures forall i :: 0 <= i < |hits| ==>
              hits[i].member in ToZset(hits) && ToZset(hits)[hits[i].member] == hits[i].time
    ensures forall m :: m in ToZset(hits) ==> exists i :: 0 <= i < |hits| && hits[i].member == m
  {
    if hits != [] {
      var front, last := hits[..|hits| - 1], hits[|hits| - 1];
      ZsetFacts(front);
      ZsetNext(hits);
      hide ToZset;
      assert last.member !in ToZset(front);
      forall i | 0 <= i < |hits|
        ensures hits[i].member in ToZset(hits) && ToZset(hits)[hits[i].member] == hits[i].time
      {
        if i < |front| {
          assert front[i] == hits[i];
        }
      }
      forall m | m in ToZset(hits) ensures exists i :: 0 <= i < |hits| && hits[i].member == m {
        ZsetMember(hits, m);
      }
    }
  }

  lemma ZsetNext(hits: seq<Hit>)
    requires hits != []
    ensures
      var last := hits[|hits| - 1];
      ToZset(hits) == ToZset(hits[..|hits| - 1])[last.member := last.time]
  {
  }

  lemma {:induction false} ZsetMember(hits: seq<Hit>, m: string)
    requires m in ToZset(hits)
    ensures exists i :: 0 <= i < |hits| && hits[i].member == m
  {
    var n := |hits| - 1;
    ZsetNext(hits);
    if m == hits[n].member {
    } else {
      ZsetMember(hits[..n], m);
      var i :| 0 <= i < n && hits[..n][i].member == m;
      assert hits[i].member == m;
    }
  }

  /** ZREMRANGEBYSCORE key 0 max. */
  function RemoveUpTo(zset: map<string, real>, max: real): map<string, real> {
    map m | m in zset && !(0.0 <= zset[m] <= max) :: zset[m]
  }

  lemma RemovePush(zset: map<string, real>, x: Hit, max: real)
    requires x.member !in zset && x.time >= 0.0
    ensures RemoveUpTo(zset[x.member := x.time], max)
      == if x.time > max then RemoveUpTo(zset, max)[x.member := x.time] else RemoveUpTo(zset, max)
  {
  }

  lemma {:induction false} RemoveIsLive(hits: seq<Hit>, clock: real, cutoff: real)
    requires Ordered(hits, clock) && DistinctMembers(hits)
    ensures RemoveUpTo(ToZset(hits), cutoff) == ToZset(Live(hits, cutoff))
  {
    hide RemoveUpTo;
    if hits == [] {
      assert RemoveUpTo(map[], cutoff) == map[] by {
        RemoveNone(cutoff);
      }
    } else {
      var front, last := hits[..|hits| - 1], hits[|hits| - 1];
      RemoveIsLive(front, clock, cutoff);
      ZsetFacts(front);
      RemovePush(ToZset(front), last, cutoff);
      var kept := Live(front, cutoff);
      assert (kept + [last])[..|kept|] == kept;
    }
  }

  lemma RemoveNone(max: real)
    ensures RemoveUpTo(map[], max) == map[]
  {
  }

  lemma ZsetOldest(hits: seq<Hit>, clock: real)
    requires Ordered(hits, clock) && DistinctMembers(hits)
    ensures |ToZset(hits)| == |hits|
    ensures hits != [] ==>
      hits[0].time in ToZset(hits).Values && forall s :: s in ToZset(hits).Values ==> hits[0].time <= s
  {
    hide ToZset;
    ZsetFacts(hits);
    if hits != [] {
      assert hits[0].member in ToZset(hits);
      forall s | s in ToZset(hits).Values ensures hits[0].time <= s {
        var m :| m in ToZset(hits) && ToZset(hits)[m] == s;
        var i :| 0 <= i < |hits| && hits[i].member == m;
      }
    }
  }

  lemma LiveKeepsOrder(hits: seq<Hit>, clock: real, cutoff: real)
    requires Ordered(hits, clock) && DistinctMembers(hits)
    ensures Ordered(Live(hits, cutoff), clock) && DistinctMembers(Live(hits, cutoff))
  {
    hide Live;
    var k := LiveIsSuffix(hits, clock, cutoff);
  }

  /** What the script finds at `now`: a missing or expired key held no live admission, and a present one holds
      the live admissions and perhaps some older ones, which the removal takes away. */
  lemma ScriptState(past: seq<Hit>, clock: real, window: nat, now: real, early: real, present: bool)
    requires Ordered(past, clock) && DistinctMembers(past) && now >= clock
    requires if present then early <= now - window as real
             else past == [] || past[|past| - 1].time + window as real <= now
    ensures
      var live := Live(past, now - window as real);
      && RemoveUpTo(if present then ToZset(Live(past, early)) else map[], now - window as real) == ToZset(live)
      && |ToZset(live)| == |live|
      && (live == [] ==> past == [] || past[|past| - 1].time + window as real <= now)
      && (live != [] ==>
            live[0].time in ToZset(live).Values && forall s :: s in ToZset(live).Values ==> live[0].time <= s)
  {
    hide Live, ToZset, RemoveUpTo;
    var cutoff := now - window as real;
    var k := LiveIsSuffix(past, clock, cutoff);
    LiveKeepsOrder(past, clock, cutoff);
    ZsetOldest(Live(past, cutoff), clock);
    if present {
      LiveKeepsOrder(past, clock, early);
      RemoveIsLive(Live(past, early), clock, cutoff);
      LiveTwice(past, early, cutoff);
    } else {
      assert forall i :: 0 <= i < |past| ==> past[i].time <= past[|past| - 1].time;
      RemoveNone(cutoff);
      EmptyZset();
    }
  }

  lemma EmptyZset()
    ensures ToZset([]) == map[]
  {
  }

  lemma AdmittedScript(past: seq<Hit>, clock: real, window: nat, x: Hit)
    requires Ordered(past, clock) && DistinctMembers(past) && x.time >= clock >= 0.0 && window > 0
    requires forall i :: 0 <= i < |past| ==> past[i].member != x.member
    ensures Ordered(past + [x], x.time) && DistinctMembers(past + [x])
    ensures ToZset(Live(past + [x], x.time - window as real))
      == ToZset(Live(past, x.time - window as real))[x.member := x.time]
  {
    hide Live, ToZset;
    AdmittedIsLive(past, x, window);
    ToZsetPush(Live(past, x.time - window as real), x);
  }

  lemma ToZsetPush(hits: seq<Hit>, x: Hit)
    ensures ToZset(hits + [x]) == ToZset(hits)[x.member := x.time]
  {
    assert (hits + [x])[..|hits|] == hits;
  }

  ghost predicate StoredFor(zset: map<string, real>, past: seq<Hit>, window: nat, clock: real, early: real) {
    if zset == map[] then past == [] || past[|past| - 1].time + window as real <= clock
    else past != [] && early <= clock - window as real && zset == ToZset(Live(past, early))
  }

  /** What one key holds, and when it expires, agrees with the admission history of its identity. */
  ghost predicate KeptFor(zset: map<string, real>, expiresAt: Option<real>, past: seq<Hit>, window: nat, clock: real,
                          early: real)
  {
    && Ordered(past, clock) && DistinctMembers(past) && StoredFor(zset, past, window, clock, early)
    && (zset != map[] ==> expiresAt == Some(past[|past| - 1].time + window as real))
  }

  function IfLive(zset: map<string, real>, expiresAt: Option<real>, now: real): map<string, real> {
    if expiresAt.Some? && expiresAt.value <= now then map[] else zset
  }

  /** Time passing, or the key's time to live running out, keeps what is stored right. */
  lemma KeptUntil(zset: map<string, real>, expiresAt: Option<real>, past: seq<Hit>, window: nat, clock: real, now: real,
                  early: real)
    requires KeptFor(zset, expiresAt, past, window, clock, early) && now >= clock >= 0.0
    ensures KeptFor(zset, expiresAt, past, window, now, early)
    ensures Ordered(past, clock) && DistinctMembers(past)
    ensures StoredFor(IfLive(zset, expiresAt, now), past, window, now, early)
  {
    hide ToZset, Live;
  }

  lemma KeptAfter(expiresAt: Option<real>, past: seq<Hit>, window: nat, clock: real, q: Request, early: real,
                  before: map<string, real>, zset: map<string, real>, allowed: bool)
    requires KeptFor(before, expiresAt, past, window, clock, early) && q.now >= clock >= 0.0 && window > 0
    requires forall i :: 0 <= i < |past| ==> past[i].member != q.member
    requires allowed == Admits(past, q.now, window, q.limit) && (before == map[] && !allowed ==> zset == map[])
    requires StoredFor(zset, Push(past, window, q), window, q.now, q.now - window as real)
    ensures KeptFor(zset, if allowed then Some(q.now + window as real) else expiresAt, Push(past, window, q), window,
                    q.now, q.now - window as real)
  {
    hide ToZset, Live, Admits;
    PushedFacts(past, window, q, clock);
  }

  lemma PushedFacts(past: seq<Hit>, window: nat, q: Request, clock: real)
    requires Ordered(past, clock) && DistinctMembers(past) && q.now >= clock >= 0.0 && window > 0
    requires forall i :: 0 <= i < |past| ==> past[i].member != q.member
    ensures Ordered(Push(past, window, q), q.now) && DistinctMembers(Push(past, window, q))
  {
    hide Admits;
  }

  /** The script, on the sorted set it finds under its key; an empty set is no key. */
  method SlidingWindowLua(zset0: map<string, real>, window: nat, q: Request,
                          ghost past: seq<Hit>, ghost clock: real, ghost early: real)
    returns (zset: map<string, real>, reply: Reply)
    requires window > 0 && Ordered(past, clock) && DistinctMembers(past) && q.now >= clock >= 0.0
    requires forall i :: 0 <= i < |past| ==> past[i].member != q.member
    requires StoredFor(zset0, past, window, q.now, early)
    ensures reply == LuaReply(past, window, q)
    ensures zset == ToZset(Live(Push(past, window, q), q.now - window as real))
    ensures StoredFor(zset, Push(past, window, q), window, q.now, q.now - window as real)
    ensures reply.Answer? && (zset0 == map[] && !reply.allowed ==> zset == map[])
    ensures reply.allowed == Admits(past, q.now, window, q.limit)
  {
    hide Filter, Ordered, Live, ToZset, DistinctMembers, RemoveUpTo;
    RemoveNone(q.now - window as real);
    zset := RemoveUpTo(zset0, q.now - window as real);
    ScriptState(past, clock, window, q.now, early, zset0 != map[]);
    var used := |zset|;
    if used >= q.limit {
      var reset := window;
      if used > 0 {
        var oldest :| oldest in zset.Values && forall s :: s in zset.Values ==> oldest <= s;
        reset := Ceil(oldest + window as real - q.now);
      }
      return zset, Answer(false, used, reset);
    }
    AdmittedScript(past, clock, window, Hit(q.member, q.now));
    zset := zset[q.member := q.now];
    assert q.member in zset;
    return zset, Answer(true, used + 1, window);
  }

  lemma OfAdmit(history: History, window: nat, q: Request)
    ensures Of(Admit(history, window, q), q.identity) == Push(Of(history, q.identity), window, q)
    ensures forall id :: id != q.identity ==> Of(Admit(history, window, q), id) == Of(history, id)
  {
    hide Admits;
  }

  function StoredIn(zsets: map<string, map<string, real>>, id: string): map<string, real> {
    if id in zsets then zsets[id] else map[]
  }

  function ExpiryIn(expiry: map<string, real>, id: string): Option<real> {
    if id in expiry then Some(expiry[id]) else None
  }

  function PrunedIn(pruned: map<string, real>, id: string): real {
    if id in pruned then pruned[id] else 0.0
  }

  /** What all keys hold agrees with the history. */
  ghost predicate AllKept(zsets: map<string, map<string, real>>, expiry: map<string, real>, history: History,
                          pruned: map<string, real>, window: nat, clock: real)
  {
    forall id ::
      KeptFor(StoredIn(zsets, id), ExpiryIn(expiry, id), Of(history, id), window, clock, PrunedIn(pruned, id))
  }

  lemma AllKeptAt(zsets: map<string, map<string, real>>, expiry: map<string, real>, history: History,
                  pruned: map<string, real>, window: nat, clock: real, id: string)
    requires AllKept(zsets, expiry, history, pruned, window, clock)
    ensures KeptFor(StoredIn(zsets, id), ExpiryIn(expiry, id), Of(history, id), window, clock, PrunedIn(pruned, id))
  {
    hide KeptFor, StoredIn, ExpiryIn, Of, PrunedIn;
  }

  lemma AllKeptAfter(zsets: map<string, map<string, real>>, expiry: map<string, real>, history: History,
                     pruned: map<string, real>, window: nat, clock: real, q: Request, stored: map<string, real>,
                     allowed: bool)
    requires AllKept(zsets, expiry, history, pruned, window, clock) && q.now >= clock >= 0.0
    requires KeptFor(stored, if allowed then Some(q.now + window as real) else ExpiryIn(expiry, q.identity),
                     Push(Of(history, q.identity), window, q), window, q.now, q.now - window as real)
    ensures AllKept(zsets[q.identity := stored],
                    if allowed then expiry[q.identity := q.now + window as real] else expiry,
                    Admit(history, window, q), pruned[q.identity := q.now - window as real], window, q.now)
  {
    hide KeptFor, StoredFor, IfLive, Admit, Push, Of;
    OfAdmit(history, window, q);
    forall id | id != q.identity
      ensures KeptFor(StoredIn(zsets, id), ExpiryIn(expiry, id), Of(history, id), window, q.now, PrunedIn(pruned, id))
    {
      AllKeptAt(zsets, expiry, history, pruned, window, clock, id);
      KeptUntil(StoredIn(zsets, id), ExpiryIn(expiry, id), Of(history, id), window, clock, q.now, PrunedIn(pruned, id));
    }
  }

  lemma NothingKept(window: nat)
    ensures AllKept(map[], map[], map[], map[], window, 0.0)
  {
  }

  /** One call of the script on its key, with the time to live that it sets. */
  method CheckKey(zsets: map<string, map<string, real>>, expiry: map<string, real>, window: nat, q: Request,
                  ghost history: History, ghost pruned: map<string, real>, ghost clock: real)
    returns (zset: map<string, real>, expires: Option<real>, reply: Reply)
    requires window > 0 && q.now >= clock >= 0.0 && AllKept(zsets, expiry, history, pruned, window, clock)
    requires forall i :: 0 <= i < |Of(history, q.identity)| ==> Of(history, q.identity)[i].member != q.member
    ensures reply == LuaReply(Of(history, q.identity), window, q) && reply.Answer?
    ensures zset == ToZset(Live(Push(Of(history, q.identity), window, q), q.now - window as real))
    ensures expires == if reply.allowed then Some(q.now + window as real) else ExpiryIn(expiry, q.identity)
    ensures KeptFor(zset, expires, Push(Of(history, q.identity), window, q), window, q.now, q.now - window as real)
  {
    hide Ordered, Live, ToZset, DistinctMembers, LuaReply, Admits, StoredFor, KeptFor, Push, Of, AllKept, IfLive;
    var key := q.identity;
    var held := StoredIn(zsets, key);
    expires := ExpiryIn(expiry, key);
    ghost var past, early := Of(history, key), PrunedIn(pruned, key);
    AllKeptAt(zsets, expiry, history, pruned, window, clock, key);
    KeptUntil(held, expires, past, window, clock, q.now, early);
    zset, reply := SlidingWindowLua(IfLive(held, expires, q.now), window, q, past, clock, early);
    NothingHeld(expires, q.now);
    KeptAfter(expires, past, window, clock, q, early, held, zset, reply.allowed);
    expires := if reply.allowed then Some(q.now + window as real) else expires;
  }

  lemma NothingHeld(expires: Option<real>, now: real)
    ensures IfLive(map[], expires, now) == map[]
  {
  }

  lemma StoredElsewhere(zsets: map<string, map<string, real>>, key: string, zset: map<string, real>)
    ensures StoredIn(zsets[key := zset], key) == zset
    ensures forall id :: id != key ==> StoredIn(zsets[key := zset], id) == StoredIn(zsets, id)
  {
  }

  class RateLimiter {
    const window: nat
    var zsets: map<string, map<string, real>>
    var expiry: map<string, real>
    ghost var history: History
    ghost var pruned: map<string, real>
    ghost var clock: real

    function Stored(id: string): map<string, real>
      reads this
    {
      StoredIn(zsets, id)
    }

    ghost predicate Valid()
      reads this
    {
      window > 0 && clock >= 0.0 && AllKept(zsets, expiry, history, pruned, window, clock)
    }

    constructor (window: nat)
      requires window > 0
      ensures Valid() && this.window == window && history == map[] && clock == 0.0
    {
      this.window := window;
      zsets, expiry, history, pruned, clock := map[], map[], map[], map[], 0.0;
      new;
      NothingKept(window);
    }

    /** One call; the member it makes up is new to the identity. */
    method Check(q: Request) returns (reply: Reply)
      requires Valid() && q.now >= clock
      requires forall i :: 0 <= i < |Of(history, q.identity)| ==> Of(history, q.identity)[i].member != q.member
      modifies this
      ensures Valid() && clock == q.now
      ensures history == Admit(old(history), window, q)
      ensures reply == LuaReply(Of(old(history), q.identity), window, q)
      ensures Stored(q.identity) == ToZset(Live(Of(history, q.identity), q.now - window as real))
      ensures forall id :: id != q.identity ==> Stored(id) == old(Stored(id))
    {
      hide Live, ToZset, LuaReply, KeptFor, Admit, Push, Of, AllKept, StoredIn;
      OfAdmit(history, window, q);
      var key := q.identity;
      var stored, expires;
      stored, expires, reply := CheckKey(zsets, expiry, window, q, history, pruned, clock);
      StoredElsewhere(zsets, key, stored);
      AllKeptAfter(zsets, expiry, history, pruned, window, clock, q, stored, reply.allowed);
      zsets, expiry, history, pruned, clock :=
        zsets[key := stored],
        if reply.allowed then expiry[key := q.now + window as real] else expiry,
        Admit(history, window, q),
        pruned[key := q.now - window as real],
        q.now;
    }
  }
}
