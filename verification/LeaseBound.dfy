/** The lease protects deliveries exactly when a full batch can be delivered within it. */
module LeaseBound {
  import opened Options
  import opened OutboxDelivery
  import opened WorkerSeparation
  import opened LeaseSafety

  const OK := Receipt(true, false, "")
  const FAILED := Receipt(false, false, "")

  function FreshRow(a: Action): Row {
    Row(a, "run", Queued, 0, None, None, None, None, None, None)
  }

  function TakenRow(a: Action): Row {
    ClaimRow(FreshRow(a), "a", 0)
  }

  function AllRows(n: nat): seq<nat> {
    seq(n, i => i)
  }

  /** Worker a claimed all n rows at time 0 and has delivered the first k of them, each as slowly as it may. */
  ghost predicate HalfWay(c: Config, a: Action, s: State, k: nat) {
    && |s.rows| == |s.logs| == c.batch && k <= c.batch
    && (forall i :: k <= i < c.batch ==> s.rows[i] == TakenRow(a))
    && s.workers.Keys == {"a"}
    && s.workers["a"].claimedAt == 0 && s.workers["a"].lastAt == k * c.longest
    && |s.workers["a"].held| == c.batch - k
    && (forall i :: 0 <= i < c.batch - k ==> s.workers["a"].held[i] == Held(k + i, TakenRow(a)))
  }

  predicate CanBeClaimed(c: Config, a: Action) {
    Owned(c, a) && c.batch >= 1 && c.maxAttempts >= 1
  }

  lemma RunPush(c: Config, es: seq<Event>, e: Event)
    requires IsRun(c, es) && ClockAfter(es) <= e.now && Possible(c, RunOf(c, es), e)
    ensures IsRun(c, es + [e]) && RunOf(c, es + [e]) == Apply(c, RunOf(c, es), e) && ClockAfter(es + [e]) == e.now
  {
    hide Possible, Apply;
    assert (es + [e])[..|es|] == es;
  }

  lemma AllRowsFacts(n: nat)
    ensures |AllRows(n)| == n && DistinctRows(AllRows(n)) && forall i :: i in AllRows(n) <==> 0 <= i < n
    ensures forall i :: 0 <= i < n ==> AllRows(n)[i] == i
  {
    forall i | 0 <= i < n ensures i in AllRows(n) {
      assert AllRows(n)[i] == i;
    }
  }

  ghost predicate Dispatched(c: Config, a: Action, s: State) {
    && |s.rows| == |s.logs| == c.batch && s.workers == map[]
    && forall i :: 0 <= i < c.batch ==> s.rows[i] == FreshRow(a)
  }

  function Same(a: Action, n: nat): seq<Action> {
    seq(n, _ => a)
  }

  lemma DispatchesAll(c: Config, a: Action)
    requires CanBeClaimed(c, a)
    ensures
      var dispatch := Dispatch("run", Same(a, c.batch), 0);
      Possible(c, Empty(), dispatch) && Dispatched(c, a, Apply(c, Empty(), dispatch))
  {
    var actions := Same(a, c.batch);
    assert |actions| == c.batch && forall i :: 0 <= i < |actions| ==> actions[i] == a;
  }

  lemma DispatchedAll(c: Config, a: Action) returns (es: seq<Event>)
    requires CanBeClaimed(c, a)
    ensures IsRun(c, es) && ClockAfter(es) == 0 && Dispatched(c, a, RunOf(c, es))
  {
    hide Possible, Apply, Dispatched;
    var dispatch := Dispatch("run", Same(a, c.batch), 0);
    DispatchesAll(c, a);
    assert RunOf(c, []) == Empty() && IsRun(c, []) && ClockAfter([]) == 0;
    RunPush(c, [], dispatch);
    es := [] + [dispatch];
  }

  lemma ClaimAll(c: Config, a: Action, s: State) returns (e: Event)
    requires CanBeClaimed(c, a) && Dispatched(c, a, s)
    ensures e.now == 0 && Possible(c, s, e) && HalfWay(c, a, Apply(c, s, e), 0)
  {
    hide AllRows;
    AllRowsFacts(c.batch);
    e := Claim("a", AllRows(c.batch), "a", 0);
  }

  lemma ClaimedAll(c: Config, a: Action) returns (es: seq<Event>)
    requires CanBeClaimed(c, a)
    ensures IsRun(c, es) && ClockAfter(es) == 0 && HalfWay(c, a, RunOf(c, es), 0)
  {
    hide Possible, Apply, Dispatched, HalfWay;
    var front := DispatchedAll(c, a);
    var e := ClaimAll(c, a, RunOf(c, front));
    RunPush(c, front, e);
    es := front + [e];
  }

  lemma OneMore(c: Config, a: Action, s: State, k: nat) returns (e: Event)
    requires CanBeClaimed(c, a) && HalfWay(c, a, s, k) && k < c.batch
    ensures e.now == (k + 1) * c.longest && Possible(c, s, e) && HalfWay(c, a, Apply(c, s, e), k + 1)
  {
    hide WriteBack, Finish;
    e := Deliver("a", OK, (k + 1) * c.longest);
    assert (k + 1) * c.longest - k * c.longest == c.longest;
    var held := s.workers["a"].held;
    assert held[0].row == k;
    assert forall i :: 0 <= i < c.batch - k - 1 ==> held[1..][i] == held[i + 1];
  }

  lemma {:induction false} Slowly(c: Config, a: Action, k: nat) returns (es: seq<Event>)
    requires CanBeClaimed(c, a) && k <= c.batch
    ensures IsRun(c, es) && ClockAfter(es) == k * c.longest && HalfWay(c, a, RunOf(c, es), k)
  {
    hide Possible, Apply, HalfWay;
    if k == 0 {
      assert 0 * c.longest == 0;
      es := ClaimedAll(c, a);
    } else {
      var front := Slowly(c, a, k - 1);
      var e := OneMore(c, a, RunOf(c, front), k - 1);
      assert (k - 1) * c.longest <= k * c.longest by {
        MulMonotone(k - 1, k, c.longest);
      }
      RunPush(c, front, e);
      es := front + [e];
    }
  }

  /** Worker b holds the last row under its own lease, while worker a still holds its copy. */
  ghost predicate TakenOver(c: Config, a: Action, s: State, now: int) {
    var taken := ClaimRow(TakenRow(a), "b", now);
    && c.batch >= 1 && |s.rows| == |s.logs| == c.batch && s.rows[c.batch - 1] == taken && StillHeld(c, a, s)
    && "b" in s.workers && s.workers["b"].held == [Held(c.batch - 1, taken)] && s.workers["b"].lastAt == now
  }

  ghost predicate StillHeld(c: Config, a: Action, s: State) {
    && c.batch >= 1 && "a" in s.workers && s.workers["a"].held == [Held(c.batch - 1, TakenRow(a))]
    && s.workers["a"].lastAt == (c.batch - 1) * c.longest
  }

  /** Once the lease is over, one more worker takes over the last row. */
  lemma TakeOver(c: Config, a: Action, s: State, now: int) returns (e: Event)
    requires CanBeClaimed(c, a) && HalfWay(c, a, s, c.batch - 1) && now > LEASE_SECONDS
    ensures e.now == now && Possible(c, s, e) && TakenOver(c, a, Apply(c, s, e), now)
  {
    var last := c.batch - 1;
    e := Claim("b", [last], "b", now);
    assert last in e.chosen;
    assert s.rows[last] == TakenRow(a) && s.workers["a"].held[0] == Held(last, TakenRow(a));
  }

  /** It delivers the row, which is then final. */
  lemma DeliverFirst(c: Config, a: Action, s: State, now: int) returns (e: Event)
    requires CanBeClaimed(c, a) && TakenOver(c, a, s, now)
    ensures e.now == now && Possible(c, s, e)
    ensures
      var t := Apply(c, s, e);
      |t.rows| == |t.logs| == c.batch && t.rows[c.batch - 1].state.Delivered? && StillHeld(c, a, t)
  {
    e := Deliver("b", OK, now);
  }

  /** The slow worker still writes its copy over the final row. */
  lemma Overwrite(c: Config, a: Action, s: State, now: int) returns (e: Event)
    requires CanBeClaimed(c, a) && now == c.batch * c.longest
    requires |s.rows| == |s.logs| == c.batch && s.rows[c.batch - 1].state.Delivered? && StillHeld(c, a, s)
    ensures e.now == now && Possible(c, s, e) && !ClosedKept(s, Apply(c, s, e))
    ensures e.Deliver? && !FreshWrite(s, e.worker, e.now)
  {
    var last := c.batch - 1;
    e := Deliver("a", FAILED, now);
    assert now - last * c.longest == c.longest;
    assert Apply(c, s, e).rows[last].state.DeadLetter?;
    assert Closed(s.rows[last]);
  }

  /** Every write of the run comes within its lease and onto the row as it was loaded. */
  ghost predicate AllFresh(c: Config, es: seq<Event>) {
    forall i :: 0 <= i < |es| && es[i].Deliver? ==> FreshWrite(RunOf(c, es[..i]), es[i].worker, es[i].now)
  }

  lemma LateRun(c: Config, a: Action) returns (es: seq<Event>)
    requires CanBeClaimed(c, a) && !Timely(c)
    ensures IsRun(c, es) && !ClosedForGood(c, es) && !AllFresh(c, es)
  {
    hide Possible, Apply, HalfWay, TakenOver, StillHeld, ClosedKept, FreshWrite;
    var front := Slowly(c, a, c.batch - 1);
    var now := c.batch * c.longest;
    MulMonotone(c.batch - 1, c.batch, c.longest);
    var claim := TakeOver(c, a, RunOf(c, front), now);
    RunPush(c, front, claim);
    var deliver := DeliverFirst(c, a, RunOf(c, front + [claim]), now);
    RunPush(c, front + [claim], deliver);
    var overwrite := Overwrite(c, a, RunOf(c, front + [claim] + [deliver]), now);
    RunPush(c, front + [claim] + [deliver], overwrite);
    es := front + [claim] + [deliver] + [overwrite];
    assert es[..|es| - 1] == front + [claim] + [deliver] && es[..|es|] == es;
    assert !ClosedKept(RunOf(c, es[..|es| - 1]), RunOf(c, es[..|es|]));
    assert es[|es| - 1] == overwrite;
  }

  // ---------------------------------------------------------------- without a configured connector

  /** No connector is configured. */
  ghost predicate NothingOwned(c: Config) {
    SlackNotify !in c.configured && JiraIssueCreate !in c.configured && SiemPush !in c.configured
  }

  lemma NothingIsHeld(c: Config, s: State)
    requires NothingOwned(c) && Separate(c, s)
    ensures forall w :: w in s.workers ==> s.workers[w].held == []
  {
    hide CreatedFine, HoldsOwned, NothingOwned;
    forall w | w in s.workers ensures s.workers[w].held == [] {
      if s.workers[w].held != [] {
        HeldMeansOwned(c, s.rows, s.workers[w]);
      }
    }
  }

  lemma HeldMeansOwned(c: Config, rows: seq<Row>, k: Worker)
    requires HoldsOwned(c, rows, k) && k.held != []
    ensures !NothingOwned(c)
  {
    assert Owned(c, rows[k.held[0].row].action);
  }

  lemma IdleStepKeepsClosed(c: Config, s: State, e: Event)
    requires NothingOwned(c) && Separate(c, s) && Possible(c, s, e)
    ensures ClosedKept(s, Apply(c, s, e))
  {
    hide CreatedFine, Finish, WriteBack, CreatedBy;
    NothingIsHeld(c, s);
  }

  /** Where no connector is configured, workers touch nothing, and final rows stay whatever the times are. */
  lemma {:induction false} IdleKeepsClosed(c: Config, es: seq<Event>, i: nat, j: nat)
    requires IsRun(c, es) && NothingOwned(c) && i <= j <= |es|
    ensures ClosedKept(RunOf(c, es[..i]), RunOf(c, es[..j]))
    decreases j
  {
    hide Possible, Apply, ClosedKept, Separate, NothingOwned;
    if i == j {
      SameClosedKept(RunOf(c, es[..i]));
    } else {
      IdleKeepsClosed(c, es, i, j - 1);
      IsRunPrefix(c, es, j - 1);
      WorkerSeparation.RunKeeps(c, es[..j - 1]);
      assert es[..j][..j - 1] == es[..j - 1];
      IdleStepKeepsClosed(c, RunOf(c, es[..j - 1]), es[j - 1]);
      ClosedKeptOn(RunOf(c, es[..i]), RunOf(c, es[..j - 1]), RunOf(c, es[..j]));
    }
  }

  /** Delivered and dead-lettered rows are final in every run exactly when batch size times the longest delivery fits in
      one lease, or no connector is configured at all. */
  lemma LeaseBoundExact(c: Config)
    requires c.maxAttempts >= 1
    ensures Timely(c) || NothingOwned(c) <==> forall es :: IsRun(c, es) ==> ClosedForGood(c, es)
  {
    hide IsRun, ClosedForGood;
    if Timely(c) {
      forall es | IsRun(c, es) ensures ClosedForGood(c, es) {
        TimelyKeepsClosed(c, es);
      }
    } else if NothingOwned(c) {
      forall es | IsRun(c, es) ensures ClosedForGood(c, es) {
        IdleClosedForGood(c, es);
      }
    } else {
      var a := if SlackNotify in c.configured then SlackNotify
               else if JiraIssueCreate in c.configured then JiraIssueCreate else SiemPush;
      UntimelyHasBatch(c);
      var es := LateRun(c, a);
    }
  }

  lemma IdleClosedForGood(c: Config, es: seq<Event>)
    requires IsRun(c, es) && NothingOwned(c)
    ensures ClosedForGood(c, es)
  {
    hide IsRun, NothingOwned, ClosedKept;
    forall i, j | 0 <= i < j <= |es| ensures ClosedKept(RunOf(c, es[..i]), RunOf(c, es[..j])) {
      IdleKeepsClosed(c, es, i, j);
    }
  }

  /** Under the same condition, and no other, every write of every run lands on the row version it was loaded from. */
  lemma FreshWritesExactly(c: Config)
    requires c.maxAttempts >= 1
    ensures Timely(c) || NothingOwned(c) <==> forall es :: IsRun(c, es) ==> AllFresh(c, es)
  {
    hide IsRun, AllFresh;
    if Timely(c) {
      forall es | IsRun(c, es) ensures AllFresh(c, es) {
        TimelyIsFresh(c, es);
      }
    } else if NothingOwned(c) {
      forall es | IsRun(c, es) ensures AllFresh(c, es) {
        IdleIsFresh(c, es);
      }
    } else {
      var a := if SlackNotify in c.configured then SlackNotify
               else if JiraIssueCreate in c.configured then JiraIssueCreate else SiemPush;
      UntimelyHasBatch(c);
      var es := LateRun(c, a);
    }
  }

  lemma TimelyIsFresh(c: Config, es: seq<Event>)
    requires IsRun(c, es) && Timely(c) && c.maxAttempts >= 1
    ensures AllFresh(c, es)
  {
    hide IsRun, FreshWrite;
    forall i | 0 <= i < |es| && es[i].Deliver? ensures FreshWrite(RunOf(c, es[..i]), es[i].worker, es[i].now) {
      WritesAreFresh(c, es, i);
    }
  }

  /** Nothing is ever written where nothing is ever held. */
  lemma IdleIsFresh(c: Config, es: seq<Event>)
    requires IsRun(c, es) && NothingOwned(c)
    ensures AllFresh(c, es)
  {
    hide IsRun, FreshWrite, NothingOwned, Separate;
    forall i | 0 <= i < |es| ensures !es[i].Deliver? {
      IsRunPrefix(c, es, i);
      WorkerSeparation.RunKeeps(c, es[..i]);
      NothingIsHeld(c, RunOf(c, es[..i]));
    }
  }

  lemma UntimelyHasBatch(c: Config)
    requires !Timely(c)
    ensures c.batch >= 1
  {
  }

  /** The shipped batch of 20 with the default timeout of 10 seconds does not fit in a lease of 120 seconds, whichever
      connector is configured. */
  lemma DefaultsAreNotTimely(maxAttempts: nat, configured: set<Action>, a: Action)
    requires maxAttempts >= 1 && IsConnector(a) && a in configured
    ensures
      var c := Config(20, 10, maxAttempts, configured);
      exists es :: IsRun(c, es) && !ClosedForGood(c, es)
  {
    var es := LateRun(Config(20, 10, maxAttempts, configured), a);
  }
}
