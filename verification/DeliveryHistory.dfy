/** What becomes of each outbox row, told from the receipts of its deliveries. */
module DeliveryHistory {
  import opened Options
  import opened OutboxDelivery
  import opened WorkerSeparation
  import opened LeaseSafety

  // ---------------------------------------------------------------- the deliveries and the lease of a row

  datatype Delivery = Delivery(receipt: Receipt, at: int)

  datatype Lease = Lease(token: string, at: int)

  /** The event writes back the row. */
  predicate Delivers(s: State, e: Event, i: nat) {
    e.Deliver? && e.worker in s.workers && s.workers[e.worker].held != [] && s.workers[e.worker].held[0].row == i
  }

  predicate Claims(e: Event, i: nat) {
    e.Claim? && i in e.chosen
  }

  function DeliveriesOf(c: Config, es: seq<Event>, i: nat): seq<Delivery> {
    if es == [] then [] else
      var front, e := es[..|es| - 1], es[|es| - 1];
      DeliveriesOf(c, front, i) + if Delivers(RunOf(c, front), e, i) then [Delivery(e.receipt, e.now)] else []
  }

  /** The claim that no delivery has followed yet. */
  function LeaseOf(c: Config, es: seq<Event>, i: nat): Option<Lease> {
    if es == [] then None else
      var front, e := es[..|es| - 1], es[|es| - 1];
      if Claims(e, i) then Some(Lease(e.token, e.now))
      else if Delivers(RunOf(c, front), e, i) then None
      else LeaseOf(c, front, i)
  }

  const BACKOFF := [30, 60, 120, 240, 480, 960, 1920]

  /** Half a minute, doubled by every attempt, and an hour at most. */
  function Backoff(attempts: nat): int {
    if attempts < 7 then BACKOFF[attempts] else 3600
  }

  predicate TriesAgain(d: Delivery, n: nat, maxAttempts: nat) {
    !d.receipt.delivered && d.receipt.retryable && n < maxAttempts
  }

  predicate LeaseTells(r: Row, lease: Option<Lease>) {
    && r.leaseToken == (if lease.Some? then Some(lease.value.token) else None)
    && r.leaseUntil == (if lease.Some? then Some(lease.value.at + 120) else None)
    && (r.state == Delivering <==> lease.Some?)
  }

  /** The last delivery decides: delivered, tried again later, or given up. */
  predicate LastTells(r: Row, d: Delivery, n: nat, leased: bool, maxAttempts: nat) {
    && (r.state == Delivered <==> d.receipt.delivered)
    && (r.state == DeadLetter <==> !d.receipt.delivered && !(d.receipt.retryable && n < maxAttempts))
    && (r.state == Retrying <==> TriesAgain(d, n, maxAttempts) && !leased)
    && (TriesAgain(d, n, maxAttempts) ==> r.availableAt == Some(d.at + Backoff(n)))
    && r.lastError == (if d.receipt.delivered then None else Some(d.receipt.detail))
    && (r.state == Delivered ==> r.deliveredAt == Some(d.at))
    && (r.state == Delivered || r.state == DeadLetter ==> r.result == Some(d.receipt.detail))
  }

  predicate RowTells(r: Row, ds: seq<Delivery>, lease: Option<Lease>, maxAttempts: nat) {
    && r.attempts == |ds| && LeaseTells(r, lease)
    && if ds == [] then (r.state == Queued <==> lease.None?) && r.availableAt == None && r.state in {Queued, Delivering}
       else LastTells(r, ds[|ds| - 1], |ds|, lease.Some?, maxAttempts)
  }

  lemma BackoffIsDelay(n: nat)
    ensures RetryDelay(n) == Backoff(n)
  {
    assert Pow2(3) == 8;
    assert Pow2(5) == 4 * Pow2(3) && Pow2(6) == 8 * Pow2(3) && Pow2(7) == 16 * Pow2(3);
    if n < 7 {
      assert n == 0 || n == 1 || n == 2 || n == 3 || n == 4 || n == 5 || n == 6;
    }
  }

  // ---------------------------------------------------------------- one step of one row

  lemma ClaimTells(r: Row, ds: seq<Delivery>, lease: Option<Lease>, maxAttempts: nat, token: string, now: int)
    requires RowTells(r, ds, lease, maxAttempts) && (Waiting(r, now) || Abandoned(r, now))
    ensures RowTells(ClaimRow(r, token, now), ds, Some(Lease(token, now)), maxAttempts)
  {
    hide Backoff;
  }

  lemma DeliveryTells(r: Row, ds: seq<Delivery>, lease: Option<Lease>, maxAttempts: nat, receipt: Receipt, now: int)
    requires RowTells(r, ds, lease, maxAttempts) && r.state.Delivering?
    ensures RowTells(Finish(r, receipt, now, maxAttempts), ds + [Delivery(receipt, now)], None, maxAttempts)
  {
    hide Backoff, RetryDelay;
    BackoffIsDelay(|ds| + 1);
  }

  lemma NewTells(a: Action, run: string, maxAttempts: nat)
    ensures RowTells(Row(a, run, Queued, 0, None, None, None, None, None, None), [], None, maxAttempts)
  {
  }

  /** Every connector row is the one its deliveries and its lease tell of. */
  ghost predicate RowsTell(c: Config, es: seq<Event>) {
    var s := RunOf(c, es);
    forall i: nat :: i < |s.rows| && !IsInternal(s.rows[i].action) ==>
      RowTells(s.rows[i], DeliveriesOf(c, es, i), LeaseOf(c, es, i), c.maxAttempts)
  }

  lemma {:induction false} NothingOfOthers(c: Config, es: seq<Event>, i: nat)
    requires IsRun(c, es) && i >= |RunOf(c, es).rows|
    ensures DeliveriesOf(c, es, i) == [] && LeaseOf(c, es, i) == None
  {
    hide Apply, Possible;
    if es != [] {
      var front, e := es[..|es| - 1], es[|es| - 1];
      OriginsStay(c, RunOf(c, front), e);
      NothingOfOthers(c, front, i);
      NotYetInTable(c, RunOf(c, front), e, i);
    }
  }

  lemma NotYetInTable(c: Config, s: State, e: Event, i: nat)
    requires Possible(c, s, e) && i >= |s.rows|
    ensures !Delivers(s, e, i) && !Claims(e, i)
  {
  }

  ghost predicate TellsNext(c: Config, s: State, e: Event, i: nat, ds: seq<Delivery>, lease: Option<Lease>)
    requires i < |Apply(c, s, e).rows|
  {
    RowTells(Apply(c, s, e).rows[i],
             ds + if Delivers(s, e, i) then [Delivery(e.receipt, e.now)] else [],
             if Claims(e, i) then Some(Lease(e.token, e.now)) else if Delivers(s, e, i) then None else lease,
             c.maxAttempts)
  }

  lemma ClaimStep(c: Config, s: State, e: Event, i: nat, ds: seq<Delivery>, lease: Option<Lease>)
    requires e.Claim? && Possible(c, s, e) && i < |s.rows| && RowTells(s.rows[i], ds, lease, c.maxAttempts)
    ensures i < |Apply(c, s, e).rows| && TellsNext(c, s, e, i, ds, lease)
  {
    hide RowTells, Waiting, Abandoned, ClaimRow;
    assert ds + [] == ds;
    if i in e.chosen {
      ClaimTells(s.rows[i], ds, lease, c.maxAttempts, e.token, e.now);
    }
  }

  lemma DeliverStep(c: Config, s: State, clock: int, e: Event, i: nat, ds: seq<Delivery>, lease: Option<Lease>)
    requires Inv(c, s, clock) && Timely(c) && e.Deliver? && clock <= e.now && Possible(c, s, e)
    requires i < |s.rows| && RowTells(s.rows[i], ds, lease, c.maxAttempts)
    ensures i < |Apply(c, s, e).rows| && TellsNext(c, s, e, i, ds, lease)
  {
    hide RowTells, Finish, Inv, Timely;
    DeliverEffect(c, s, clock, e);
    assert ds + [] == ds;
    if Delivers(s, e, i) {
      DeliveryTells(s.rows[i], ds, lease, c.maxAttempts, e.receipt, e.now);
    }
  }

  lemma OtherStep(c: Config, s: State, e: Event, i: nat, ds: seq<Delivery>, lease: Option<Lease>)
    requires !e.Claim? && !e.Deliver? && Possible(c, s, e)
    requires i < |s.rows| && !IsInternal(s.rows[i].action) && RowTells(s.rows[i], ds, lease, c.maxAttempts)
    ensures i < |Apply(c, s, e).rows| && TellsNext(c, s, e, i, ds, lease)
  {
    hide RowTells, CreatedBy;
    assert ds + [] == ds;
  }

  lemma StepTells(c: Config, s: State, clock: int, e: Event, i: nat, ds: seq<Delivery>, lease: Option<Lease>)
    requires Inv(c, s, clock) && Timely(c) && clock <= e.now && Possible(c, s, e)
    requires i < |s.rows| && !IsInternal(s.rows[i].action) && RowTells(s.rows[i], ds, lease, c.maxAttempts)
    ensures i < |Apply(c, s, e).rows| && TellsNext(c, s, e, i, ds, lease)
  {
    hide RowTells, Inv, Timely, Possible, Apply, TellsNext;
    if e.Claim? {
      ClaimStep(c, s, e, i, ds, lease);
    } else if e.Deliver? {
      DeliverStep(c, s, clock, e, i, ds, lease);
    } else {
      OtherStep(c, s, e, i, ds, lease);
    }
  }

  lemma NewRowTells(c: Config, s: State, e: Event, i: nat)
    requires Possible(c, s, e) && |s.rows| <= i < |Apply(c, s, e).rows|
    ensures RowTells(Apply(c, s, e).rows[i], [], None, c.maxAttempts) && !Delivers(s, e, i) && !Claims(e, i)
  {
    hide CreatedBy, RowTells, Finish;
    NotYetInTable(c, s, e, i);
    if e.Dispatch? {
      NewTells(e.actions[i - |s.rows|], e.run, c.maxAttempts);
    }
  }

  /** In every timely run each connector row counts its deliveries and is where the last of them left it: delivered if
      it was, tried again after the backoff if it failed, may be retried and has attempts left, given up otherwise;
      and it is being delivered exactly while a claim stands that no delivery has followed. */
  lemma {:induction false} RowsFollowDeliveries(c: Config, es: seq<Event>)
    requires IsRun(c, es) && Timely(c) && c.maxAttempts >= 1
    ensures RowsTell(c, es)
  {
    hide RowTells, Inv, Timely, Possible, Apply, Delivers, Claims;
    if es != [] {
      var front, e := es[..|es| - 1], es[|es| - 1];
      var s, t := RunOf(c, front), RunOf(c, es);
      RowsFollowDeliveries(c, front);
      LeaseSafety.RunKeeps(c, front);
      OriginsStay(c, s, e);
      forall i: nat | i < |t.rows| && !IsInternal(t.rows[i].action)
        ensures RowTells(t.rows[i], DeliveriesOf(c, es, i), LeaseOf(c, es, i), c.maxAttempts)
      {
        if i < |s.rows| {
          StepTells(c, s, ClockAfter(front), e, i, DeliveriesOf(c, front, i), LeaseOf(c, front, i));
        } else {
          NothingOfOthers(c, front, i);
          NewRowTells(c, s, e, i);
          assert DeliveriesOf(c, es, i) == [] && LeaseOf(c, es, i) == None;
        }
      }
    }
  }

  /** So a row is delivered exactly when its last delivery succeeded; given up exactly when that failed for good or
      was the last one allowed; and waits for another try exactly when it failed, may be retried, has attempts left
      and no one has claimed it since. */
  lemma ReceiptsDecide(c: Config, es: seq<Event>, i: nat)
    requires IsRun(c, es) && Timely(c) && c.maxAttempts >= 1
    requires i < |RunOf(c, es).rows| && !IsInternal(RunOf(c, es).rows[i].action) && DeliveriesOf(c, es, i) != []
    ensures
      var r, ds, m := RunOf(c, es).rows[i], DeliveriesOf(c, es, i), c.maxAttempts;
      var d, n := ds[|ds| - 1], |ds|;
      && r.attempts == n
      && (r.state == Delivered <==> d.receipt.delivered)
      && (r.state == DeadLetter <==> !d.receipt.delivered && (!d.receipt.retryable || n >= m))
      && (r.state == Retrying <==>
            !d.receipt.delivered && d.receipt.retryable && n < m && LeaseOf(c, es, i) == None)
      && (r.state == Retrying ==> r.availableAt == Some(d.at + Backoff(n)))
  {
    hide RunOf, IsRun, DeliveriesOf, LeaseOf, Timely, Backoff;
    RowsFollowDeliveries(c, es);
    assert RowTells(RunOf(c, es).rows[i], DeliveriesOf(c, es, i), LeaseOf(c, es, i), c.maxAttempts);
  }

  /** A row all of whose deliveries fail and may be retried is given up at the last attempt allowed and not before. */
  lemma RetriedToTheEnd(c: Config, es: seq<Event>, i: nat)
    requires IsRun(c, es) && Timely(c) && c.maxAttempts >= 1
    requires i < |RunOf(c, es).rows| && !IsInternal(RunOf(c, es).rows[i].action)
    requires forall d :: d in DeliveriesOf(c, es, i) ==> !d.receipt.delivered && d.receipt.retryable
    ensures |DeliveriesOf(c, es, i)| <= c.maxAttempts
    ensures RunOf(c, es).rows[i].state == DeadLetter <==> |DeliveriesOf(c, es, i)| == c.maxAttempts
    ensures RunOf(c, es).rows[i].state != Delivered
  {
    hide RunOf, IsRun, DeliveriesOf, LeaseOf, Timely, Backoff;
    RowsFollowDeliveries(c, es);
    RetryArithmetic(c, es, i);
    assert RowTells(RunOf(c, es).rows[i], DeliveriesOf(c, es, i), LeaseOf(c, es, i), c.maxAttempts);
    var ds := DeliveriesOf(c, es, i);
    assert ds != [] ==> ds[|ds| - 1] in ds;
  }

  /** The step can claim the row now. */
  ghost predicate CanClaim(c: Config, s: State, w: string, i: nat, now: int) {
    Possible(c, s, Claim(w, [i], "token", now))
  }

  /** An idle worker can claim a row of a configured connector exactly when no claim of the last two minutes stands,
      and the row was never delivered or waits for another try whose backoff is over, or a claim has run out. */
  lemma ClaimableExactly(c: Config, es: seq<Event>, w: string, i: nat, now: int)
    requires IsRun(c, es) && Timely(c) && c.maxAttempts >= 1 && c.batch >= 1
    requires w !in RunOf(c, es).workers
    requires i < |RunOf(c, es).rows| && IsConnector(RunOf(c, es).rows[i].action)
    requires RunOf(c, es).rows[i].action in c.configured
    ensures
      var ds, lease := DeliveriesOf(c, es, i), LeaseOf(c, es, i);
      CanClaim(c, RunOf(c, es), w, i, now) <==>
        if lease.Some? then now > lease.value.at + 120
        else ds == [] || (TriesAgain(ds[|ds| - 1], |ds|, c.maxAttempts) && now >= ds[|ds| - 1].at + Backoff(|ds|))
  {
    hide RunOf, IsRun, DeliveriesOf, LeaseOf, Timely, Backoff;
    RowsFollowDeliveries(c, es);
    assert RowTells(RunOf(c, es).rows[i], DeliveriesOf(c, es, i), LeaseOf(c, es, i), c.maxAttempts);
    CanClaimOne(c, RunOf(c, es), w, i, now);
  }

  lemma CanClaimOne(c: Config, s: State, w: string, i: nat, now: int)
    requires w !in s.workers && i < |s.rows| && c.batch >= 1
    ensures CanClaim(c, s, w, i, now) <==> Claimable(c, s.rows[i], now)
  {
    hide Claimable;
    assert [i][0] == i;
  }

  // ---------------------------------------------------------------- internal rows

  /** When the internal worker processed the row. */
  function ProcessedAt(es: seq<Event>, i: nat): Option<int> {
    if es == [] then None else
      var e := es[|es| - 1];
      if e.Internal? && i in e.chosen then Some(e.now) else ProcessedAt(es[..|es| - 1], i)
  }

  predicate InternalTells(r: Row, at: Option<int>) {
    && r.leaseToken == None && r.leaseUntil == None && r.lastError == None && r.availableAt == None
    && if at == None then r.state == Queued && r.attempts == 0 && r.result == None && r.deliveredAt == None
       else
         && r.state == Delivered && r.attempts == 1 && r.deliveredAt == at
         && r.result == Some(if r.action == CaseCreate then "case" else "report")
  }

  ghost predicate AllDispatched(s: State) {
    forall i: nat :: i < |s.rows| ==> s.rows[i].run in s.dispatched
  }

  lemma StaysDispatched(c: Config, s: State, e: Event)
    requires AllDispatched(s) && Possible(c, s, e)
    ensures AllDispatched(Apply(c, s, e))
  {
    hide CreatedBy, Finish;
  }

  lemma InternalStep(c: Config, s: State, e: Event, i: nat, at: Option<int>)
    requires Separate(c, s) && AllDispatched(s) && Possible(c, s, e)
    requires i < |s.rows| && IsInternal(s.rows[i].action) && InternalTells(s.rows[i], at)
    ensures i < |Apply(c, s, e).rows|
    ensures InternalTells(Apply(c, s, e).rows[i], if e.Internal? && i in e.chosen then Some(e.now) else at)
  {
    hide CreatedBy, CreatedFine, HoldsOwned, WriteBack, Finish;
    OriginsStay(c, s, e);
    if Apply(c, s, e).rows[i] != s.rows[i] {
      StepOfOwner(c, s, e, i);
    }
  }

  lemma NewInternalTells(c: Config, s: State, e: Event, i: nat)
    requires Possible(c, s, e) && |s.rows| <= i < |Apply(c, s, e).rows|
    ensures InternalTells(Apply(c, s, e).rows[i], None) && !(e.Internal? && i in e.chosen)
  {
    hide CreatedBy, Finish;
  }

  lemma {:induction false} NeverProcessed(c: Config, es: seq<Event>, i: nat)
    requires IsRun(c, es) && i >= |RunOf(c, es).rows|
    ensures ProcessedAt(es, i) == None
  {
    hide Apply;
    if es != [] {
      var front, e := es[..|es| - 1], es[|es| - 1];
      OriginsStay(c, RunOf(c, front), e);
      NeverProcessed(c, front, i);
    }
  }

  /** In every run, with no bound on time, an internal row waits as it was inserted until the internal worker takes
      it, and is then delivered at that time, in one attempt, with what its action makes; it is never leased, retried
      or given up. */
  lemma {:induction false} InternalRowsFollow(c: Config, es: seq<Event>)
    requires IsRun(c, es)
    ensures AllDispatched(RunOf(c, es))
    ensures
      var s := RunOf(c, es);
      forall i: nat :: i < |s.rows| && IsInternal(s.rows[i].action) ==> InternalTells(s.rows[i], ProcessedAt(es, i))
  {
    hide InternalTells, Possible, Apply, AllDispatched, Separate;
    if es == [] {
      NothingDispatched();
    } else {
      var front, e := es[..|es| - 1], es[|es| - 1];
      var s, t := RunOf(c, front), RunOf(c, es);
      InternalRowsFollow(c, front);
      WorkerSeparation.RunKeeps(c, front);
      StaysDispatched(c, s, e);
      OriginsStay(c, s, e);
      forall i: nat | i < |t.rows| && IsInternal(t.rows[i].action)
        ensures InternalTells(t.rows[i], ProcessedAt(es, i))
      {
        if i < |s.rows| {
          InternalStep(c, s, e, i, ProcessedAt(front, i));
        } else {
          NeverProcessed(c, front, i);
          NewInternalTells(c, s, e, i);
        }
      }
    }
  }

  lemma NothingDispatched()
    ensures AllDispatched(Empty())
  {
  }
}
