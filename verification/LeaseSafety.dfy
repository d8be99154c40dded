/** What the lease guarantees over every interleaving of claims, deliveries, crashes and internal runs, and the
    exact bound under which it does. */
module LeaseSafety {
  import opened Options
  import opened OutboxDelivery

  // ---------------------------------------------------------------- the invariant

  /** The delays between consecutive attempts were kept. */
  ghost predicate Spaced(log: seq<int>) {
    forall i :: 0 < i < |log| ==> log[i - 1] + RetryDelay(i) <= log[i]
  }

  predicate Closed(r: Row) {
    r.state.Delivered? || r.state.DeadLetter?
  }

  ghost predicate ConnectorRowFine(r: Row, log: seq<int>, maxAttempts: nat, clock: int) {
    && r.attempts == |log| && Spaced(log)
    && (log != [] ==> log[|log| - 1] <= clock)
    && (r.state.Queued? ==> log == [])
    && (r.state.Retrying? ==>
          1 <= |log| < maxAttempts && r.availableAt == Some(log[|log| - 1] + RetryDelay(|log|)))
    && (r.state.Delivering? ==>
          |log| < maxAttempts && (log != [] ==> log[|log| - 1] + RetryDelay(|log|) <= clock))
    && (Closed(r) ==> 1 <= |log| <= maxAttempts)
  }

  ghost predicate InternalRowFine(r: Row, log: seq<int>) {
    log == [] && (r.state.Queued? || Closed(r)) && r.attempts == (if r.state.Delivered? then 1 else 0)
  }

  ghost predicate RowFine(r: Row, log: seq<int>, maxAttempts: nat, clock: int) {
    if IsInternal(r.action) then InternalRowFine(r, log) else ConnectorRowFine(r, log, maxAttempts, clock)
  }

  ghost predicate RowsFine(c: Config, s: State, clock: int) {
    |s.logs| == |s.rows| && forall i :: 0 <= i < |s.rows| ==> RowFine(s.rows[i], s.logs[i], c.maxAttempts, clock)
  }

  /** While its lease lasts, what a worker holds is what the table holds. */
  ghost predicate HeldFine(c: Config, rows: seq<Row>, h: Held, claimedAt: int, live: bool) {
    && h.row < |rows| && Owned(c, rows[h.row].action)
    && (live ==>
          rows[h.row] == h.copy && h.copy.state.Delivering? && h.copy.leaseUntil == Some(claimedAt + LEASE_SECONDS))
  }

  predicate LeaseLive(k: Worker, clock: int) {
    clock <= k.claimedAt + LEASE_SECONDS
  }

  ghost predicate DistinctHeld(held: seq<Held>) {
    forall i, j :: 0 <= i < j < |held| ==> held[i].row != held[j].row
  }

  ghost predicate WorkerFine(c: Config, rows: seq<Row>, k: Worker, clock: int) {
    && k.claimedAt <= k.lastAt <= clock
    && k.lastAt + |k.held| * c.longest <= k.claimedAt + c.batch * c.longest
    && DistinctHeld(k.held)
    && forall i :: 0 <= i < |k.held| ==> HeldFine(c, rows, k.held[i], k.claimedAt, LeaseLive(k, clock))
  }

  ghost predicate Apart(k: Worker, l: Worker) {
    forall i, j :: 0 <= i < |k.held| && 0 <= j < |l.held| ==> k.held[i].row != l.held[j].row
  }

  ghost predicate WorkersFine(c: Config, s: State, clock: int) {
    forall w :: w in s.workers ==> WorkerFine(c, s.rows, s.workers[w], clock)
  }

  /** No two workers with running leases hold a common row. */
  ghost predicate Exclusive(s: State, clock: int) {
    forall w, v :: w in s.workers && v in s.workers && w != v && BothLive(s, w, v, clock) ==>
      Apart(s.workers[w], s.workers[v])
  }

  predicate BothLive(s: State, w: string, v: string, clock: int)
    requires w in s.workers && v in s.workers
  {
    LeaseLive(s.workers[w], clock) && LeaseLive(s.workers[v], clock)
  }

  ghost predicate Inv(c: Config, s: State, clock: int) {
    RowsFine(c, s, clock) && WorkersFine(c, s, clock) && Exclusive(s, clock)
  }

  /** A batch is delivered within one lease. */
  predicate Timely(c: Config) {
    c.batch * c.longest <= LEASE_SECONDS
  }

  // ---------------------------------------------------------------- one row, one worker

  lemma RowLater(r: Row, log: seq<int>, maxAttempts: nat, clock: int, now: int)
    requires RowFine(r, log, maxAttempts, clock) && clock <= now
    ensures RowFine(r, log, maxAttempts, now)
  {
  }

  lemma WorkerLater(c: Config, rows: seq<Row>, k: Worker, clock: int, after: seq<Row>, now: int)
    requires WorkerFine(c, rows, k, clock) && clock <= now && |rows| <= |after|
    requires forall i :: 0 <= i < |rows| ==> after[i].action == rows[i].action
    requires LeaseLive(k, now) ==> forall i :: 0 <= i < |k.held| ==> after[k.held[i].row] == rows[k.held[i].row]
    ensures WorkerFine(c, after, k, now)
  {
    forall i | 0 <= i < |k.held| ensures HeldFine(c, after, k.held[i], k.claimedAt, LeaseLive(k, now)) {
      assert HeldFine(c, rows, k.held[i], k.claimedAt, LeaseLive(k, clock));
    }
  }

  lemma ClaimedRowFine(c: Config, r: Row, log: seq<int>, clock: int, token: string, now: int)
    requires RowFine(r, log, c.maxAttempts, clock) && clock <= now && Claimable(c, r, now) && c.maxAttempts >= 1
    ensures RowFine(ClaimRow(r, token, now), log, c.maxAttempts, now)
  {
  }

  lemma FinishedRowFine(c: Config, r: Row, log: seq<int>, clock: int, receipt: Receipt, now: int)
    requires RowFine(r, log, c.maxAttempts, clock) && clock <= now && r.state.Delivering? && Owned(c, r.action)
    ensures RowFine(Finish(r, receipt, now, c.maxAttempts), log + [now], c.maxAttempts, now)
  {
    hide RetryDelay;
    var longer := log + [now];
    forall i | 0 < i < |longer| ensures longer[i - 1] + RetryDelay(i) <= longer[i] {
      assert i < |log| ==> longer[i] == log[i];
      assert longer[i - 1] == log[i - 1];
    }
  }

  lemma WriteBackFresh(loaded: Row, final: Row)
    requires final.action == loaded.action && final.run == loaded.run
    ensures WriteBack(loaded, loaded, final) == final
  {
  }

  /** The delivery that is due happens before the lease runs out, on the row as it was loaded. */
  lemma DueIsFresh(c: Config, s: State, clock: int, w: string, now: int)
    requires Inv(c, s, clock) && Timely(c) && clock <= now
    requires w in s.workers && s.workers[w].held != [] && now - s.workers[w].lastAt <= c.longest
    ensures
      var k := s.workers[w];
      LeaseLive(k, now) && k.held[0].row < |s.rows| && s.rows[k.held[0].row] == k.held[0].copy
      && k.held[0].copy.state.Delivering? && Owned(c, k.held[0].copy.action)
  {
    var k := s.workers[w];
    assert WorkerFine(c, s.rows, k, clock);
    assert |k.held| * c.longest >= c.longest by {
      MulAtLeastOne(|k.held|, c.longest);
    }
    assert HeldFine(c, s.rows, k.held[0], k.claimedAt, LeaseLive(k, clock));
  }

  lemma MulAtLeastOne(n: nat, x: nat)
    requires n >= 1
    ensures n * x >= x && (n - 1) * x == n * x - x
  {
  }

  // ---------------------------------------------------------------- every step keeps the invariant

  lemma ClaimRowsFine(c: Config, s: State, clock: int, e: Event)
    requires RowsFine(c, s, clock) && c.maxAttempts >= 1 && e.Claim? && clock <= e.now && Possible(c, s, e)
    ensures RowsFine(c, Apply(c, s, e), e.now)
  {
    hide RowFine, Claimable;
    var after := Apply(c, s, e);
    forall i | 0 <= i < |after.rows| ensures RowFine(after.rows[i], after.logs[i], c.maxAttempts, e.now) {
      if i in e.chosen {
        ClaimedRowFine(c, s.rows[i], s.logs[i], clock, e.token, e.now);
      } else {
        RowLater(s.rows[i], s.logs[i], c.maxAttempts, clock, e.now);
      }
    }
  }

  /** A row that a running lease covers cannot be claimed or processed by anyone else. */
  lemma CoveredNotFree(c: Config, rows: seq<Row>, k: Worker, clock: int, now: int, i: nat)
    requires WorkerFine(c, rows, k, clock) && clock <= now && LeaseLive(k, now) && i < |k.held|
    ensures k.held[i].row < |rows| && !Claimable(c, rows[k.held[i].row], now) && !Waiting(rows[k.held[i].row], now)
  {
    assert HeldFine(c, rows, k.held[i], k.claimedAt, LeaseLive(k, clock));
  }

  lemma ClaimOther(c: Config, s: State, clock: int, e: Event, v: string)
    requires WorkersFine(c, s, clock) && e.Claim? && clock <= e.now && Possible(c, s, e)
    requires v in s.workers && v != e.worker
    ensures WorkerFine(c, Apply(c, s, e).rows, s.workers[v], e.now)
    ensures LeaseLive(s.workers[v], e.now) ==> Apart(s.workers[v], Apply(c, s, e).workers[e.worker])
  {
    hide Claimable;
    var k, rows := s.workers[v], ClaimRows(s.rows, e.chosen, e.token, e.now);
    if LeaseLive(k, e.now) {
      forall i | 0 <= i < |k.held| ensures k.held[i].row !in e.chosen {
        CoveredNotFree(c, s.rows, k, clock, e.now, i);
      }
      forall i | 0 <= i < |k.held| ensures rows[k.held[i].row] == s.rows[k.held[i].row] {
        CoveredNotFree(c, s.rows, k, clock, e.now, i);
      }
    }
    WorkerLater(c, s.rows, k, clock, rows, e.now);
  }

  lemma ClaimSelf(c: Config, s: State, e: Event)
    requires e.Claim? && Possible(c, s, e)
    ensures WorkerFine(c, Apply(c, s, e).rows, Apply(c, s, e).workers[e.worker], e.now)
  {
    MulMonotone(|e.chosen|, c.batch, c.longest);
  }

  lemma MulMonotone(m: nat, n: nat, x: nat)
    requires m <= n
    ensures m * x <= n * x
  {
  }

  lemma ClaimKeeps(c: Config, s: State, clock: int, e: Event)
    requires Inv(c, s, clock) && c.maxAttempts >= 1 && e.Claim? && clock <= e.now && Possible(c, s, e)
    ensures Inv(c, Apply(c, s, e), e.now)
  {
    hide RowsFine, WorkerFine, Possible, ClaimRows, Apart;
    ClaimRowsFine(c, s, clock, e);
    ClaimSelf(c, s, e);
    forall v | v in s.workers && v != e.worker
      ensures WorkerFine(c, Apply(c, s, e).rows, s.workers[v], e.now)
      ensures LeaseLive(s.workers[v], e.now) ==> Apart(s.workers[v], Apply(c, s, e).workers[e.worker])
    {
      ClaimOther(c, s, clock, e, v);
    }
    ApartBothWays();
  }

  lemma ApartBothWays()
    ensures forall k, l :: Apart(k, l) ==> Apart(l, k)
  {
  }

  /** A possible delivery writes exactly what its receipt makes of the current row. */
  lemma DeliverEffect(c: Config, s: State, clock: int, e: Event)
    requires Inv(c, s, clock) && Timely(c) && e.Deliver? && clock <= e.now && Possible(c, s, e)
    ensures
      var k := s.workers[e.worker];
      var item := k.held[0];
      var after := Apply(c, s, e);
      && LeaseLive(k, e.now) && item.row < |s.rows| && s.rows[item.row] == item.copy
      && item.copy.state.Delivering? && Owned(c, item.copy.action)
      && after.rows == s.rows[item.row := Finish(s.rows[item.row], e.receipt, e.now, c.maxAttempts)]
      && after.logs == s.logs[item.row := s.logs[item.row] + [e.now]]
      && after.workers == s.workers[e.worker := k.(held := k.held[1..], lastAt := e.now)]
  {
    hide WorkerFine, RowFine, WriteBack, Finish;
    DueIsFresh(c, s, clock, e.worker, e.now);
    var item := s.workers[e.worker].held[0];
    FinishKeepsIdentity(item.copy, e.receipt, e.now, c.maxAttempts);
    WriteBackFresh(item.copy, Finish(item.copy, e.receipt, e.now, c.maxAttempts));
  }

  lemma FinishKeepsIdentity(r: Row, receipt: Receipt, now: int, maxAttempts: nat)
    ensures Finish(r, receipt, now, maxAttempts).action == r.action && Finish(r, receipt, now, maxAttempts).run == r.run
  {
  }

  lemma DeliverOther(c: Config, s: State, clock: int, e: Event, v: string)
    requires Inv(c, s, clock) && Timely(c) && e.Deliver? && clock <= e.now && Possible(c, s, e)
    requires v in s.workers && v != e.worker
    ensures WorkerFine(c, Apply(c, s, e).rows, s.workers[v], e.now)
  {
    hide Finish, WriteBack, RowsFine, WorkerFine;
    DeliverEffect(c, s, clock, e);
    var k, l := s.workers[e.worker], s.workers[v];
    FinishKeepsIdentity(s.rows[k.held[0].row], e.receipt, e.now, c.maxAttempts);
    assert WorkerFine(c, s.rows, l, clock);
    HeldInTable(c, s.rows, l, clock);
    if LeaseLive(l, e.now) {
      assert BothLive(s, e.worker, v, clock);
      assert Apart(k, l);
      assert forall i :: 0 <= i < |l.held| ==> k.held[0].row != l.held[i].row;
    }
    WorkerLater(c, s.rows, l, clock, Apply(c, s, e).rows, e.now);
  }

  lemma HeldInTable(c: Config, rows: seq<Row>, k: Worker, clock: int)
    requires WorkerFine(c, rows, k, clock)
    ensures forall i :: 0 <= i < |k.held| ==> k.held[i].row < |rows|
  {
    assert forall i :: 0 <= i < |k.held| ==> HeldFine(c, rows, k.held[i], k.claimedAt, LeaseLive(k, clock));
  }

  /** After its delivery a worker goes on with the rest of its batch. */
  lemma RestFine(c: Config, rows: seq<Row>, k: Worker, clock: int, row: Row, now: int)
    requires WorkerFine(c, rows, k, clock) && clock <= now && k.held != [] && now - k.lastAt <= c.longest
    requires k.held[0].row < |rows| && row.action == rows[k.held[0].row].action && LeaseLive(k, now)
    ensures WorkerFine(c, rows[k.held[0].row := row], k.(held := k.held[1..], lastAt := now), now)
  {
    MulAtLeastOne(|k.held|, c.longest);
    var l, after := k.(held := k.held[1..], lastAt := now), rows[k.held[0].row := row];
    forall i | 0 <= i < |l.held| ensures HeldFine(c, after, l.held[i], l.claimedAt, LeaseLive(l, now)) {
      assert l.held[i] == k.held[i + 1];
      assert HeldFine(c, rows, k.held[i + 1], k.claimedAt, LeaseLive(k, clock));
    }
  }

  lemma DeliverRowsFine(c: Config, s: State, clock: int, e: Event)
    requires Inv(c, s, clock) && Timely(c) && e.Deliver? && clock <= e.now && Possible(c, s, e)
    ensures RowsFine(c, Apply(c, s, e), e.now)
  {
    hide Finish, WriteBack, WorkerFine, RowFine;
    DeliverEffect(c, s, clock, e);
    var item, after := s.workers[e.worker].held[0], Apply(c, s, e);
    FinishKeepsIdentity(item.copy, e.receipt, e.now, c.maxAttempts);
    FinishedRowFine(c, item.copy, s.logs[item.row], clock, e.receipt, e.now);
    forall i | 0 <= i < |after.rows| ensures RowFine(after.rows[i], after.logs[i], c.maxAttempts, e.now) {
      if i != item.row {
        RowLater(s.rows[i], s.logs[i], c.maxAttempts, clock, e.now);
      }
    }
  }

  lemma DeliverKeeps(c: Config, s: State, clock: int, e: Event)
    requires Inv(c, s, clock) && Timely(c) && e.Deliver? && clock <= e.now && Possible(c, s, e)
    ensures Inv(c, Apply(c, s, e), e.now)
  {
    hide RowsFine, WorkerFine, Apart, Finish, WriteBack;
    DeliverEffect(c, s, clock, e);
    DeliverRowsFine(c, s, clock, e);
    var k, after := s.workers[e.worker], Apply(c, s, e);
    FinishKeepsIdentity(s.rows[k.held[0].row], e.receipt, e.now, c.maxAttempts);
    RestFine(c, s.rows, k, clock, Finish(s.rows[k.held[0].row], e.receipt, e.now, c.maxAttempts), e.now);
    forall v | v in s.workers && v != e.worker ensures WorkerFine(c, after.rows, s.workers[v], e.now) {
      DeliverOther(c, s, clock, e, v);
    }
    forall l | Apart(k, l) ensures Apart(after.workers[e.worker], l) && Apart(l, after.workers[e.worker]) {
      ApartRest(k, l, e.now);
    }
    ApartBothWays();
  }

  lemma ApartRest(k: Worker, l: Worker, now: int)
    requires Apart(k, l) && k.held != []
    ensures Apart(k.(held := k.held[1..], lastAt := now), l) && Apart(l, k.(held := k.held[1..], lastAt := now))
  {
  }

  lemma CrashKeeps(c: Config, s: State, clock: int, e: Event)
    requires Inv(c, s, clock) && e.Crash? && clock <= e.now
    ensures Inv(c, Apply(c, s, e), e.now)
  {
    hide RowFine, WorkerFine;
    forall i | 0 <= i < |s.rows| ensures RowFine(s.rows[i], s.logs[i], c.maxAttempts, e.now) {
      RowLater(s.rows[i], s.logs[i], c.maxAttempts, clock, e.now);
    }
    forall v | v in s.workers ensures WorkerFine(c, s.rows, s.workers[v], e.now) {
      WorkerLater(c, s.rows, s.workers[v], clock, s.rows, e.now);
    }
    IdleFine(c, s.rows, e.now);
  }

  lemma IdleFine(c: Config, rows: seq<Row>, now: int)
    ensures WorkerFine(c, rows, Worker([], now, now), now)
    ensures forall k :: Apart(Worker([], now, now), k) && Apart(k, Worker([], now, now))
  {
    MulMonotone(0, c.batch, c.longest);
  }

  lemma DispatchRowsFine(c: Config, s: State, clock: int, e: Event)
    requires RowsFine(c, s, clock) && e.Dispatch? && clock <= e.now
    ensures RowsFine(c, Apply(c, s, e), e.now)
  {
    hide RowFine;
    var after := Apply(c, s, e);
    forall i | 0 <= i < |after.rows| ensures RowFine(after.rows[i], after.logs[i], c.maxAttempts, e.now) {
      if i < |s.rows| {
        RowLater(s.rows[i], s.logs[i], c.maxAttempts, clock, e.now);
      } else {
        assert after.logs[i] == [];
        NewRowFine(after.rows[i], c.maxAttempts, e.now);
      }
    }
  }

  lemma DispatchKeeps(c: Config, s: State, clock: int, e: Event)
    requires Inv(c, s, clock) && e.Dispatch? && clock <= e.now
    ensures Inv(c, Apply(c, s, e), e.now)
  {
    hide RowsFine, WorkerFine, Apart;
    var after := Apply(c, s, e);
    DispatchRowsFine(c, s, clock, e);
    forall v | v in s.workers ensures WorkerFine(c, after.rows, s.workers[v], e.now) {
      HeldInTable(c, s.rows, s.workers[v], clock);
      WorkerLater(c, s.rows, s.workers[v], clock, after.rows, e.now);
    }
    assert WorkersFine(c, after, e.now);
    assert Exclusive(after, e.now) by {
      assert forall w, v :: w in s.workers && v in s.workers && BothLive(after, w, v, e.now) ==>
          BothLive(s, w, v, clock);
    }
  }

  lemma NewRowFine(r: Row, maxAttempts: nat, now: int)
    requires r.state.Queued? && r.attempts == 0
    ensures RowFine(r, [], maxAttempts, now)
  {
  }

  lemma InternalRowsFine(c: Config, s: State, clock: int, e: Event)
    requires RowsFine(c, s, clock) && e.Internal? && clock <= e.now && Possible(c, s, e)
    ensures RowsFine(c, Apply(c, s, e), e.now)
  {
    hide RowFine;
    var after := Apply(c, s, e);
    forall i | 0 <= i < |after.rows| ensures RowFine(after.rows[i], after.logs[i], c.maxAttempts, e.now) {
      if i in e.chosen {
        ProcessedRowFine(s.rows[i], s.logs[i], c.maxAttempts, clock, s.rows[i].run in s.dispatched, e.now);
      } else {
        RowLater(s.rows[i], s.logs[i], c.maxAttempts, clock, e.now);
      }
    }
  }

  lemma ProcessedRowFine(r: Row, log: seq<int>, maxAttempts: nat, clock: int, dispatched: bool, now: int)
    requires RowFine(r, log, maxAttempts, clock) && IsInternal(r.action) && !Closed(r)
    ensures RowFine(ProcessRow(r, dispatched, now), log, maxAttempts, now)
  {
  }

  lemma InternalKeeps(c: Config, s: State, clock: int, e: Event)
    requires Inv(c, s, clock) && e.Internal? && clock <= e.now && Possible(c, s, e)
    ensures Inv(c, Apply(c, s, e), e.now)
  {
    hide RowsFine, WorkerFine, Apart, ProcessRow;
    InternalRowsFine(c, s, clock, e);
    var after := Apply(c, s, e);
    ProcessKeepsAction();
    forall v | v in s.workers ensures WorkerFine(c, after.rows, s.workers[v], e.now) {
      var k := s.workers[v];
      HeldInTable(c, s.rows, k, clock);
      if LeaseLive(k, e.now) {
        forall i | 0 <= i < |k.held| ensures k.held[i].row !in e.chosen {
          CoveredNotFree(c, s.rows, k, clock, e.now, i);
        }
      }
      WorkerLater(c, s.rows, k, clock, after.rows, e.now);
    }
  }

  lemma ProcessKeepsAction()
    ensures forall r, dispatched, now :: ProcessRow(r, dispatched, now).action == r.action
  {
  }

  /** Every possible step of a timely configuration keeps the invariant. */
  lemma StepKeeps(c: Config, s: State, clock: int, e: Event)
    requires Inv(c, s, clock) && Timely(c) && c.maxAttempts >= 1 && clock <= e.now && Possible(c, s, e)
    ensures Inv(c, Apply(c, s, e), e.now)
  {
    hide Inv, Apply, Possible;
    match e
    case Dispatch(_, _, _) => DispatchKeeps(c, s, clock, e);
    case Claim(_, _, _, _) => ClaimKeeps(c, s, clock, e);
    case Deliver(_, _, _) => DeliverKeeps(c, s, clock, e);
    case Crash(_, _) => CrashKeeps(c, s, clock, e);
    case Internal(_, _) => InternalKeeps(c, s, clock, e);
  }

  lemma {:induction false} RunKeeps(c: Config, es: seq<Event>)
    requires IsRun(c, es) && Timely(c) && c.maxAttempts >= 1
    ensures Inv(c, RunOf(c, es), ClockAfter(es))
  {
    if es != [] {
      RunKeeps(c, es[..|es| - 1]);
      StepKeeps(c, RunOf(c, es[..|es| - 1]), ClockAfter(es[..|es| - 1]), es[|es| - 1]);
    }
  }

  // ---------------------------------------------------------------- what follows for every timely run

  /** The worker's next write comes before its lease runs out and finds the row as it was loaded. */
  ghost predicate FreshWrite(s: State, w: string, now: int) {
    && w in s.workers && s.workers[w].held != []
    && LeaseLive(s.workers[w], now)
    && var item := s.workers[w].held[0]; item.row < |s.rows| && s.rows[item.row] == item.copy
  }

  /** Each write lands on the row version it was loaded from. */
  lemma WritesAreFresh(c: Config, es: seq<Event>, i: nat)
    requires IsRun(c, es) && Timely(c) && c.maxAttempts >= 1 && i < |es| && es[i].Deliver?
    ensures FreshWrite(RunOf(c, es[..i]), es[i].worker, es[i].now)
  {
    IsRunPrefix(c, es, i);
    RunKeeps(c, es[..i]);
    DueIsFresh(c, RunOf(c, es[..i]), ClockAfter(es[..i]), es[i].worker, es[i].now);
  }

  /** At no time do two workers with running leases hold the same row. */
  lemma LeasesAreExclusive(c: Config, es: seq<Event>, w: string, v: string)
    requires IsRun(c, es) && Timely(c) && c.maxAttempts >= 1
    requires w in RunOf(c, es).workers && v in RunOf(c, es).workers && w != v
    requires BothLive(RunOf(c, es), w, v, ClockAfter(es))
    ensures Apart(RunOf(c, es).workers[w], RunOf(c, es).workers[v])
  {
    RunKeeps(c, es);
  }

  /** A step changes only rows that are still open. */
  lemma ClosedRowStays(c: Config, s: State, clock: int, e: Event, i: nat)
    requires Inv(c, s, clock) && Timely(c) && clock <= e.now && Possible(c, s, e)
    requires i < |s.rows| && Closed(s.rows[i])
    ensures i < |Apply(c, s, e).rows| && Apply(c, s, e).rows[i] == s.rows[i]
  {
    hide Inv, WriteBack, Finish, CreatedBy;
    if e.Deliver? {
      DeliverEffect(c, s, clock, e);
    }
  }

  /** Delivered and dead-lettered rows never change again. */
  ghost predicate ClosedForGood(c: Config, es: seq<Event>) {
    forall i, j :: 0 <= i < j <= |es| ==> ClosedKept(RunOf(c, es[..i]), RunOf(c, es[..j]))
  }

  ghost predicate ClosedKept(s: State, t: State) {
    forall x :: 0 <= x < |s.rows| && Closed(s.rows[x]) ==> x < |t.rows| && t.rows[x] == s.rows[x]
  }

  lemma {:induction false} ClosedKeptUntil(c: Config, es: seq<Event>, i: nat, j: nat)
    requires IsRun(c, es) && Timely(c) && c.maxAttempts >= 1 && i <= j <= |es|
    ensures ClosedKept(RunOf(c, es[..i]), RunOf(c, es[..j]))
    decreases j
  {
    hide Inv, Possible, Apply, ClosedKept;
    if i == j {
      SameClosedKept(RunOf(c, es[..i]));
    } else {
      ClosedKeptUntil(c, es, i, j - 1);
      IsRunPrefix(c, es, j - 1);
      RunKeeps(c, es[..j - 1]);
      var s := RunOf(c, es[..j - 1]);
      assert es[..j][..j - 1] == es[..j - 1];
      assert RunOf(c, es[..j]) == Apply(c, s, es[j - 1]);
      StepKeepsClosed(c, s, ClockAfter(es[..j - 1]), es[j - 1]);
      ClosedKeptOn(RunOf(c, es[..i]), s, RunOf(c, es[..j]));
    }
  }

  lemma SameClosedKept(s: State)
    ensures ClosedKept(s, s)
  {
  }

  lemma StepKeepsClosed(c: Config, s: State, clock: int, e: Event)
    requires Inv(c, s, clock) && Timely(c) && clock <= e.now && Possible(c, s, e)
    ensures ClosedKept(s, Apply(c, s, e))
  {
    hide Inv, Possible, Apply;
    forall x | 0 <= x < |s.rows| && Closed(s.rows[x])
      ensures x < |Apply(c, s, e).rows| && Apply(c, s, e).rows[x] == s.rows[x]
    {
      ClosedRowStays(c, s, clock, e, x);
    }
  }

  lemma ClosedKeptOn(s: State, t: State, u: State)
    requires ClosedKept(s, t) && ClosedKept(t, u)
    ensures ClosedKept(s, u)
  {
  }

  lemma TimelyKeepsClosed(c: Config, es: seq<Event>)
    requires IsRun(c, es) && Timely(c) && c.maxAttempts >= 1
    ensures ClosedForGood(c, es)
  {
    forall i, j | 0 <= i < j <= |es| ensures ClosedKept(RunOf(c, es[..i]), RunOf(c, es[..j])) {
      ClosedKeptUntil(c, es, i, j);
    }
  }

  // ---------------------------------------------------------------- retry arithmetic

  /** The sum of the delays after the first `n` attempts. */
  function DelaySum(n: nat): nat {
    if n == 0 then 0 else DelaySum(n - 1) + RetryDelay(n)
  }

  lemma {:induction false} DelaySumClosedForm(n: nat)
    ensures n <= 6 ==> DelaySum(n) == 60 * (Pow2(n) - 1)
    ensures n >= 6 ==> DelaySum(n) == 3780 + 3600 * (n - 6)
  {
    assert Pow2(7) == 128 by {
      assert Pow2(3) == 8;
      assert Pow2(5) == 4 * Pow2(3);
      assert Pow2(7) == 4 * Pow2(5);
    }
    if n > 0 {
      DelaySumClosedForm(n - 1);
      if n <= 6 {
        assert n == 1 || n == 2 || n == 3 || n == 4 || n == 5 || n == 6;
      }
    }
  }

  lemma {:induction false} SpacedSpan(log: seq<int>, n: nat)
    requires Spaced(log) && n < |log|
    ensures log[n] - log[0] >= DelaySum(n)
  {
    hide RetryDelay;
    if n > 0 {
      SpacedSpan(log, n - 1);
    }
  }

  /** Attempts count the deliveries, stay within the maximum, and are spread out by the retry delays; a row that
      used up all of them spans at least the sum of the delays between them. */
  lemma RetryArithmetic(c: Config, es: seq<Event>, i: nat)
    requires IsRun(c, es) && Timely(c) && c.maxAttempts >= 1
    requires i < |RunOf(c, es).rows| && !IsInternal(RunOf(c, es).rows[i].action)
    ensures
      var s := RunOf(c, es);
      && |s.logs| == |s.rows|
      && var r, log := s.rows[i], s.logs[i];
      && r.attempts == |log| <= c.maxAttempts
      && (r.state.Queued? ==> r.attempts == 0)
      && (r.state.Retrying? ==> 1 <= r.attempts < c.maxAttempts)
      && (r.attempts == c.maxAttempts ==>
            Closed(r) && log[|log| - 1] - log[0] >= DelaySum(c.maxAttempts - 1))
  {
    hide RetryDelay, Spaced, WorkersFine, Exclusive;
    RunKeeps(c, es);
    var s := RunOf(c, es);
    assert RowFine(s.rows[i], s.logs[i], c.maxAttempts, ClockAfter(es));
    if s.rows[i].attempts == c.maxAttempts {
      SpacedSpan(s.logs[i], c.maxAttempts - 1);
    }
  }
}
