/** How often a row is tried, over every interleaving of both workers: no bound on time is needed for it either. */
module AttemptBounds {
  import opened OutboxDelivery
  import opened WorkerSeparation

  /** Attempts stay within the maximum, and the state of a row tells how far they have come. */
  predicate Bounded(r: Row, maxAttempts: nat) {
    && r.attempts <= maxAttempts
    && (r.state.Queued? ==> r.attempts == 0)
    && (r.state.Retrying? ==> 1 <= r.attempts < maxAttempts)
    && (r.state.Delivering? ==> r.attempts < maxAttempts)
  }

  ghost predicate RowsBounded(c: Config, rows: seq<Row>) {
    forall i :: 0 <= i < |rows| && !IsInternal(rows[i].action) ==> Bounded(rows[i], c.maxAttempts)
  }

  /** A copy was loaded while its row was being delivered, however stale it is by now. */
  predicate CopyBounded(h: Held, maxAttempts: nat) {
    h.copy.state.Delivering? && h.copy.attempts < maxAttempts
  }

  ghost predicate CopiesBounded(c: Config, k: Worker) {
    forall i :: 0 <= i < |k.held| ==> CopyBounded(k.held[i], c.maxAttempts)
  }

  ghost predicate AllBounded(c: Config, s: State) {
    RowsBounded(c, s.rows) && forall w :: w in s.workers ==> CopiesBounded(c, s.workers[w])
  }

  lemma ClaimedRowBounded(r: Row, maxAttempts: nat, token: string, now: int)
    requires maxAttempts >= 1 && Bounded(r, maxAttempts) && (Waiting(r, now) || Abandoned(r, now))
    ensures Bounded(ClaimRow(r, token, now), maxAttempts) && ClaimRow(r, token, now).attempts < maxAttempts
  {
  }

  /** Even a write that comes too late leaves the row within bounds. */
  lemma WrittenRowBounded(stored: Row, h: Held, receipt: Receipt, now: int, maxAttempts: nat)
    requires CopyBounded(h, maxAttempts)
    ensures Bounded(WriteBack(stored, h.copy, Finish(h.copy, receipt, now, maxAttempts)), maxAttempts)
  {
    hide RetryDelay;
  }

  lemma ClaimKeepsBounds(c: Config, s: State, e: Event)
    requires c.maxAttempts >= 1 && AllBounded(c, s) && e.Claim? && Possible(c, s, e)
    ensures AllBounded(c, Apply(c, s, e))
  {
    hide Bounded, Waiting, Abandoned, ClaimRow;
    var rows := Apply(c, s, e).rows;
    forall i | 0 <= i < |rows| && !IsInternal(rows[i].action) ensures Bounded(rows[i], c.maxAttempts) {
      ClaimedKeepsAction(s.rows[i], e.token, e.now);
      if i in e.chosen {
        ClaimedRowBounded(s.rows[i], c.maxAttempts, e.token, e.now);
      }
    }
    var k := Apply(c, s, e).workers[e.worker];
    forall i | 0 <= i < |k.held| ensures CopyBounded(k.held[i], c.maxAttempts) {
      assert e.chosen[i] in e.chosen;
      ClaimedKeepsAction(s.rows[e.chosen[i]], e.token, e.now);
      ClaimedRowBounded(s.rows[e.chosen[i]], c.maxAttempts, e.token, e.now);
    }
  }

  lemma ClaimedKeepsAction(r: Row, token: string, now: int)
    ensures ClaimRow(r, token, now).action == r.action && ClaimRow(r, token, now).state.Delivering?
  {
  }

  lemma DeliverKeepsBounds(c: Config, s: State, e: Event)
    requires AllBounded(c, s) && Separate(c, s) && e.Deliver? && Possible(c, s, e)
    ensures AllBounded(c, Apply(c, s, e))
  {
    hide Bounded, CopyBounded, WriteBack, Finish, CreatedFine;
    var k := s.workers[e.worker];
    assert CopiesBounded(c, k) && HoldsOwned(c, s.rows, k);
    WrittenRowBounded(s.rows[k.held[0].row], k.held[0], e.receipt, e.now, c.maxAttempts);
    assert forall i :: 0 <= i < |k.held| - 1 ==> k.held[1..][i] == k.held[i + 1];
  }

  lemma OtherStepKeepsBounds(c: Config, s: State, e: Event)
    requires AllBounded(c, s) && !e.Claim? && !e.Deliver? && Possible(c, s, e)
    ensures AllBounded(c, Apply(c, s, e))
  {
    hide CopyBounded, CreatedBy;
  }

  lemma {:induction false} RunKeepsBounds(c: Config, es: seq<Event>)
    requires c.maxAttempts >= 1 && IsRun(c, es)
    ensures AllBounded(c, RunOf(c, es))
  {
    hide AllBounded, Possible, Apply, Separate;
    if es == [] {
      NothingBounded(c);
    } else {
      var front, e := es[..|es| - 1], es[|es| - 1];
      RunKeepsBounds(c, front);
      RunKeeps(c, front);
      if e.Claim? {
        ClaimKeepsBounds(c, RunOf(c, front), e);
      } else if e.Deliver? {
        DeliverKeepsBounds(c, RunOf(c, front), e);
      } else {
        OtherStepKeepsBounds(c, RunOf(c, front), e);
      }
    }
  }

  lemma NothingBounded(c: Config)
    ensures AllBounded(c, Empty())
  {
  }

  /** In every run, timely or not, connector rows keep their attempts within the maximum: none while queued, at least
      one and less than the maximum while retrying, less than the maximum while delivering. */
  lemma AttemptsStayBounded(c: Config, es: seq<Event>, i: nat)
    requires c.maxAttempts >= 1 && IsRun(c, es)
    requires i < |RunOf(c, es).rows| && !IsInternal(RunOf(c, es).rows[i].action)
    ensures
      var r := RunOf(c, es).rows[i];
      && r.attempts <= c.maxAttempts
      && (r.state.Queued? ==> r.attempts == 0)
      && (r.state.Retrying? ==> 1 <= r.attempts < c.maxAttempts)
      && (r.state.Delivering? ==> r.attempts < c.maxAttempts)
  {
    hide IsRun, RunOf;
    RunKeepsBounds(c, es);
  }
}
