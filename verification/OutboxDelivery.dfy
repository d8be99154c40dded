/** Outbox delivery by concurrent workers that claim rows under a lease, keep local copies and write them back
    later (app/workers/connector_delivery.py), beside the internal worker that claims, processes and commits in
    one transaction (app/workers/internal_automation_runner.py, app/workers/internal_automation.py). */
module OutboxDelivery {
  import opened Options

  datatype Action =
    | SlackNotify | JiraIssueCreate | SiemPush
    | CaseCreate | ReportGenerate
    | EndpointCommandRequest
    | OtherAction(name: string)

  predicate IsConnector(a: Action) {
    a.SlackNotify? || a.JiraIssueCreate? || a.SiemPush?
  }

  predicate IsInternal(a: Action) {
    a.CaseCreate? || a.ReportGenerate?
  }

  datatype RowState = Queued | Retrying | Delivering | Delivered | DeadLetter

  datatype Row = Row(
    action: Action, run: string, state: RowState, attempts: nat, availableAt: Option<int>,
    leaseToken: Option<string>, leaseUntil: Option<int>, deliveredAt: Option<int>, lastError: Option<string>,
    result: Option<string>)

  datatype Receipt = Receipt(delivered: bool, retryable: bool, detail: string)

  /** A claimed row as the worker loaded it. */
  datatype Held = Held(row: nat, copy: Row)

  /** The rows still to deliver, the time of the claim, and the time of the claim or of the last write. */
  datatype Worker = Worker(held: seq<Held>, claimedAt: int, lastAt: int)

  /** Batch limit, longest time one delivery takes, attempts before giving up, configured connector actions. */
  datatype Config = Config(batch: nat, longest: nat, maxAttempts: nat, configured: set<Action>)

  datatype Created = Created(row: nat, kind: Action)

  /** The table in order of creation, the times at which each row was written by a delivery, the workers, the
      dispatched runs, and the cases and reports created so far. */
  datatype State = State(
    rows: seq<Row>, logs: seq<seq<int>>, workers: map<string, Worker>, dispatched: set<string>, created: seq<Created>)

  const LEASE_SECONDS := 120

  function Pow2(n: nat): nat {
    if n == 0 then 1 else 2 * Pow2(n - 1)
  }

  function RetryDelay(attempts: nat): nat {
    var delay := 30 * Pow2(if attempts < 7 then attempts else 7);
    if delay < 3600 then delay else 3600
  }

  // ---------------------------------------------------------------- what each party does to a row

  predicate LeaseOver(r: Row, now: int) {
    r.leaseUntil.None? || r.leaseUntil.value < now
  }

  predicate Waiting(r: Row, now: int) {
    && (r.state.Queued? || r.state.Retrying?)
    && (r.availableAt.None? || r.availableAt.value <= now)
    && LeaseOver(r, now)
  }

  predicate Abandoned(r: Row, now: int) {
    r.state.Delivering? && LeaseOver(r, now)
  }

  predicate Owned(c: Config, a: Action) {
    IsConnector(a) && a in c.configured
  }

  predicate Claimable(c: Config, r: Row, now: int) {
    Owned(c, r.action) && (Waiting(r, now) || Abandoned(r, now))
  }

  function ClaimRow(r: Row, token: string, now: int): Row {
    r.(state := Delivering, leaseToken := Some(token), leaseUntil := Some(now + LEASE_SECONDS))
  }

  /** What a delivery makes of the row it holds. */
  function Finish(r: Row, receipt: Receipt, now: int, maxAttempts: nat): Row {
    var tried := r.(attempts := r.attempts + 1, leaseToken := None, leaseUntil := None);
    if receipt.delivered
    then tried.(state := Delivered, deliveredAt := Some(now), result := Some(receipt.detail), lastError := None)
    else if receipt.retryable && tried.attempts < maxAttempts
    then tried.(state := Retrying, availableAt := Some(now + RetryDelay(tried.attempts)),
                lastError := Some(receipt.detail))
    else tried.(state := DeadLetter, result := Some(receipt.detail), lastError := Some(receipt.detail))
  }

  function Changed<T(==)>(loaded: T, final: T, stored: T): T {
    if final == loaded then stored else final
  }

  /** A flush writes the columns that differ from the loaded row, by primary key, whatever the row holds now. */
  function WriteBack(stored: Row, loaded: Row, final: Row): Row {
    Row(stored.action, stored.run, Changed(loaded.state, final.state, stored.state),
        Changed(loaded.attempts, final.attempts, stored.attempts),
        Changed(loaded.availableAt, final.availableAt, stored.availableAt),
        Changed(loaded.leaseToken, final.leaseToken, stored.leaseToken),
        Changed(loaded.leaseUntil, final.leaseUntil, stored.leaseUntil),
        Changed(loaded.deliveredAt, final.deliveredAt, stored.deliveredAt),
        Changed(loaded.lastError, final.lastError, stored.lastError),
        Changed(loaded.result, final.result, stored.result))
  }

  /** The internal worker's claim, processing and commit of one row. */
  function ProcessRow(r: Row, dispatched: bool, now: int): Row {
    var open := r.(leaseToken := None, leaseUntil := None);
    if !dispatched
    then open.(state := DeadLetter, lastError := Some("Run is not dispatched or not tenant-owned."))
    else open.(state := Delivered, deliveredAt := Some(now), attempts := r.attempts + 1, lastError := None,
               result := Some(if r.action.CaseCreate? then "case" else "report"))
  }

  // ---------------------------------------------------------------- steps

  datatype Event =
    | Dispatch(run: string, actions: seq<Action>, now: int)
    | Claim(worker: string, chosen: seq<nat>, token: string, now: int)
    | Deliver(worker: string, receipt: Receipt, now: int)
    | Crash(worker: string, now: int)
    | Internal(chosen: seq<nat>, now: int)

  ghost predicate DistinctRows(chosen: seq<nat>) {
    forall i, j :: 0 <= i < j < |chosen| ==> chosen[i] != chosen[j]
  }

  /** Which steps can happen. A claim may take any claimable rows up to the limit (so also the oldest ones, or those
      no other transaction has locked); a delivery takes at most the longest time; a crash can happen at any time. */
  ghost predicate Possible(c: Config, s: State, e: Event) {
    match e
    case Dispatch(run, actions, _) => run !in s.dispatched && forall a :: a in actions ==> !a.EndpointCommandRequest?
    case Claim(w, chosen, _, now) =>
      && (w in s.workers ==> s.workers[w].held == [])
      && |chosen| <= c.batch && DistinctRows(chosen)
      && forall i :: 0 <= i < |chosen| ==> chosen[i] < |s.rows| && Claimable(c, s.rows[chosen[i]], now)
    case Deliver(w, _, now) =>
      w in s.workers && s.workers[w].held != [] && now - s.workers[w].lastAt <= c.longest
      && s.workers[w].held[0].row < |s.rows|
    case Crash(w, _) => w in s.workers
    case Internal(chosen, now) =>
      && DistinctRows(chosen)
      && forall i :: 0 <= i < |chosen| ==>
           chosen[i] < |s.rows| && IsInternal(s.rows[chosen[i]].action) && Waiting(s.rows[chosen[i]], now)
  }

  function NewRows(run: string, actions: seq<Action>): seq<Row> {
    seq(|actions|, i requires 0 <= i < |actions| =>
      Row(actions[i], run, Queued, 0, None, None, None, None, None, None))
  }

  function ClaimRows(rows: seq<Row>, chosen: seq<nat>, token: string, now: int): seq<Row> {
    seq(|rows|, i requires 0 <= i < |rows| => if i in chosen then ClaimRow(rows[i], token, now) else rows[i])
  }

  function Loaded(rows: seq<Row>, chosen: seq<nat>): seq<Held> {
    seq(|chosen|, i requires 0 <= i < |chosen| =>
      if chosen[i] < |rows| then Held(chosen[i], rows[chosen[i]]) else Held(0, EmptyRow()))
  }

  function EmptyRow(): Row {
    Row(OtherAction(""), "", Queued, 0, None, None, None, None, None, None)
  }

  function ProcessRows(s: State, chosen: seq<nat>, now: int): seq<Row> {
    seq(|s.rows|, i requires 0 <= i < |s.rows| =>
      if i in chosen then ProcessRow(s.rows[i], s.rows[i].run in s.dispatched, now) else s.rows[i])
  }

  function CreatedBy(s: State, chosen: seq<nat>): seq<Created> {
    if chosen == [] then [] else
      var front, i := CreatedBy(s, chosen[..|chosen| - 1]), chosen[|chosen| - 1];
      if i < |s.rows| && s.rows[i].run in s.dispatched then front + [Created(i, s.rows[i].action)] else front
  }

  function Apply(c: Config, s: State, e: Event): State {
    match e
    case Dispatch(run, actions, _) =>
      s.(rows := s.rows + NewRows(run, actions), logs := s.logs + seq(|actions|, _ => []),
         dispatched := s.dispatched + {run})
    case Claim(w, chosen, token, now) =>
      var rows := ClaimRows(s.rows, chosen, token, now);
      s.(rows := rows, workers := s.workers[w := Worker(Loaded(rows, chosen), now, now)])
    case Deliver(w, receipt, now) =>
      if w !in s.workers || s.workers[w].held == [] then s else
        var worker := s.workers[w];
        var item := worker.held[0];
        if item.row >= |s.rows| || item.row >= |s.logs| then s else
          var final := Finish(item.copy, receipt, now, c.maxAttempts);
          s.(rows := s.rows[item.row := WriteBack(s.rows[item.row], item.copy, final)],
             logs := s.logs[item.row := s.logs[item.row] + [now]],
             workers := s.workers[w := worker.(held := worker.held[1..], lastAt := now)])
    case Crash(w, now) => s.(workers := s.workers[w := Worker([], now, now)])
    case Internal(chosen, now) =>
      s.(rows := ProcessRows(s, chosen, now), created := s.created + CreatedBy(s, chosen))
  }

  function Empty(): State {
    State([], [], map[], {}, [])
  }

  function RunOf(c: Config, es: seq<Event>): State {
    if es == [] then Empty() else Apply(c, RunOf(c, es[..|es| - 1]), es[|es| - 1])
  }

  function ClockAfter(es: seq<Event>): int {
    if es == [] then 0 else es[|es| - 1].now
  }

  /** A run in which every step was possible when it happened, on a clock that never steps back. */
  ghost predicate IsRun(c: Config, es: seq<Event>) {
    es == [] || (IsRun(c, es[..|es| - 1]) && ClockAfter(es[..|es| - 1]) <= es[|es| - 1].now
                 && Possible(c, RunOf(c, es[..|es| - 1]), es[|es| - 1]))
  }

  lemma {:induction false} IsRunPrefix(c: Config, es: seq<Event>, i: nat)
    requires IsRun(c, es) && i < |es|
    ensures IsRun(c, es[..i]) && ClockAfter(es[..i]) <= es[i].now && Possible(c, RunOf(c, es[..i]), es[i])
  {
    if i < |es| - 1 {
      IsRunPrefix(c, es[..|es| - 1], i);
      assert es[..|es| - 1][..i] == es[..i];
    }
  }
}
