/** Who changes which rows, over every interleaving of both workers: no bound on time is needed for it. */
module WorkerSeparation {
  import opened OutboxDelivery

  // ---------------------------------------------------------------- the invariant

  ghost predicate CreatedFine(s: State) {
    && (forall j, k :: 0 <= j < k < |s.created| ==> s.created[j].row != s.created[k].row)
    && (forall k :: 0 <= k < |s.created| ==>
          var x := s.created[k];
          x.row < |s.rows| && IsInternal(x.kind) && s.rows[x.row].action == x.kind && s.rows[x.row].state.Delivered?)
    && (forall i :: 0 <= i < |s.rows| && IsInternal(s.rows[i].action) && s.rows[i].state.Delivered? ==>
          Created(i, s.rows[i].action) in s.created)
  }

  /** Whatever a worker holds, late or not, is a row that connector workers own. */
  ghost predicate HoldsOwned(c: Config, rows: seq<Row>, k: Worker) {
    forall i :: 0 <= i < |k.held| ==> k.held[i].row < |rows| && Owned(c, rows[k.held[i].row].action)
  }

  ghost predicate Separate(c: Config, s: State) {
    && |s.logs| == |s.rows| && CreatedFine(s)
    && forall w :: w in s.workers ==> HoldsOwned(c, s.rows, s.workers[w])
  }

  /** No row is lost, and none changes its action or its run. */
  ghost predicate SameOrigins(rows: seq<Row>, after: seq<Row>) {
    && |rows| <= |after|
    && forall i :: 0 <= i < |rows| ==> after[i].action == rows[i].action && after[i].run == rows[i].run
  }

  lemma StillOwned(c: Config, rows: seq<Row>, after: seq<Row>, k: Worker)
    requires HoldsOwned(c, rows, k) && SameOrigins(rows, after)
    ensures HoldsOwned(c, after, k)
  {
  }

  lemma OriginsStay(c: Config, s: State, e: Event)
    requires Possible(c, s, e)
    ensures SameOrigins(s.rows, Apply(c, s, e).rows)
  {
    hide Finish, CreatedBy;
  }

  // ---------------------------------------------------------------- one step

  lemma ClaimCreated(c: Config, s: State, e: Event)
    requires CreatedFine(s) && e.Claim? && Possible(c, s, e)
    ensures CreatedFine(Apply(c, s, e))
  {
  }

  lemma DispatchCreated(c: Config, s: State, e: Event)
    requires CreatedFine(s) && e.Dispatch?
    ensures CreatedFine(Apply(c, s, e))
  {
    var after := Apply(c, s, e);
    assert forall i :: 0 <= i < |s.rows| ==> after.rows[i] == s.rows[i];
    assert forall i :: |s.rows| <= i < |after.rows| ==> after.rows[i].state.Queued?;
  }

  lemma {:induction false} CreatedByFacts(s: State, chosen: seq<nat>)
    requires DistinctRows(chosen)
    ensures forall x :: x in CreatedBy(s, chosen) <==>
      && x.row in chosen && x.row < |s.rows|
      && s.rows[x.row].run in s.dispatched && x.kind == s.rows[x.row].action
    ensures forall j, k :: 0 <= j < k < |CreatedBy(s, chosen)| ==>
      CreatedBy(s, chosen)[j].row != CreatedBy(s, chosen)[k].row
  {
    if chosen != [] {
      var front, i := chosen[..|chosen| - 1], chosen[|chosen| - 1];
      CreatedByFacts(s, front);
      assert forall j :: j in chosen <==> j in front || j == i;
      assert i !in front;
    }
  }

  lemma InternalCreated(c: Config, s: State, e: Event)
    requires CreatedFine(s) && e.Internal? && Possible(c, s, e)
    ensures CreatedFine(Apply(c, s, e))
  {
    hide CreatedBy, CreatedFine;
    CreatedByFacts(s, e.chosen);
    assert forall i :: i in e.chosen ==> i < |s.rows| && !s.rows[i].state.Delivered? && IsInternal(s.rows[i].action);
    CreatedAppend(s, e.chosen, e.now, CreatedBy(s, e.chosen));
  }

  lemma CreatedAppend(s: State, chosen: seq<nat>, now: int, more: seq<Created>)
    requires CreatedFine(s)
    requires forall i :: i in chosen ==> i < |s.rows| && !s.rows[i].state.Delivered? && IsInternal(s.rows[i].action)
    requires forall x :: x in more <==>
      x.row in chosen && x.row < |s.rows| && s.rows[x.row].run in s.dispatched && x.kind == s.rows[x.row].action
    requires forall j, k :: 0 <= j < k < |more| ==> more[j].row != more[k].row
    ensures CreatedFine(s.(rows := ProcessRows(s, chosen, now), created := s.created + more))
  {
    var rows, all := ProcessRows(s, chosen, now), s.created + more;
    assert forall i :: 0 <= i < |rows| ==> rows[i].action == s.rows[i].action;
    forall k | 0 <= k < |all|
      ensures all[k].row < |rows| && IsInternal(all[k].kind) && rows[all[k].row].action == all[k].kind
      ensures rows[all[k].row].state.Delivered? && (all[k].row in chosen <==> k >= |s.created|)
    {
      if k < |s.created| {
        assert all[k] == s.created[k];
      } else {
        assert all[k] == more[k - |s.created|] && more[k - |s.created|] in more;
      }
    }
    forall i | 0 <= i < |rows| && IsInternal(rows[i].action) && rows[i].state.Delivered?
      ensures Created(i, rows[i].action) in all
    {
      if i in chosen {
        assert Created(i, rows[i].action) in more;
      } else {
        assert Created(i, rows[i].action) in s.created;
      }
    }
  }

  lemma DeliverCreated(c: Config, s: State, e: Event)
    requires Separate(c, s) && e.Deliver? && Possible(c, s, e)
    ensures CreatedFine(Apply(c, s, e))
  {
    hide Finish, WriteBack;
    var item := s.workers[e.worker].held[0];
    assert HoldsOwned(c, s.rows, s.workers[e.worker]);
    KeepsAction(s.rows[item.row], item.copy, Finish(item.copy, e.receipt, e.now, c.maxAttempts));
  }

  lemma KeepsAction(stored: Row, loaded: Row, final: Row)
    ensures WriteBack(stored, loaded, final).action == stored.action
  {
  }

  lemma ClaimedIsOwned(c: Config, s: State, e: Event)
    requires e.Claim? && Possible(c, s, e)
    ensures HoldsOwned(c, Apply(c, s, e).rows, Apply(c, s, e).workers[e.worker])
  {
  }

  lemma RestIsOwned(c: Config, rows: seq<Row>, k: Worker, now: int)
    requires HoldsOwned(c, rows, k) && k.held != []
    ensures HoldsOwned(c, rows, k.(held := k.held[1..], lastAt := now))
  {
    assert forall i :: 0 <= i < |k.held| - 1 ==> k.held[1..][i] == k.held[i + 1];
  }

  lemma HeldStaysOwned(c: Config, s: State, e: Event, w: string)
    requires Separate(c, s) && Possible(c, s, e) && w in Apply(c, s, e).workers
    ensures HoldsOwned(c, Apply(c, s, e).rows, Apply(c, s, e).workers[w])
  {
    hide Possible, CreatedFine, ClaimRows, ProcessRows, CreatedBy, NewRows, Finish, WriteBack, HoldsOwned, SameOrigins;
    OriginsStay(c, s, e);
    var rows := Apply(c, s, e).rows;
    if w in s.workers {
      StillOwned(c, s.rows, rows, s.workers[w]);
    }
    if e.Claim? && w == e.worker {
      ClaimedIsOwned(c, s, e);
    } else if e.Deliver? && w == e.worker && w in s.workers && s.workers[w].held != [] {
      RestIsOwned(c, rows, s.workers[w], e.now);
    } else if e.Crash? && w == e.worker {
      NothingHeld(c, rows, e.now);
    }
  }

  lemma NothingHeld(c: Config, rows: seq<Row>, now: int)
    ensures HoldsOwned(c, rows, Worker([], now, now))
  {
  }

  /** Every possible step, timely or not, keeps the separation. */
  lemma StepKeeps(c: Config, s: State, e: Event)
    requires Separate(c, s) && Possible(c, s, e)
    ensures Separate(c, Apply(c, s, e))
  {
    forall w | w in Apply(c, s, e).workers ensures HoldsOwned(c, Apply(c, s, e).rows, Apply(c, s, e).workers[w]) {
      HeldStaysOwned(c, s, e, w);
    }
    LogsFollowRows(c, s, e);
    hide Possible, CreatedFine, Apply, HoldsOwned;
    match e
    case Dispatch(_, _, _) => DispatchCreated(c, s, e);
    case Claim(_, _, _, _) => ClaimCreated(c, s, e);
    case Deliver(_, _, _) => DeliverCreated(c, s, e);
    case Crash(_, _) => CrashCreated(c, s, e);
    case Internal(_, _) => InternalCreated(c, s, e);
  }

  lemma CrashCreated(c: Config, s: State, e: Event)
    requires CreatedFine(s) && e.Crash?
    ensures CreatedFine(Apply(c, s, e))
  {
  }

  lemma LogsFollowRows(c: Config, s: State, e: Event)
    requires |s.logs| == |s.rows|
    ensures |Apply(c, s, e).logs| == |Apply(c, s, e).rows|
  {
    hide Finish, WriteBack, CreatedBy;
  }

  lemma {:induction false} RunKeeps(c: Config, es: seq<Event>)
    requires IsRun(c, es)
    ensures Separate(c, RunOf(c, es))
  {
    hide Separate, Possible, Apply;
    if es == [] {
      EmptyIsSeparate(c);
    } else {
      RunKeeps(c, es[..|es| - 1]);
      StepKeeps(c, RunOf(c, es[..|es| - 1]), es[|es| - 1]);
    }
  }

  lemma EmptyIsSeparate(c: Config)
    ensures Separate(c, Empty())
  {
  }

  // ---------------------------------------------------------------- what follows for every run

  lemma StepOfOwner(c: Config, s: State, e: Event, i: nat)
    requires Separate(c, s) && Possible(c, s, e)
    requires i < |s.rows| && i < |Apply(c, s, e).rows| && Apply(c, s, e).rows[i] != s.rows[i]
    ensures e.Claim? || e.Deliver? ==> Owned(c, s.rows[i].action) && !IsInternal(s.rows[i].action)
    ensures e.Internal? ==> IsInternal(s.rows[i].action)
    ensures !e.Dispatch? && !e.Crash?
  {
    hide WriteBack, Finish, CreatedBy, CreatedFine;
  }

  /** In every run a step changes a row only on behalf of the owner of its action, and no row changes its action. */
  lemma OnlyOwnerChanges(c: Config, es: seq<Event>, k: nat, i: nat)
    requires IsRun(c, es) && k < |es| && i < |RunOf(c, es[..k]).rows|
    ensures i < |RunOf(c, es[..k + 1]).rows|
    ensures
      var row, after, e := RunOf(c, es[..k]).rows[i], RunOf(c, es[..k + 1]).rows[i], es[k];
      && after.action == row.action
      && (after != row ==>
            if e.Internal? then row.action == CaseCreate || row.action == ReportGenerate
            else
              && (e.Claim? || e.Deliver?) && row.action in c.configured
              && (row.action == SlackNotify || row.action == JiraIssueCreate || row.action == SiemPush))
  {
    hide Possible, Apply, Separate;
    IsRunPrefix(c, es, k);
    RunKeeps(c, es[..k]);
    assert es[..k + 1][..k] == es[..k];
    OriginsStay(c, RunOf(c, es[..k]), es[k]);
    if RunOf(c, es[..k + 1]).rows[i] != RunOf(c, es[..k]).rows[i] {
      StepOfOwner(c, RunOf(c, es[..k]), es[k], i);
    }
  }

  /** In every run delivered internal rows and created cases and reports correspond one to one, kind by kind. */
  lemma CreatedMatchDelivered(c: Config, es: seq<Event>, i: nat)
    requires IsRun(c, es)
    requires i < |RunOf(c, es).rows| && IsInternal(RunOf(c, es).rows[i].action)
    ensures
      var s := RunOf(c, es);
      && (s.rows[i].state.Delivered? <==> exists k :: 0 <= k < |s.created| && s.created[k].row == i)
      && (forall k :: 0 <= k < |s.created| && s.created[k].row == i ==> s.created[k].kind == s.rows[i].action)
      && (forall j, k :: 0 <= j < k < |s.created| ==> s.created[j].row != s.created[k].row)
  {
    RunKeeps(c, es);
    var s := RunOf(c, es);
    assert CreatedFine(s);
    if s.rows[i].state.Delivered? {
      var k :| 0 <= k < |s.created| && s.created[k] == Created(i, s.rows[i].action);
    }
  }
}
