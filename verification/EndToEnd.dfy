/** From the request to the delivery: the orchestration handlers insert the rows that the outbox workers claim, deliver
    and process, in one table. */
module EndToEnd {
  import opened Sequences
  import opened OutboxDelivery
  import Orchestration
  import Safety = OrchestrationSafety
  import WorkerSeparation
  import Decimals

  /** A request to a handler, or a step of a worker. */
  datatype JointEvent = Request(request: Safety.Event) | Work(step: Event)

  /** What the handlers and what the workers see of the database. */
  datatype Joint = Joint(store: Orchestration.Store, table: State)

  function ActionsOf(rows: seq<Orchestration.OutboxRow>): seq<Action> {
    seq(|rows|, i requires 0 <= i < |rows| => rows[i].action)
  }

  /** The rows that a handler adds to the table are what the workers find in it. */
  ghost function Inserted(before: Orchestration.Store, r: Safety.Event): seq<Event> {
    var after := Safety.Apply(before, r);
    if r.Dispatch? && |after.outbox| > |before.outbox|
    then [Dispatch(r.run, ActionsOf(after.outbox[|before.outbox|..]), r.now)] else []
  }

  /** What an event is for the table, if anything. */
  ghost function Seen(j: Joint, e: JointEvent): seq<Event> {
    match e
    case Request(r) => Inserted(j.store, r)
    case Work(step) => [step]
  }

  ghost function Step(c: Config, j: Joint, e: JointEvent): Joint {
    Joint(if e.Request? then Safety.Apply(j.store, e.request) else j.store,
          if Seen(j, e) == [] then j.table else Apply(c, j.table, Seen(j, e)[0]))
  }

  /** Workers insert nothing, and everything else that they and the handlers may do is possible at any time. */
  ghost predicate CanHappen(c: Config, j: Joint, e: JointEvent) {
    match e
    case Request(r) => Safety.Fresh(j.store, r)
    case Work(step) => !step.Dispatch? && Possible(c, j.table, step)
  }

  ghost function After(c: Config, es: seq<JointEvent>): Joint {
    if es == [] then Joint(Safety.Empty(), Empty()) else Step(c, After(c, es[..|es| - 1]), es[|es| - 1])
  }

  /** What happened to the table. */
  ghost function TableEvents(c: Config, es: seq<JointEvent>): seq<Event> {
    if es == [] then [] else TableEvents(c, es[..|es| - 1]) + Seen(After(c, es[..|es| - 1]), es[|es| - 1])
  }

  function Requests(es: seq<JointEvent>): seq<Safety.Event> {
    if es == [] then [] else
      var front, e := Requests(es[..|es| - 1]), es[|es| - 1];
      if e.Request? then front + [e.request] else front
  }

  /** Both interleave freely; the clock never steps back between two changes of the table. */
  ghost predicate IsJointRun(c: Config, es: seq<JointEvent>) {
    es == [] ||
    var front, e := es[..|es| - 1], es[|es| - 1];
    && IsJointRun(c, front) && CanHappen(c, After(c, front), e)
    && InOrder(ClockAfter(TableEvents(c, front)), Seen(After(c, front), e))
  }

  predicate InOrder(clock: int, seen: seq<Event>) {
    seen != [] ==> clock <= seen[0].now
  }

  // ---------------------------------------------------------------- one table

  predicate Mirrors(row: Row, due: Orchestration.OutboxRow) {
    row.action == due.action && row.run == due.run
  }

  ghost predicate RowsMirror(rows: seq<Row>, outbox: seq<Orchestration.OutboxRow>) {
    |rows| == |outbox| && forall i :: 0 <= i < |rows| ==> Mirrors(rows[i], outbox[i])
  }

  predicate IsDispatched(s: Orchestration.Store, id: string) {
    id in s.runs && s.runs[id].state.Dispatched?
  }

  /** Row by row the two views agree, and on which runs are dispatched. */
  ghost predicate Coupled(j: Joint) {
    && RowsMirror(j.table.rows, j.store.outbox)
    && forall id :: id in j.table.dispatched <==> IsDispatched(j.store, id)
  }

  lemma WorkKeepsDispatched(c: Config, s: State, e: Event)
    requires !e.Dispatch? && Possible(c, s, e)
    ensures Apply(c, s, e).dispatched == s.dispatched && |Apply(c, s, e).rows| == |s.rows|
  {
    hide WriteBack, Finish, CreatedBy;
  }

  lemma WorkCouples(c: Config, j: Joint, e: Event)
    requires Coupled(j) && !e.Dispatch? && Possible(c, j.table, e)
    ensures Coupled(Joint(j.store, Apply(c, j.table, e)))
  {
    hide Possible, Apply;
    WorkKeepsDispatched(c, j.table, e);
    WorkerSeparation.OriginsStay(c, j.table, e);
  }

  /** The requests that insert rows. */
  predicate FirstDispatch(s: Orchestration.Store, r: Safety.Event) {
    && r.Dispatch? && Orchestration.Visible(s, r.run, r.tenant) && s.runs[r.run].state.Approved?
    && s.runs[r.run].playbook in s.playbooks
    && Orchestration.Objection(s.playbooks[s.runs[r.run].playbook].steps, r.configured).None?
  }

  lemma OtherRequest(s: Orchestration.Store, r: Safety.Event)
    requires Safety.Fresh(s, r) && !FirstDispatch(s, r)
    ensures Safety.Apply(s, r).outbox == s.outbox
    ensures forall id :: IsDispatched(Safety.Apply(s, r), id) <==> IsDispatched(s, id)
  {
    hide Orchestration.Objection, Orchestration.RowsFor, Orchestration.RowsOf;
  }

  lemma DispatchInserts(s: Orchestration.Store, r: Safety.Event)
    requires Safety.Inv(s) && FirstDispatch(s, r)
    ensures
      var rows := Orchestration.RowsFor(s.runs[r.run], s.playbooks[s.runs[r.run].playbook].steps);
      && Safety.Apply(s, r).outbox == s.outbox + rows && rows != []
      && Inserted(s, r) == [Dispatch(r.run, ActionsOf(rows), r.now)]
      && !IsDispatched(s, r.run)
      && forall id :: IsDispatched(Safety.Apply(s, r), id) <==> IsDispatched(s, id) || id == r.run
  {
    hide Orchestration.Objection, Orchestration.RowFor, Safety.Inv, Safety.RunOk;
    Safety.RunIsOk(s, r.run);
    var rows := Orchestration.RowsFor(s.runs[r.run], s.playbooks[s.runs[r.run].playbook].steps);
    assert (s.outbox + rows)[|s.outbox|..] == rows;
  }

  /** The rows of a run name it, and ask for nothing that no worker owns. */
  lemma RowsForFacts(s: Orchestration.Store, id: string)
    requires Safety.Inv(s) && id in s.runs
    ensures s.runs[id].playbook in s.playbooks
    ensures
      var rows := Orchestration.RowsFor(s.runs[id], s.playbooks[s.runs[id].playbook].steps);
      forall i :: 0 <= i < |rows| ==> rows[i].run == id && !rows[i].action.EndpointCommandRequest?
  {
    hide Safety.Inv, Safety.RunOk, Decimals.Decimal;
    Safety.RunIsOk(s, id);
  }

  lemma AppendMirrors(rows: seq<Row>, outbox: seq<Orchestration.OutboxRow>, more: seq<Orchestration.OutboxRow>,
                      run: string)
    requires RowsMirror(rows, outbox) && forall i :: 0 <= i < |more| ==> more[i].run == run
    ensures RowsMirror(rows + NewRows(run, ActionsOf(more)), outbox + more)
  {
  }

  lemma DispatchCouples(c: Config, j: Joint, r: Safety.Event)
    requires Safety.Inv(j.store) && Coupled(j) && FirstDispatch(j.store, r)
    ensures |Inserted(j.store, r)| == 1 && Possible(c, j.table, Inserted(j.store, r)[0])
    ensures Coupled(Joint(Safety.Apply(j.store, r), Apply(c, j.table, Inserted(j.store, r)[0])))
  {
    hide Safety.Inv, Safety.Apply, Orchestration.RowsFor, Orchestration.Objection, Inserted;
    DispatchInserts(j.store, r);
    RowsForFacts(j.store, r.run);
    var rows := Orchestration.RowsFor(j.store.runs[r.run], j.store.playbooks[j.store.runs[r.run].playbook].steps);
    AppendMirrors(j.table.rows, j.store.outbox, rows, r.run);
    DispatchStepOf(c, j.table, r.run, ActionsOf(rows), r.now);
  }

  lemma DispatchStepOf(c: Config, s: State, run: string, actions: seq<Action>, now: int)
    requires run !in s.dispatched && forall i :: 0 <= i < |actions| ==> !actions[i].EndpointCommandRequest?
    ensures Possible(c, s, Dispatch(run, actions, now))
    ensures
      var t := Apply(c, s, Dispatch(run, actions, now));
      t.rows == s.rows + NewRows(run, actions) && t.dispatched == s.dispatched + {run}
  {
  }

  lemma NothingInserted(s: Orchestration.Store, r: Safety.Event)
    requires Safety.Fresh(s, r) && !FirstDispatch(s, r)
    ensures Inserted(s, r) == []
  {
    hide Safety.Apply, FirstDispatch;
    OtherRequest(s, r);
  }

  /** Whatever can happen is, for the table, a step that can happen, and keeps the two views together. */
  lemma StepCouples(c: Config, j: Joint, e: JointEvent)
    requires Safety.Inv(j.store) && Coupled(j) && CanHappen(c, j, e)
    ensures |Seen(j, e)| <= 1 && (Seen(j, e) != [] ==> Possible(c, j.table, Seen(j, e)[0]))
    ensures Coupled(Step(c, j, e))
  {
    hide Safety.Inv, Safety.Apply, Safety.Fresh, FirstDispatch, Inserted, Possible, Apply, RowsMirror;
    match e
    case Work(step) => WorkCouples(c, j, step);
    case Request(r) =>
      if FirstDispatch(j.store, r) {
        DispatchCouples(c, j, r);
      } else {
        NothingInserted(j.store, r);
        OtherRequest(j.store, r);
      }
  }

  lemma TablePush(c: Config, ts: seq<Event>, seen: seq<Event>)
    requires IsRun(c, ts) && |seen| <= 1 && InOrder(ClockAfter(ts), seen)
    requires seen != [] ==> Possible(c, RunOf(c, ts), seen[0])
    ensures IsRun(c, ts + seen)
    ensures RunOf(c, ts + seen) == if seen == [] then RunOf(c, ts) else Apply(c, RunOf(c, ts), seen[0])
  {
    hide Possible, Apply;
    if seen == [] {
      assert ts + seen == ts;
    } else {
      assert (ts + seen)[..|ts|] == ts && (ts + seen)[|ts|] == seen[0];
    }
  }

  lemma RequestsPush(s: Orchestration.Store, rs: seq<Safety.Event>, r: Safety.Event)
    requires Safety.FreshRun(s, rs) && Safety.Fresh(Safety.RunAll(s, rs), r)
    ensures Safety.FreshRun(s, rs + [r]) && Safety.RunAll(s, rs + [r]) == Safety.Apply(Safety.RunAll(s, rs), r)
  {
    hide Safety.Fresh, Safety.Apply;
    assert (rs + [r])[..|rs|] == rs;
  }

  lemma EmptyIsCoupled()
    ensures Coupled(Joint(Safety.Empty(), Empty()))
  {
  }

  /** What both do together is, seen from either side, one of the runs that side is about: so whatever holds of every
      run of the handlers, and of every run of the workers, holds of the two together. */
  lemma {:induction false} BothSidesRun(c: Config, es: seq<JointEvent>)
    requires IsJointRun(c, es)
    ensures Safety.FreshRun(Safety.Empty(), Requests(es))
    ensures Safety.RunAll(Safety.Empty(), Requests(es)) == After(c, es).store
    ensures IsRun(c, TableEvents(c, es)) && RunOf(c, TableEvents(c, es)) == After(c, es).table
    ensures Coupled(After(c, es))
  {
    hide Coupled, Seen, InOrder, Safety.Fresh, Safety.Apply, Possible, Apply, Safety.Inv, Safety.RunAll, IsRun, RunOf;
    if es == [] {
      EmptyIsCoupled();
      NothingYet(c);
    } else {
      var front, e := es[..|es| - 1], es[|es| - 1];
      var j := After(c, front);
      BothSidesRun(c, front);
      StoreIsOk(Requests(front));
      StepCouples(c, j, e);
      TablePush(c, TableEvents(c, front), Seen(j, e));
      if e.Request? {
        RequestsPush(Safety.Empty(), Requests(front), e.request);
      }
    }
  }

  lemma NothingYet(c: Config)
    ensures IsRun(c, []) && RunOf(c, []) == Empty()
    ensures Safety.FreshRun(Safety.Empty(), []) && Safety.RunAll(Safety.Empty(), []) == Safety.Empty()
  {
  }

  lemma StoreIsOk(rs: seq<Safety.Event>)
    requires Safety.FreshRun(Safety.Empty(), rs)
    ensures Safety.Inv(Safety.RunAll(Safety.Empty(), rs)) && Safety.Reachable(Safety.RunAll(Safety.Empty(), rs))
  {
    hide Safety.Inv, Safety.FreshRun, Safety.RunAll;
    Safety.EmptyIsOk();
    Safety.RunKeeps(Safety.Empty(), rs);
  }

  // ---------------------------------------------------------------- what follows for the two together

  /** Enough distinct actors approved the run, and it was dispatched. */
  predicate Approved(s: Orchestration.Store, id: string) {
    IsDispatched(s, id) && |Elems(s.runs[id].approvals)| >= s.runs[id].required >= 1
  }

  /** The row is the step of the run's playbook that an index names. */
  predicate IsStepOf(s: Orchestration.Store, row: Row, index: nat) {
    && row.run in s.runs && s.runs[row.run].playbook in s.playbooks
    && var steps := s.playbooks[s.runs[row.run].playbook].steps;
    index < |steps| && row.action == steps[index].action
  }

  /** At any time every row of the table is a step of a dispatched run with enough distinct approvers. */
  lemma EveryRowIsApproved(c: Config, es: seq<JointEvent>, i: nat)
    requires IsJointRun(c, es) && i < |After(c, es).table.rows|
    ensures
      var j := After(c, es);
      && i < |j.store.outbox| && Approved(j.store, j.table.rows[i].run)
      && IsStepOf(j.store, j.table.rows[i], j.store.outbox[i].index)
  {
    hide IsJointRun, After, Safety.Inv, Safety.Reachable, Decimals.Decimal;
    BothSidesRun(c, es);
    StoreIsOk(Requests(es));
    var s := After(c, es).store;
    Safety.RowIsDue(s, i);
    Safety.RowsAreApproved(s, i);
    Safety.RowsCarrySteps(s, i);
  }

  lemma OwnersAre(c: Config)
    ensures forall a :: Owned(c, a) ==> a in c.configured && (a == SlackNotify || a == JiraIssueCreate || a == SiemPush)
    ensures forall a :: IsInternal(a) ==> a == CaseCreate || a == ReportGenerate
  {
  }

  /** A row that a worker changes in any way belongs, at that time, to a dispatched run with enough distinct
      approvers, is a step of its playbook, and is one of those that this worker owns. */
  lemma WorkIsApproved(c: Config, es: seq<JointEvent>, i: nat)
    requires es != [] && es[|es| - 1].Work? && IsJointRun(c, es)
    requires i < |After(c, es[..|es| - 1]).table.rows| && i < |After(c, es).table.rows|
    requires After(c, es).table.rows[i] != After(c, es[..|es| - 1]).table.rows[i]
    ensures
      var j, step := After(c, es[..|es| - 1]), es[|es| - 1].step;
      && i < |j.store.outbox| && Approved(j.store, j.table.rows[i].run)
      && IsStepOf(j.store, j.table.rows[i], j.store.outbox[i].index)
      && var a := j.table.rows[i].action;
         if step.Internal? then a == CaseCreate || a == ReportGenerate
         else
           && (step.Claim? || step.Deliver?) && a in c.configured
           && (a == SlackNotify || a == JiraIssueCreate || a == SiemPush)
  {
    hide Approved, IsStepOf, Safety.Apply, Possible, Apply, WorkerSeparation.Separate, RunOf, IsRun, Owned, IsInternal;
    hide Coupled, InOrder, Safety.Fresh;
    OwnersAre(c);
    var front := es[..|es| - 1];
    EveryRowIsApproved(c, front, i);
    BothSidesRun(c, front);
    WorkerSeparation.RunKeeps(c, TableEvents(c, front));
    WorkerSeparation.StepOfOwner(c, After(c, front).table, es[|es| - 1].step, i);
  }

  /** No internal row was given up. */
  ghost predicate NoneGivenUp(s: State) {
    forall i :: 0 <= i < |s.rows| && IsInternal(s.rows[i].action) ==> !s.rows[i].state.DeadLetter?
  }

  lemma DispatchGivesUpNothing(c: Config, s: State, e: Event)
    requires NoneGivenUp(s) && e.Dispatch?
    ensures NoneGivenUp(Apply(c, s, e))
  {
  }

  lemma InternalGivesUpNothing(c: Config, j: Joint, e: Event)
    requires NoneGivenUp(j.table) && Coupled(j) && e.Internal? && Safety.Inv(j.store)
    ensures NoneGivenUp(Apply(c, j.table, e))
  {
    hide CreatedBy, Safety.Inv, Decimals.Decimal;
    forall i | 0 <= i < |j.table.rows| ensures j.table.rows[i].run in j.table.dispatched {
      Safety.RowIsDue(j.store, i);
    }
  }

  lemma OtherGivesUpNothing(c: Config, s: State, e: Event)
    requires NoneGivenUp(s) && WorkerSeparation.Separate(c, s) && Possible(c, s, e) && !e.Internal? && !e.Dispatch?
    ensures NoneGivenUp(Apply(c, s, e))
  {
    hide Possible, Apply, WorkerSeparation.Separate;
    WorkKeepsDispatched(c, s, e);
    var t := Apply(c, s, e);
    WorkerSeparation.OriginsStay(c, s, e);
    forall i | 0 <= i < |t.rows| && IsInternal(t.rows[i].action) ensures !t.rows[i].state.DeadLetter? {
      if t.rows[i] != s.rows[i] {
        WorkerSeparation.StepOfOwner(c, s, e, i);
      }
    }
  }

  lemma StepGivesUpNothing(c: Config, j: Joint, e: JointEvent)
    requires NoneGivenUp(j.table) && Coupled(j) && Safety.Inv(j.store) && WorkerSeparation.Separate(c, j.table)
    requires CanHappen(c, j, e)
    ensures NoneGivenUp(Step(c, j, e).table)
  {
    hide NoneGivenUp, Coupled, Safety.Inv, WorkerSeparation.Separate, Safety.Apply, Apply, Possible, Safety.Fresh;
    match e
    case Request(r) =>
      if Inserted(j.store, r) != [] {
        DispatchGivesUpNothing(c, j.table, Inserted(j.store, r)[0]);
      }
    case Work(step) =>
      if step.Internal? {
        InternalGivesUpNothing(c, j, step);
      } else {
        OtherGivesUpNothing(c, j.table, step);
      }
  }

  /** The internal worker's objection to a run that is not dispatched is never raised: in every run of the two
      together an internal row is waiting or delivered, and never given up. */
  lemma {:induction false} InternalIsNeverGivenUp(c: Config, es: seq<JointEvent>)
    requires IsJointRun(c, es)
    ensures
      var rows := After(c, es).table.rows;
      forall i :: 0 <= i < |rows| && IsInternal(rows[i].action) ==> !rows[i].state.DeadLetter?
  {
    hide Seen, InOrder, CanHappen, Step, Coupled, Safety.Inv, WorkerSeparation.Separate, IsRun, RunOf;
    if es != [] {
      var front := es[..|es| - 1];
      InternalIsNeverGivenUp(c, front);
      BothSidesRun(c, front);
      StoreIsOk(Requests(front));
      WorkerSeparation.RunKeeps(c, TableEvents(c, front));
      StepGivesUpNothing(c, After(c, front), es[|es| - 1]);
    }
  }
}
