/** What every sequence of orchestration requests keeps. */
module OrchestrationSafety {
  import opened Options
  import opened Sequences
  import opened Decimals
  import opened Orchestration
  import Outbox = OutboxDelivery

  /** The connectors that are configured may change from request to request. */
  datatype Event =
    | CreatePlaybook(id: string, tenant: string, steps: seq<PlaybookStep>, configured: set<Action>)
    | Propose(id: string, tenant: string, playbook: string, key: string, context: string, actor: string,
              configured: set<Action>)
    | Approve(run: string, tenant: string, actor: string)
    | Reject(run: string, tenant: string, note: Option<string>)
    | Dispatch(run: string, tenant: string, configured: set<Action>, now: int)

  /** New identifiers are fresh. */
  predicate Fresh(s: Store, e: Event) {
    (e.CreatePlaybook? ==> e.id !in s.playbooks) && (e.Propose? ==> e.id !in s.runs)
  }

  ghost predicate AlreadyProposed(s: Store, tenant: string, key: string) {
    exists id :: Proposal(s.runs, tenant, key, id)
  }

  ghost function Apply(s: Store, e: Event): Store {
    match e
    case CreatePlaybook(id, tenant, steps, configured) => CreatePlaybookStep(s, id, tenant, steps, configured).0
    case Propose(id, tenant, playbook, key, context, actor, configured) =>
      if AlreadyProposed(s, tenant, key) then s
      else ProposeNewStep(s, id, tenant, playbook, key, context, actor, configured).0
    case Approve(run, tenant, actor) => ApproveStep(s, run, tenant, actor).0
    case Reject(run, tenant, note) => RejectStep(s, run, tenant, note).0
    case Dispatch(run, tenant, configured, now) => DispatchStep(s, run, tenant, configured, now).0
  }

  function Empty(): Store {
    Store(map[], map[], [])
  }

  ghost function RunAll(s: Store, es: seq<Event>): Store {
    if es == [] then s else Apply(RunAll(s, es[..|es| - 1]), es[|es| - 1])
  }

  ghost predicate FreshRun(s: Store, es: seq<Event>) {
    es == [] || (FreshRun(s, es[..|es| - 1]) && Fresh(RunAll(s, es[..|es| - 1]), es[|es| - 1]))
  }

  // ---------------------------------------------------------------- the invariant

  ghost predicate PlaybookOk(p: Playbook) {
    1 <= |p.steps| <= MAX_STEPS && forall i :: 0 <= i < |p.steps| ==> IsSupported(p.steps[i].action)
  }

  ghost predicate RunOk(r: Run) {
    && r.required >= 1 && Distinct(r.approvals)
    && (r.state.Proposed? ==> r.approvals == [])
    && (r.state.PartiallyApproved? ==> 0 < |r.approvals| < r.required)
    && (r.state.Rejected? ==> |r.approvals| < r.required)
    && (r.state.Approved? || r.state.Dispatched? ==> |r.approvals| >= r.required)
    && (r.state.Dispatched? <==> r.dispatchedAt.Some?)
  }

  ghost predicate PlaybooksOk(s: Store) {
    forall id :: id in s.playbooks ==> PlaybookOk(s.playbooks[id])
  }

  ghost predicate RunsOk(s: Store) {
    forall id :: id in s.runs ==> s.runs[id].id == id && s.runs[id].playbook in s.playbooks && RunOk(s.runs[id])
  }

  /** The rows a run must have. */
  function Due(s: Store, id: string): seq<OutboxRow> {
    if id in s.runs && s.runs[id].state.Dispatched? && s.runs[id].playbook in s.playbooks
    then RowsFor(s.runs[id], s.playbooks[s.runs[id].playbook].steps) else []
  }

  ghost predicate OutboxOk(s: Store) {
    forall id :: RowsOf(s.outbox, id) == Due(s, id)
  }

  ghost predicate ProposedOnce(s: Store) {
    forall a, b :: a in s.runs && b in s.runs && IsProposal(s.runs[a], s.runs[b].tenant, s.runs[b].key) ==> a == b
  }

  ghost predicate Inv(s: Store) {
    PlaybooksOk(s) && RunsOk(s) && OutboxOk(s) && ProposedOnce(s)
  }

  lemma {:induction false} NoneLeft(steps: seq<PlaybookStep>, keep: Action -> bool, i: nat)
    requires ActionsWhere(steps, keep) == [] && i < |steps|
    ensures !keep(steps[i].action)
  {
    if i < |steps| - 1 {
      NoneLeft(steps[..|steps| - 1], keep, i);
    }
  }

  lemma {:induction false} SomeLeft(steps: seq<PlaybookStep>, keep: Action -> bool)
    requires ActionsWhere(steps, keep) != []
    ensures exists i :: 0 <= i < |steps| && keep(steps[i].action)
  {
    if !keep(steps[|steps| - 1].action) {
      SomeLeft(steps[..|steps| - 1], keep);
      var i :| 0 <= i < |steps| - 1 && keep(steps[..|steps| - 1][i].action);
      assert keep(steps[i].action);
    }
  }

  /** Steps are accepted exactly when every action is one that a worker owns and can deliver now. */
  lemma AcceptedExactly(steps: seq<PlaybookStep>, configured: set<Action>)
    ensures Objection(steps, configured).None? <==>
      forall i :: 0 <= i < |steps| ==> IsSupported(steps[i].action) && IsAvailable(steps[i].action, configured)
  {
    var control := (a: Action) => IsControlPlane(a);
    var unknown := (a: Action) => !IsControlPlane(a) && !IsSupported(a);
    var missing := (a: Action) => IsSupported(a) && !IsAvailable(a, configured);
    if Objection(steps, configured).None? {
      forall i | 0 <= i < |steps|
        ensures IsSupported(steps[i].action) && IsAvailable(steps[i].action, configured)
      {
        NoneLeft(steps, control, i);
        NoneLeft(steps, unknown, i);
        NoneLeft(steps, missing, i);
      }
    } else if ActionsWhere(steps, control) != [] {
      SomeLeft(steps, control);
    } else if ActionsWhere(steps, unknown) != [] {
      SomeLeft(steps, unknown);
    } else {
      SomeLeft(steps, missing);
    }
  }

  // ---------------------------------------------------------------- one step

  lemma CreateKeeps(s: Store, id: string, tenant: string, steps: seq<PlaybookStep>, configured: set<Action>)
    requires Inv(s) && id !in s.playbooks
    ensures Inv(CreatePlaybookStep(s, id, tenant, steps, configured).0)
  {
    hide Objection, RowsFor, RowsOf, RunOk, IsSupported;
    AcceptedExactly(steps, configured);
    var t := CreatePlaybookStep(s, id, tenant, steps, configured).0;
    forall run ensures Due(t, run) == Due(s, run) {
    }
  }

  lemma ProposeKeeps(
      s: Store, id: string, tenant: string, playbook: string, key: string, context: string, actor: string,
      configured: set<Action>)
    requires Inv(s) && id !in s.runs && !AlreadyProposed(s, tenant, key)
    ensures Inv(ProposeNewStep(s, id, tenant, playbook, key, context, actor, configured).0)
  {
    hide Objection, RowsFor, RowsOf, PlaybookOk;
    var t := ProposeNewStep(s, id, tenant, playbook, key, context, actor, configured).0;
    forall run ensures Due(t, run) == Due(s, run) {
    }
    forall a | a in s.runs ensures !IsProposal(s.runs[a], tenant, key) {
      assert !Proposal(s.runs, tenant, key, a);
    }
  }

  /** A run may change its own state as long as it is neither dispatched before nor after. */
  lemma ChangeKeeps(s: Store, id: string, r: Run)
    requires Inv(s) && id in s.runs
    requires RunOk(r) && !s.runs[id].state.Dispatched? && !r.state.Dispatched?
    requires r == s.runs[id].(state := r.state, approvals := r.approvals, rejectedReason := r.rejectedReason)
    ensures Inv(s.(runs := s.runs[id := r]))
  {
    hide RunOk, RowsFor, RowsOf, PlaybookOk;
    var t := s.(runs := s.runs[id := r]);
    forall run ensures Due(t, run) == Due(s, run) {
    }
  }

  lemma ApprovalIsOk(r: Run, actor: string)
    requires RunOk(r) && AwaitsApproval(r) && actor !in r.approvals
    ensures RunOk(ApprovedBy(r, actor))
  {
  }

  lemma {:induction false} FilterAll(keep: OutboxRow -> bool, rows: seq<OutboxRow>, all: bool)
    requires forall i :: 0 <= i < |rows| ==> keep(rows[i]) == all
    ensures Filter(keep, rows) == if all then rows else []
  {
    if rows != [] {
      FilterAll(keep, rows[..|rows| - 1], all);
    }
  }

  lemma RowsOfMore(outbox: seq<OutboxRow>, r: Run, steps: seq<PlaybookStep>, id: string)
    ensures RowsOf(outbox + RowsFor(r, steps), id) ==
      if r.id == id then RowsOf(outbox, id) + RowsFor(r, steps) else RowsOf(outbox, id)
  {
    hide Filter;
    FilterConcat(OfRun(id), outbox, RowsFor(r, steps));
    FilterAll(OfRun(id), RowsFor(r, steps), r.id == id);
  }

  lemma RowsForSame(r: Run, q: Run, steps: seq<PlaybookStep>)
    requires q == r.(state := q.state, dispatchedAt := q.dispatchedAt)
    ensures RowsFor(q, steps) == RowsFor(r, steps)
  {
    hide Decimal;
  }

  lemma DispatchKeeps(s: Store, id: string, now: int)
    requires Inv(s) && id in s.runs && s.runs[id].state.Approved?
    ensures
      var r := s.runs[id];
      var rows := RowsFor(r, s.playbooks[r.playbook].steps);
      Inv(Store(s.playbooks, s.runs[id := r.(state := Dispatched, dispatchedAt := Some(now))], s.outbox + rows))
  {
    hide RowsFor, RowsOf, PlaybookOk;
    var r := s.runs[id];
    var steps, q := s.playbooks[r.playbook].steps, r.(state := Dispatched, dispatchedAt := Some(now));
    var t := Store(s.playbooks, s.runs[id := q], s.outbox + RowsFor(r, steps));
    RowsForSame(r, q, steps);
    forall run ensures RowsOf(t.outbox, run) == Due(t, run) {
      RowsOfMore(s.outbox, r, steps, run);
      assert RowsOf(s.outbox, run) == Due(s, run);
    }
  }

  lemma StepKeeps(s: Store, e: Event)
    requires Inv(s) && Fresh(s, e)
    ensures Inv(Apply(s, e))
  {
    hide Inv, Objection, RowsFor, RowsOf, AlreadyProposed, CreatePlaybookStep, ProposeNewStep;
    match e
    case CreatePlaybook(id, tenant, steps, configured) => CreateKeeps(s, id, tenant, steps, configured);
    case Propose(id, tenant, playbook, key, context, actor, configured) =>
      if !AlreadyProposed(s, tenant, key) {
        ProposeKeeps(s, id, tenant, playbook, key, context, actor, configured);
      }
    case Approve(run, tenant, actor) =>
      if Visible(s, run, tenant) && AwaitsApproval(s.runs[run]) && actor !in s.runs[run].approvals {
        RunIsOk(s, run);
        ApprovalIsOk(s.runs[run], actor);
        ChangeKeeps(s, run, ApprovedBy(s.runs[run], actor));
      }
    case Reject(run, tenant, note) =>
      if Visible(s, run, tenant) && AwaitsApproval(s.runs[run]) {
        RunIsOk(s, run);
        ChangeKeeps(s, run, RejectStep(s, run, tenant, note).0.runs[run]);
      }
    case Dispatch(run, tenant, configured, now) =>
      if Visible(s, run, tenant) && s.runs[run].state.Approved? {
        DispatchKeeps(s, run, now);
      }
  }

  lemma RunIsOk(s: Store, id: string)
    requires Inv(s) && id in s.runs
    ensures s.runs[id].id == id && RunOk(s.runs[id]) && s.runs[id].playbook in s.playbooks
    ensures PlaybookOk(s.playbooks[s.runs[id].playbook])
  {
  }

  lemma EmptyIsOk()
    ensures Inv(Empty())
  {
  }

  lemma {:induction false} RunKeeps(s: Store, es: seq<Event>)
    requires Inv(s) && FreshRun(s, es)
    ensures Inv(RunAll(s, es))
  {
    hide Inv, Apply, Fresh;
    if es != [] {
      RunKeeps(s, es[..|es| - 1]);
      StepKeeps(RunAll(s, es[..|es| - 1]), es[|es| - 1]);
    }
  }

  // ---------------------------------------------------------------- the promises

  ghost predicate Reachable(s: Store) {
    exists es :: FreshRun(Empty(), es) && RunAll(Empty(), es) == s
  }

  lemma ReachableIsOk(s: Store)
    requires Reachable(s)
    ensures Inv(s)
  {
    hide Inv;
    EmptyIsOk();
    var es :| FreshRun(Empty(), es) && RunAll(Empty(), es) == s;
    RunKeeps(Empty(), es);
  }

  /** A run has outbox rows exactly when it is dispatched, and then one for each step of its playbook, in order. */
  lemma RowsExactlyWhenDispatched(s: Store, id: string)
    requires Reachable(s) && id in s.runs
    ensures RowsOf(s.outbox, id) != [] <==> s.runs[id].state.Dispatched?
    ensures s.runs[id].state.Dispatched? ==>
      s.runs[id].playbook in s.playbooks
      && RowsOf(s.outbox, id) == RowsFor(s.runs[id], s.playbooks[s.runs[id].playbook].steps)
  {
    hide RunOk;
    ReachableIsOk(s);
    assert RowsOf(s.outbox, id) == Due(s, id);
    assert PlaybookOk(s.playbooks[s.runs[id].playbook]);
  }

  lemma RowIsDue(s: Store, i: nat)
    requires Inv(s) && i < |s.outbox|
    ensures
      var row := s.outbox[i];
      && row.run in s.runs && s.runs[row.run].state.Dispatched?
      && row.key == row.run + ":" + Decimal(row.index) && IsSupported(row.action)
  {
    hide RunOk, Decimal, IsSupported;
    var row := s.outbox[i];
    FilterElements(OfRun(row.run), s.outbox);
    assert RowsOf(s.outbox, row.run) == Due(s, row.run);
    assert row in RowsOf(s.outbox, row.run);
    var steps := s.playbooks[s.runs[row.run].playbook].steps;
    assert PlaybookOk(s.playbooks[s.runs[row.run].playbook]);
    var j :| 0 <= j < |steps| && row == RowFor(s.runs[row.run], steps[j], j);
  }

  /** No row ever asks for an endpoint command, nor for anything no worker owns; and every row belongs to a run that
      enough distinct actors approved. */
  lemma RowsAreApproved(s: Store, i: nat)
    requires Reachable(s) && i < |s.outbox|
    ensures
      var row := s.outbox[i];
      && !IsControlPlane(row.action) && IsSupported(row.action) && row.run in s.runs
      && |Elems(s.runs[row.run].approvals)| >= s.runs[row.run].required >= 1
  {
    hide Inv, Decimal;
    ReachableIsOk(s);
    RowIsDue(s, i);
    RunIsOk(s, s.outbox[i].run);
    DistinctSize(s.runs[s.outbox[i].run].approvals);
  }

  /** Each row carries the step of its playbook that its index names, for the tenant and with the context of its run. */
  lemma RowsCarrySteps(s: Store, i: nat)
    requires Reachable(s) && i < |s.outbox| && s.outbox[i].run in s.runs
    ensures
      var row := s.outbox[i];
      var r := s.runs[row.run];
      && r.playbook in s.playbooks && row.index < |s.playbooks[r.playbook].steps|
      && var step := s.playbooks[r.playbook].steps[row.index];
      && row.action == step.action && row.target == step.target && row.payload == step.payload
      && row.tenant == r.tenant && row.context == r.context && row.key == row.run + ":" + Decimal(row.index)
      && (row.isInternal <==> step.action == Outbox.CaseCreate || step.action == Outbox.ReportGenerate)
  {
    hide RunOk, Decimal, PlaybookOk;
    ReachableIsOk(s);
    var row := s.outbox[i];
    FilterElements(OfRun(row.run), s.outbox);
    assert RowsOf(s.outbox, row.run) == Due(s, row.run);
    assert row in RowsOf(s.outbox, row.run);
  }

  /** Two rows of the table are never the same element of the filter. */
  lemma {:induction false} TwoOfFilter(keep: OutboxRow -> bool, rows: seq<OutboxRow>, i: nat, j: nat)
    returns (a: nat, b: nat)
    requires i < j < |rows| && keep(rows[i]) && keep(rows[j])
    ensures a < b < |Filter(keep, rows)| && Filter(keep, rows)[a] == rows[i] && Filter(keep, rows)[b] == rows[j]
  {
    var front := rows[..|rows| - 1];
    if j == |front| {
      FilterElements(keep, front);
      assert front[i] in Filter(keep, front);
      a :| 0 <= a < |Filter(keep, front)| && Filter(keep, front)[a] == front[i];
      b := |Filter(keep, front)|;
    } else {
      a, b := TwoOfFilter(keep, front, i, j);
    }
  }

  lemma RowsOfOneRunDiffer(s: Store, i: nat, j: nat)
    requires Inv(s) && i < j < |s.outbox| && s.outbox[i].run == s.outbox[j].run
    ensures s.outbox[i].index < s.outbox[j].index
  {
    hide RunOk, Filter, PlaybookOk;
    var id := s.outbox[i].run;
    var a, b := TwoOfFilter(OfRun(id), s.outbox, i, j);
    assert RowsOf(s.outbox, id) == Due(s, id);
  }

  lemma KeyNamesRow(m: string, i: nat, n: string, j: nat)
    requires m + ":" + Decimal(i) == n + ":" + Decimal(j)
    ensures m == n && i == j
  {
    hide Decimal;
    assert ':' !in Decimal(i) && ':' !in Decimal(j);
    SplitAtLast(m, Decimal(i), n, Decimal(j), ':');
    DecimalInjective(i, j);
  }

  /** Idempotency keys are globally distinct, whatever the identifiers of the runs look like. */
  lemma KeysAreDistinct(s: Store, i: nat, j: nat)
    requires Reachable(s) && i < j < |s.outbox|
    ensures s.outbox[i].key != s.outbox[j].key
  {
    hide Inv, Decimal;
    ReachableIsOk(s);
    RowIsDue(s, i);
    RowIsDue(s, j);
    if s.outbox[i].key == s.outbox[j].key {
      KeyNamesRow(s.outbox[i].run, s.outbox[i].index, s.outbox[j].run, s.outbox[j].index);
      RowsOfOneRunDiffer(s, i, j);
    }
  }

  predicate IsFinal(r: Run) {
    r.state.Rejected? || r.state.Dispatched?
  }

  lemma FinalAfter(s: Store, e: Event, id: string)
    requires id in s.runs && IsFinal(s.runs[id]) && Fresh(s, e)
    ensures id in Apply(s, e).runs && Apply(s, e).runs[id] == s.runs[id]
  {
    hide Objection, RowsFor, RowsOf;
  }

  /** Rejected runs stay rejected and dispatched runs stay dispatched, unchanged. */
  lemma {:induction false} FinalStays(s: Store, es: seq<Event>, id: string)
    requires id in s.runs && IsFinal(s.runs[id]) && FreshRun(s, es)
    ensures id in RunAll(s, es).runs && RunAll(s, es).runs[id] == s.runs[id]
  {
    hide Apply, Fresh, IsFinal;
    if es != [] {
      FinalStays(s, es[..|es| - 1], id);
      FinalAfter(RunAll(s, es[..|es| - 1]), es[|es| - 1], id);
    }
  }

  lemma ProposalAfter(s: Store, e: Event, tenant: string, key: string)
    requires Fresh(s, e) && AlreadyProposed(s, tenant, key)
    ensures AlreadyProposed(Apply(s, e), tenant, key)
  {
    hide Objection, RowsFor, RowsOf;
    var id :| Proposal(s.runs, tenant, key, id);
    assert Proposal(Apply(s, e).runs, tenant, key, id);
  }

  /** A key proposed once never creates another run of its tenant, whatever happened in between. */
  lemma ProposedKeyCreatesNothing(s: Store, es: seq<Event>, e: Event)
    requires FreshRun(s, es) && e.Propose? && AlreadyProposed(s, e.tenant, e.key)
    ensures Apply(RunAll(s, es), e) == RunAll(s, es)
  {
    hide AlreadyProposed, Fresh;
    ProposedStays(s, es, e.tenant, e.key);
  }

  lemma {:induction false} ProposedStays(s: Store, es: seq<Event>, tenant: string, key: string)
    requires FreshRun(s, es) && AlreadyProposed(s, tenant, key)
    ensures AlreadyProposed(RunAll(s, es), tenant, key)
  {
    hide AlreadyProposed, Fresh, Apply;
    if es != [] {
      ProposedStays(s, es[..|es| - 1], tenant, key);
      ProposalAfter(RunAll(s, es[..|es| - 1]), es[|es| - 1], tenant, key);
    }
  }

  /** The run a key names is the only one. */
  lemma OneRunForKey(s: Store, tenant: string, key: string, a: string, b: string)
    requires Reachable(s) && Proposal(s.runs, tenant, key, a) && Proposal(s.runs, tenant, key, b)
    ensures a == b
  {
    ReachableIsOk(s);
  }

  /** Dispatching again, at any later time, creates nothing and answers with the rows of the first dispatch. */
  lemma DispatchAgain(s: Store, es: seq<Event>, id: string, tenant: string, configured: set<Action>, now: int)
    requires Inv(s) && FreshRun(s, es) && Visible(s, id, tenant) && s.runs[id].state.Dispatched?
    ensures
      var t := RunAll(s, es);
      DispatchStep(t, id, tenant, configured, now) == (t, OutboxReply(RowsOf(s.outbox, id)))
  {
    hide Inv, RowsOf, RowsFor, Objection;
    FinalStays(s, es, id);
    RunKeeps(s, es);
    DueIs(s, id);
    PlaybookStays(s, es, s.runs[id].playbook);
    DueIs(RunAll(s, es), id);
  }

  lemma DueIs(s: Store, id: string)
    requires Inv(s) && id in s.runs && s.runs[id].state.Dispatched?
    ensures s.runs[id].playbook in s.playbooks
    ensures RowsOf(s.outbox, id) == RowsFor(s.runs[id], s.playbooks[s.runs[id].playbook].steps)
  {
    hide RowsOf, RowsFor, RunOk;
    assert RowsOf(s.outbox, id) == Due(s, id);
  }

  lemma {:induction false} PlaybookStays(s: Store, es: seq<Event>, id: string)
    requires FreshRun(s, es) && id in s.playbooks
    ensures id in RunAll(s, es).playbooks && RunAll(s, es).playbooks[id] == s.playbooks[id]
  {
    hide Objection, RowsFor, RowsOf, ApproveStep, RejectStep, AlreadyProposed;
    if es != [] {
      PlaybookStays(s, es[..|es| - 1], id);
      PlaybookAfter(RunAll(s, es[..|es| - 1]), es[|es| - 1], id);
    }
  }

  lemma PlaybookAfter(s: Store, e: Event, id: string)
    requires Fresh(s, e) && id in s.playbooks
    ensures id in Apply(s, e).playbooks && Apply(s, e).playbooks[id] == s.playbooks[id]
  {
    hide Objection, RowsFor, RowsOf, AlreadyProposed;
  }

  /** One approval is enough, and nothing keeps it from being the requester's own. The same actor can then dispatch the
      run, as long as the connectors it was proposed under are still configured. */
  lemma RequesterMayDispatch(s: Store, e: Event)
    requires Fresh(s, e) && e.Propose? && !AlreadyProposed(s, e.tenant, e.key)
    requires e.id in Apply(s, e).runs
    ensures
      var t := Apply(Apply(s, e), Approve(e.id, e.tenant, e.actor));
      && t.runs[e.id].state.Approved? && t.runs[e.id].approvals == [t.runs[e.id].requestedBy]
      && forall now :: Apply(t, Dispatch(e.id, e.tenant, e.configured, now)).runs[e.id].state.Dispatched?
  {
    hide Objection;
  }
}
