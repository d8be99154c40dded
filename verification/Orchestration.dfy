/** Approval-first automation runs (app/api/v1/orchestration.py): a run is proposed from a playbook, approved or
    rejected, and dispatched as one outbox row for each step. Every handler is one transaction. */
module Orchestration {
  import opened Options
  import opened Sequences
  import opened OrderedUnion
  import opened Decimals
  import Outbox = OutboxDelivery

  type Action = Outbox.Action

  const MAX_STEPS := 20

  datatype PlaybookStep = PlaybookStep(action: Action, target: string, payload: string)

  datatype Playbook = Playbook(tenant: string, enabled: bool, steps: seq<PlaybookStep>)

  datatype RunState = Proposed | PartiallyApproved | Approved | Rejected | Dispatched

  datatype Run = Run(
    id: string, tenant: string, playbook: string, key: string, context: string, requestedBy: string, state: RunState,
    required: nat, approvals: seq<string>, rejectedReason: Option<string>, dispatchedAt: Option<int>)

  datatype OutboxRow = OutboxRow(
    tenant: string, run: string, index: nat, action: Action, target: string, context: string, payload: string,
    isInternal: bool, key: string)

  datatype Store = Store(playbooks: map<string, Playbook>, runs: map<string, Run>, outbox: seq<OutboxRow>)

  datatype Refusal =
    | InvalidPlaybook | NotFound | NotAwaitingApproval | AlreadyApproved | CannotReject | NotApproved
    | PlaybookUnavailable
    | ControlPlaneOnly(actions: seq<Action>) | Unsupported(actions: seq<Action>) | NotConfigured(actions: seq<Action>)

  datatype Reply =
    | PlaybookReply(id: string) | RunReply(run: Run) | OutboxReply(rows: seq<OutboxRow>) | Refused(why: Refusal)

  // ---------------------------------------------------------------- validation

  predicate IsControlPlane(a: Action) {
    a.EndpointCommandRequest?
  }

  predicate IsSupported(a: Action) {
    Outbox.IsConnector(a) || Outbox.IsInternal(a)
  }

  predicate IsAvailable(a: Action, configured: set<Action>) {
    Outbox.IsInternal(a) || a in configured
  }

  function ActionsWhere(steps: seq<PlaybookStep>, keep: Action -> bool): seq<Action> {
    if steps == [] then [] else
      var before, a := ActionsWhere(steps[..|steps| - 1], keep), steps[|steps| - 1].action;
      if keep(a) then before + [a] else before
  }

  function ControlPlaneActions(steps: seq<PlaybookStep>): seq<Action> {
    ActionsWhere(steps, (a: Action) => IsControlPlane(a))
  }

  function UnsupportedActions(steps: seq<PlaybookStep>): seq<Action> {
    ActionsWhere(steps, (a: Action) => !IsControlPlane(a) && !IsSupported(a))
  }

  function UnavailableActions(steps: seq<PlaybookStep>, configured: set<Action>): seq<Action> {
    ActionsWhere(steps, (a: Action) => IsSupported(a) && !IsAvailable(a, configured))
  }

  /** What a playbook is refused for, each action named once. */
  function Objection(steps: seq<PlaybookStep>, configured: set<Action>): Option<Refusal> {
    if ControlPlaneActions(steps) != [] then Some(ControlPlaneOnly(Extend([], ControlPlaneActions(steps))))
    else if UnsupportedActions(steps) != [] then Some(Unsupported(Extend([], UnsupportedActions(steps))))
    else if UnavailableActions(steps, configured) != []
    then Some(NotConfigured(Extend([], UnavailableActions(steps, configured))))
    else None
  }

  // ---------------------------------------------------------------- the handlers as steps

  function CreatePlaybookStep(s: Store, id: string, tenant: string, steps: seq<PlaybookStep>, configured: set<Action>)
    : (Store, Reply)
  {
    if !(1 <= |steps| <= MAX_STEPS) then (s, Refused(InvalidPlaybook)) else
      var objection := Objection(steps, configured);
      if objection.Some? then (s, Refused(objection.value))
      else (s.(playbooks := s.playbooks[id := Playbook(tenant, true, steps)]), PlaybookReply(id))
  }

  predicate IsProposal(r: Run, tenant: string, key: string) {
    r.tenant == tenant && r.key == key
  }

  ghost predicate Proposal(runs: map<string, Run>, tenant: string, key: string, id: string) {
    id in runs && IsProposal(runs[id], tenant, key)
  }

  function NewRun(id: string, tenant: string, playbook: string, key: string, context: string, actor: string): Run {
    Run(id, tenant, playbook, key, context, actor, Proposed, 1, [], None, None)
  }

  /** What proposing does when no run of the tenant carries the key. */
  function ProposeNewStep(
      s: Store, id: string, tenant: string, playbook: string, key: string, context: string, actor: string,
      configured: set<Action>)
    : (Store, Reply)
  {
    if playbook !in s.playbooks || s.playbooks[playbook].tenant != tenant || !s.playbooks[playbook].enabled
    then (s, Refused(NotFound))
    else
      var objection := Objection(s.playbooks[playbook].steps, configured);
      if objection.Some? then (s, Refused(objection.value)) else
        var run := NewRun(id, tenant, playbook, key, context, actor);
        (s.(runs := s.runs[id := run]), RunReply(run))
  }

  predicate AwaitsApproval(r: Run) {
    r.state.Proposed? || r.state.PartiallyApproved?
  }

  predicate Visible(s: Store, run: string, tenant: string) {
    run in s.runs && s.runs[run].tenant == tenant
  }

  function ApprovedBy(r: Run, actor: string): Run {
    var approvals := r.approvals + [actor];
    r.(approvals := approvals, state := if |approvals| >= r.required then Approved else PartiallyApproved)
  }

  function ApproveStep(s: Store, run: string, tenant: string, actor: string): (Store, Reply) {
    if !Visible(s, run, tenant) then (s, Refused(NotFound))
    else if !AwaitsApproval(s.runs[run]) then (s, Refused(NotAwaitingApproval))
    else if actor in s.runs[run].approvals then (s, Refused(AlreadyApproved))
    else
      var r := ApprovedBy(s.runs[run], actor);
      (s.(runs := s.runs[run := r]), RunReply(r))
  }

  function RejectStep(s: Store, run: string, tenant: string, note: Option<string>): (Store, Reply) {
    if !Visible(s, run, tenant) then (s, Refused(NotFound))
    else if !AwaitsApproval(s.runs[run]) then (s, Refused(CannotReject))
    else
      var reason := if note.Some? && note.value != "" then note.value else "Rejected by approver.";
      var r := s.runs[run].(state := Rejected, rejectedReason := Some(reason));
      (s.(runs := s.runs[run := r]), RunReply(r))
  }

  function RowFor(r: Run, step: PlaybookStep, index: nat): OutboxRow {
    OutboxRow(r.tenant, r.id, index, step.action, step.target, r.context, step.payload, Outbox.IsInternal(step.action),
              r.id + ":" + Decimal(index))
  }

  function RowsFor(r: Run, steps: seq<PlaybookStep>): seq<OutboxRow> {
    seq(|steps|, i requires 0 <= i < |steps| => RowFor(r, steps[i], i))
  }

  function OfRun(run: string): OutboxRow -> bool {
    (row: OutboxRow) => row.run == run
  }

  /** The rows of a run. They stand in the order of their indexes, as the query asks for. */
  function RowsOf(outbox: seq<OutboxRow>, run: string): seq<OutboxRow> {
    Filter(OfRun(run), outbox)
  }

  function DispatchStep(s: Store, run: string, tenant: string, configured: set<Action>, now: int): (Store, Reply) {
    if !Visible(s, run, tenant) then (s, Refused(NotFound)) else
      var r := s.runs[run];
      if r.state.Dispatched? then (s, OutboxReply(RowsOf(s.outbox, run)))
      else if !r.state.Approved? then (s, Refused(NotApproved))
      else if r.playbook !in s.playbooks then (s, Refused(PlaybookUnavailable))
      else
        var steps := s.playbooks[r.playbook].steps;
        var objection := Objection(steps, configured);
        if objection.Some? then (s, Refused(objection.value)) else
          var rows := RowsFor(r, steps);
          (Store(s.playbooks, s.runs[run := r.(state := Dispatched, dispatchedAt := Some(now))], s.outbox + rows),
           OutboxReply(rows))
  }

  // ---------------------------------------------------------------- the handlers as they run

  method ValidateSteps(steps: seq<PlaybookStep>, configured: set<Action>) returns (objection: Option<Refusal>)
    ensures objection == Objection(steps, configured)
  {
    hide Extend;
    var unsupported, unconfigured, controlPlane: seq<Action> := [], [], [];
    var i := 0;
    while i < |steps|
      invariant 0 <= i <= |steps|
      invariant controlPlane == ControlPlaneActions(steps[..i])
      invariant unsupported == UnsupportedActions(steps[..i])
      invariant unconfigured == UnavailableActions(steps[..i], configured)
    {
      assert steps[..i + 1][..i] == steps[..i];
      var action := steps[i].action;
      if IsControlPlane(action) {
        controlPlane := controlPlane + [action];
      } else if !IsSupported(action) {
        unsupported := unsupported + [action];
      } else if !IsAvailable(action, configured) {
        unconfigured := unconfigured + [action];
      }
      i := i + 1;
    }
    assert steps[..i] == steps;
    if controlPlane != [] {
      objection := Some(ControlPlaneOnly(Extend([], controlPlane)));
    } else if unsupported != [] {
      objection := Some(Unsupported(Extend([], unsupported)));
    } else if unconfigured != [] {
      objection := Some(NotConfigured(Extend([], unconfigured)));
    } else {
      objection := None;
    }
  }

  class Orchestrator {
    var playbooks: map<string, Playbook>
    var runs: map<string, Run>
    var outbox: seq<OutboxRow>

    function Contents(): Store
      reads this
    {
      Store(playbooks, runs, outbox)
    }

    constructor ()
      ensures Contents() == Store(map[], map[], [])
    {
      playbooks, runs, outbox := map[], map[], [];
    }

    method CreatePlaybook(id: string, tenant: string, steps: seq<PlaybookStep>, configured: set<Action>)
      returns (reply: Reply)
      modifies this`playbooks
      ensures (Contents(), reply) == CreatePlaybookStep(old(Contents()), id, tenant, steps, configured)
    {
      hide Objection;
      if !(1 <= |steps| <= MAX_STEPS) {
        return Refused(InvalidPlaybook);
      }
      var objection := ValidateSteps(steps, configured);
      if objection.Some? {
        return Refused(objection.value);
      }
      playbooks := playbooks[id := Playbook(tenant, true, steps)];
      reply := PlaybookReply(id);
    }

    method FindProposal(tenant: string, key: string) returns (found: Option<string>)
      ensures found.Some? ==> Proposal(runs, tenant, key, found.value)
      ensures found.None? ==> forall id :: !Proposal(runs, tenant, key, id)
    {
      found := None;
      var ids := runs.Keys;
      while ids != {} && found.None?
        invariant ids <= runs.Keys
        invariant found.Some? ==> Proposal(runs, tenant, key, found.value)
        invariant found.None? ==> forall id :: id in runs && id !in ids ==> !Proposal(runs, tenant, key, id)
        decreases |ids|
      {
        var id :| id in ids;
        ids := ids - {id};
        if IsProposal(runs[id], tenant, key) {
          found := Some(id);
        }
      }
    }

    method ProposeRun(
        id: string, tenant: string, playbook: string, key: string, context: string, actor: string,
        configured: set<Action>)
      returns (reply: Reply)
      modifies this`runs
      ensures (exists known :: Proposal(old(runs), tenant, key, known)) ==>
        Contents() == old(Contents())
        && exists known :: Proposal(old(runs), tenant, key, known) && reply == RunReply(old(runs)[known])
      ensures !(exists known :: Proposal(old(runs), tenant, key, known)) ==>
        (Contents(), reply) == ProposeNewStep(old(Contents()), id, tenant, playbook, key, context, actor, configured)
    {
      hide Objection;
      var existing := FindProposal(tenant, key);
      if existing.Some? {
        return RunReply(runs[existing.value]);
      }
      if playbook !in playbooks || playbooks[playbook].tenant != tenant || !playbooks[playbook].enabled {
        return Refused(NotFound);
      }
      var objection := ValidateSteps(playbooks[playbook].steps, configured);
      if objection.Some? {
        return Refused(objection.value);
      }
      var run := NewRun(id, tenant, playbook, key, context, actor);
      runs := runs[id := run];
      reply := RunReply(run);
    }

    method ApproveRun(run: string, tenant: string, actor: string) returns (reply: Reply)
      modifies this`runs
      ensures (Contents(), reply) == ApproveStep(old(Contents()), run, tenant, actor)
    {
      if run !in runs || runs[run].tenant != tenant {
        return Refused(NotFound);
      }
      var r := runs[run];
      if !(r.state in {Proposed, PartiallyApproved}) {
        return Refused(NotAwaitingApproval);
      }
      if actor in r.approvals {
        return Refused(AlreadyApproved);
      }
      r := r.(approvals := r.approvals + [actor]);
      r := r.(state := if |r.approvals| >= r.required then Approved else PartiallyApproved);
      runs := runs[run := r];
      reply := RunReply(r);
    }

    method RejectRun(run: string, tenant: string, note: Option<string>) returns (reply: Reply)
      modifies this`runs
      ensures (Contents(), reply) == RejectStep(old(Contents()), run, tenant, note)
    {
      if run !in runs || runs[run].tenant != tenant {
        return Refused(NotFound);
      }
      var r := runs[run];
      if !(r.state in {Proposed, PartiallyApproved}) {
        return Refused(CannotReject);
      }
      r := r.(state := Rejected);
      r := r.(rejectedReason := Some(if note.Some? && note.value != "" then note.value else "Rejected by approver."));
      runs := runs[run := r];
      reply := RunReply(r);
    }

    method DispatchRun(run: string, tenant: string, configured: set<Action>, now: int) returns (reply: Reply)
      modifies this`runs, this`outbox
      ensures (Contents(), reply) == DispatchStep(old(Contents()), run, tenant, configured, now)
    {
      hide Objection, Filter, RowFor;
      if run !in runs || runs[run].tenant != tenant {
        return Refused(NotFound);
      }
      var r := runs[run];
      if r.state.Dispatched? {
        return OutboxReply(RowsOf(outbox, run));
      }
      if !r.state.Approved? {
        return Refused(NotApproved);
      }
      if r.playbook !in playbooks {
        return Refused(PlaybookUnavailable);
      }
      var steps := playbooks[r.playbook].steps;
      var objection := ValidateSteps(steps, configured);
      if objection.Some? {
        return Refused(objection.value);
      }
      var items := [];
      var index := 0;
      while index < |steps|
        invariant 0 <= index <= |steps| && runs == old(runs) && playbooks == old(playbooks)
        invariant items == RowsFor(r, steps)[..index] && outbox == old(outbox) + items
      {
        var item := RowFor(r, steps[index], index);
        outbox := outbox + [item];
        items := items + [item];
        index := index + 1;
      }
      assert RowsFor(r, steps)[..index] == RowsFor(r, steps);
      runs := runs[run := r.(state := Dispatched, dispatchedAt := Some(now))];
      reply := OutboxReply(items);
    }
  }
}
