/** Automation runs retold from the requests alone, and what each request is told. */
module OrchestrationHistory {
  import opened Options
  import opened Sequences
  import opened OrderedUnion
  import opened Orchestration
  import opened OrchestrationSafety
  import Outbox = OutboxDelivery

  // ---------------------------------------------------------------- playbooks and runs as their requests make them

  /** A worker delivers the action: a connector when it is configured, the internal one always. */
  predicate Deliverable(a: Action, configured: set<Action>) {
    || (a in {Outbox.SlackNotify, Outbox.JiraIssueCreate, Outbox.SiemPush} && a in configured)
    || a in {Outbox.CaseCreate, Outbox.ReportGenerate}
  }

  predicate AllDeliverable(steps: seq<PlaybookStep>, configured: set<Action>) {
    forall i :: 0 <= i < |steps| ==> Deliverable(steps[i].action, configured)
  }

  /** One to twenty steps, all of them deliverable. */
  predicate Stores(e: Event)
    requires e.CreatePlaybook?
  {
    1 <= |e.steps| <= 20 && AllDeliverable(e.steps, e.configured)
  }

  /** The request that stored the playbook. */
  function PlaybookOf(es: seq<Event>, id: string): (made: Option<Event>)
    ensures made.Some? ==> made.value.CreatePlaybook?
  {
    if es == [] then None else
      var before, e := PlaybookOf(es[..|es| - 1], id), es[|es| - 1];
      if before.None? && e.CreatePlaybook? && e.id == id && Stores(e) then Some(e) else before
  }

  /** The run is of an enabled playbook of the tenant that can be delivered now, under a key not proposed before. */
  predicate Proposes(playbook: Option<Event>, taken: set<(string, string)>, e: Event)
    requires playbook.Some? ==> playbook.value.CreatePlaybook?
  {
    && e.Propose? && playbook.Some? && playbook.value.tenant == e.tenant
    && AllDeliverable(playbook.value.steps, e.configured) && (e.tenant, e.key) !in taken
  }

  function TakenKeys(es: seq<Event>): set<(string, string)> {
    if es == [] then {} else
      var front, e := es[..|es| - 1], es[|es| - 1];
      TakenKeys(front) +
      if e.Propose? && Proposes(PlaybookOf(front, e.playbook), TakenKeys(front), e) then {(e.tenant, e.key)} else {}
  }

  /** The request that proposed the run, who approved it, and where that leaves it. */
  datatype Story = Story(
    made: Event, actors: seq<string>, state: RunState, reason: Option<string>, dispatchedAt: Option<int>)

  function ReasonOf(note: Option<string>): string {
    if note == None || note == Some("") then "Rejected by approver." else note.value
  }

  /** One approval approves, a rejection rejects for good, and what is approved can be dispatched while it can be
      delivered. */
  function Next(story: Story, playbook: Option<Event>, e: Event, id: string): Story
    requires story.made.Propose? && (playbook.Some? ==> playbook.value.CreatePlaybook?)
  {
    if e.Approve? && e.run == id && e.tenant == story.made.tenant && story.state == Proposed
    then story.(actors := [e.actor], state := Approved)
    else if e.Reject? && e.run == id && e.tenant == story.made.tenant && story.state == Proposed
    then story.(state := Rejected, reason := Some(ReasonOf(e.note)))
    else if e.Dispatch? && e.run == id && e.tenant == story.made.tenant && story.state == Approved
         && playbook.Some? && AllDeliverable(playbook.value.steps, e.configured)
    then story.(state := Dispatched, dispatchedAt := Some(e.now))
    else story
  }

  function Later(
      playbook: Option<Event>, taken: set<(string, string)>, before: Option<Story>, e: Event, id: string): Option<Story>
    requires before.Some? ==> before.value.made.Propose?
    requires playbook.Some? ==> playbook.value.CreatePlaybook?
  {
    if before.Some? then Some(Next(before.value, playbook, e, id))
    else if Proposes(playbook, taken, e) && e.id == id then Some(Story(e, [], Proposed, None, None))
    else None
  }

  /** The playbook that the request is about: the proposed one, or that of the run. */
  function About(es: seq<Event>, story: Option<Story>, e: Event): (playbook: Option<Event>)
    requires story.Some? ==> story.value.made.Propose?
    ensures playbook.Some? ==> playbook.value.CreatePlaybook?
  {
    if story.Some? then PlaybookOf(es, story.value.made.playbook)
    else if e.Propose? then PlaybookOf(es, e.playbook) else None
  }

  function StoryOf(es: seq<Event>, id: string): (story: Option<Story>)
    ensures story.Some? ==> story.value.made.Propose? && story.value.made.id == id
  {
    if es == [] then None else
      var front, e := es[..|es| - 1], es[|es| - 1];
      var before := StoryOf(front, id);
      Later(About(front, before, e), TakenKeys(front), before, e, id)
  }

  // ---------------------------------------------------------------- the tables

  ghost predicate PlaybookTold(made: Option<Event>, s: Store, id: string) {
    if made.Some?
    then made.value.CreatePlaybook? && id in s.playbooks
         && s.playbooks[id] == Playbook(made.value.tenant, true, made.value.steps)
    else id !in s.playbooks
  }

  ghost predicate KeysTold(taken: set<(string, string)>, s: Store) {
    forall tenant, key :: (tenant, key) in taken <==> AlreadyProposed(s, tenant, key)
  }

  ghost predicate RunTold(story: Option<Story>, s: Store, id: string) {
    if story.Some?
    then
      var made := story.value.made;
      && made.Propose? && id in s.runs
      && s.runs[id] == Run(id, made.tenant, made.playbook, made.key, made.context, made.actor, story.value.state, 1,
                           story.value.actors, story.value.reason, story.value.dispatchedAt)
    else id !in s.runs
  }

  /** A run that waits has no approval, and none waits for a second one. */
  predicate StoryFine(story: Option<Story>) {
    story.Some? ==>
      story.value.state != PartiallyApproved && (story.value.state == Proposed ==> story.value.actors == [])
  }

  lemma DeliverableIs(steps: seq<PlaybookStep>, configured: set<Action>)
    ensures AllDeliverable(steps, configured) <==> Objection(steps, configured).None?
  {
    hide Objection;
    AcceptedExactly(steps, configured);
    assert forall i :: 0 <= i < |steps| ==>
      (Deliverable(steps[i].action, configured) <==>
        IsSupported(steps[i].action) && IsAvailable(steps[i].action, configured));
  }

  lemma PlaybookFollows(s: Store, made: Option<Event>, e: Event, id: string)
    requires PlaybookTold(made, s, id) && Fresh(s, e)
    ensures PlaybookTold(
      if made.None? && e.CreatePlaybook? && e.id == id && Stores(e) then Some(e) else made, Apply(s, e), id)
  {
    hide Objection, AllDeliverable, RowsFor, RowsOf, AlreadyProposed;
    if e.CreatePlaybook? {
      DeliverableIs(e.steps, e.configured);
    }
  }

  lemma KeysFollow(s: Store, taken: set<(string, string)>, playbook: Option<Event>, e: Event)
    requires KeysTold(taken, s) && Fresh(s, e) && (playbook.Some? ==> playbook.value.CreatePlaybook?)
    requires e.Propose? ==> PlaybookTold(playbook, s, e.playbook)
    ensures KeysTold(taken + if Proposes(playbook, taken, e) then {(e.tenant, e.key)} else {}, Apply(s, e))
  {
    hide Objection, AllDeliverable, RowsFor, RowsOf, AlreadyProposed;
    if e.Propose? {
      assert (e.tenant, e.key) in taken <==> AlreadyProposed(s, e.tenant, e.key);
      if playbook.Some? {
        DeliverableIs(playbook.value.steps, e.configured);
      }
      if Proposes(playbook, taken, e) {
        ProposedMore(s, e);
      }
    } else {
      SameProposals(s, e);
    }
  }

  lemma ProposedMore(s: Store, e: Event)
    requires e.Propose? && e.id !in s.runs
    ensures
      var t := s.(runs := s.runs[e.id := NewRun(e.id, e.tenant, e.playbook, e.key, e.context, e.actor)]);
      forall tenant, key :: AlreadyProposed(t, tenant, key) <==>
        AlreadyProposed(s, tenant, key) || (tenant == e.tenant && key == e.key)
  {
    var t := s.(runs := s.runs[e.id := NewRun(e.id, e.tenant, e.playbook, e.key, e.context, e.actor)]);
    assert Proposal(t.runs, e.tenant, e.key, e.id);
    forall tenant, key ensures AlreadyProposed(t, tenant, key) <==>
        AlreadyProposed(s, tenant, key) || (tenant == e.tenant && key == e.key)
    {
      if AlreadyProposed(s, tenant, key) {
        var id :| Proposal(s.runs, tenant, key, id);
        assert Proposal(t.runs, tenant, key, id);
      }
      if AlreadyProposed(t, tenant, key) {
        var id :| Proposal(t.runs, tenant, key, id);
        assert id != e.id ==> Proposal(s.runs, tenant, key, id);
      }
    }
  }

  /** Runs keep their tenants and their keys, and only proposals add any. */
  ghost predicate SameNames(s: Store, t: Store) {
    s.runs.Keys == t.runs.Keys
    && forall id :: id in s.runs ==> t.runs[id].tenant == s.runs[id].tenant && t.runs[id].key == s.runs[id].key
  }

  lemma NamesStay(s: Store, e: Event)
    requires !e.Propose?
    ensures SameNames(s, Apply(s, e))
  {
    hide Objection, RowsFor, RowsOf;
  }

  lemma SameProposals(s: Store, e: Event)
    requires !e.Propose?
    ensures forall tenant, key :: AlreadyProposed(Apply(s, e), tenant, key) <==> AlreadyProposed(s, tenant, key)
  {
    hide Apply;
    NamesStay(s, e);
    assert forall tenant, key, id :: Proposal(Apply(s, e).runs, tenant, key, id) <==> Proposal(s.runs, tenant, key, id);
  }

  ghost predicate Follows(
      playbook: Option<Event>, taken: set<(string, string)>, story: Option<Story>, s: Store, e: Event, id: string) {
    && (story.Some? ==> story.value.made.Propose?) && (playbook.Some? ==> playbook.value.CreatePlaybook?)
    && RunTold(Later(playbook, taken, story, e, id), Apply(s, e), id)
    && StoryFine(Later(playbook, taken, story, e, id))
  }

  lemma ProposeFollows(
      s: Store, taken: set<(string, string)>, playbook: Option<Event>, story: Option<Story>, e: Event, id: string)
    requires e.Propose? && Fresh(s, e) && KeysTold(taken, s) && RunTold(story, s, id) && StoryFine(story)
    requires playbook.Some? ==> playbook.value.CreatePlaybook?
    requires story.None? ==> PlaybookTold(playbook, s, e.playbook)
    ensures Follows(playbook, taken, story, s, e, id)
  {
    hide Objection, AllDeliverable, AlreadyProposed;
    assert (e.tenant, e.key) in taken <==> AlreadyProposed(s, e.tenant, e.key);
    if playbook.Some? {
      DeliverableIs(playbook.value.steps, e.configured);
    }
  }

  lemma DispatchFollows(
      s: Store, taken: set<(string, string)>, playbook: Option<Event>, story: Option<Story>, e: Event, id: string)
    requires e.Dispatch? && RunTold(story, s, id) && StoryFine(story)
    requires playbook.Some? ==> playbook.value.CreatePlaybook?
    requires story.Some? ==> PlaybookTold(playbook, s, story.value.made.playbook)
    ensures Follows(playbook, taken, story, s, e, id)
  {
    hide Objection, AllDeliverable, RowsFor, RowsOf;
    if playbook.Some? {
      DeliverableIs(playbook.value.steps, e.configured);
    }
  }

  lemma DecisionFollows(
      s: Store, taken: set<(string, string)>, playbook: Option<Event>, story: Option<Story>, e: Event, id: string)
    requires (e.Approve? || e.Reject?) && RunTold(story, s, id) && StoryFine(story)
    requires playbook.Some? ==> playbook.value.CreatePlaybook?
    ensures Follows(playbook, taken, story, s, e, id)
  {
  }

  lemma CreationFollows(
      s: Store, taken: set<(string, string)>, playbook: Option<Event>, story: Option<Story>, e: Event, id: string)
    requires e.CreatePlaybook? && RunTold(story, s, id) && StoryFine(story)
    requires playbook.Some? ==> playbook.value.CreatePlaybook?
    ensures Follows(playbook, taken, story, s, e, id)
  {
    hide Objection;
  }

  lemma {:induction false} PlaybooksFollowRequests(es: seq<Event>, id: string)
    requires FreshRun(Empty(), es)
    ensures PlaybookTold(PlaybookOf(es, id), RunAll(Empty(), es), id)
  {
    hide Apply, PlaybookTold, Fresh, AllDeliverable;
    if es == [] {
      assert PlaybookTold(None, Empty(), id) by { NothingTold(id); }
    } else {
      PlaybooksFollowRequests(es[..|es| - 1], id);
      PlaybookFollows(RunAll(Empty(), es[..|es| - 1]), PlaybookOf(es[..|es| - 1], id), es[|es| - 1], id);
    }
  }

  lemma NothingTold(id: string)
    ensures PlaybookTold(None, Empty(), id) && KeysTold({}, Empty()) && RunTold(None, Empty(), id) && StoryFine(None)
  {
  }

  lemma {:induction false} KeysFollowRequests(es: seq<Event>)
    requires FreshRun(Empty(), es)
    ensures KeysTold(TakenKeys(es), RunAll(Empty(), es))
  {
    hide Apply, PlaybookTold, Fresh, KeysTold, Proposes;
    if es == [] {
      NothingTold("");
    } else {
      var front, e := es[..|es| - 1], es[|es| - 1];
      KeysFollowRequests(front);
      var playbook := if e.Propose? then PlaybookOf(front, e.playbook) else None;
      if e.Propose? {
        PlaybooksFollowRequests(front, e.playbook);
      } else {
        NotProposing(playbook, TakenKeys(front), e);
      }
      KeysFollow(RunAll(Empty(), front), TakenKeys(front), playbook, e);
    }
  }

  lemma NotProposing(playbook: Option<Event>, taken: set<(string, string)>, e: Event)
    requires !e.Propose? && (playbook.Some? ==> playbook.value.CreatePlaybook?)
    ensures !Proposes(playbook, taken, e)
  {
  }

  /** After any requests the row of every run is the one its own requests tell of: there is one exactly if it was
      proposed from a playbook that could be delivered and under a new key, and it is waiting, approved, rejected or
      dispatched as they left it. */
  lemma {:induction false} RunsFollowRequests(es: seq<Event>, id: string)
    requires FreshRun(Empty(), es)
    ensures RunTold(StoryOf(es, id), RunAll(Empty(), es), id) && StoryFine(StoryOf(es, id))
  {
    hide Apply, PlaybookTold, Fresh, KeysTold, RunTold, StoryFine, Later, Follows;
    if es == [] {
      NothingTold(id);
    } else {
      var front, e := es[..|es| - 1], es[|es| - 1];
      var s, story := RunAll(Empty(), front), StoryOf(front, id);
      RunsFollowRequests(front, id);
      KeysFollowRequests(front);
      if story.Some? {
        PlaybooksFollowRequests(front, story.value.made.playbook);
      } else if e.Propose? {
        PlaybooksFollowRequests(front, e.playbook);
      }
      StepFollows(s, TakenKeys(front), About(front, story, e), story, e, id);
      Followed(About(front, story, e), TakenKeys(front), story, s, e, id);
    }
  }

  lemma StepFollows(
      s: Store, taken: set<(string, string)>, playbook: Option<Event>, story: Option<Story>, e: Event, id: string)
    requires Fresh(s, e) && KeysTold(taken, s) && RunTold(story, s, id) && StoryFine(story)
    requires playbook.Some? ==> playbook.value.CreatePlaybook?
    requires story.Some? ==> story.value.made.Propose? && PlaybookTold(playbook, s, story.value.made.playbook)
    requires story.None? && e.Propose? ==> PlaybookTold(playbook, s, e.playbook)
    ensures Follows(playbook, taken, story, s, e, id)
  {
    hide Apply, PlaybookTold, Fresh, KeysTold, RunTold, StoryFine, Follows;
    match e
    case CreatePlaybook(_, _, _, _) => CreationFollows(s, taken, playbook, story, e, id);
    case Propose(_, _, _, _, _, _, _) => ProposeFollows(s, taken, playbook, story, e, id);
    case Dispatch(_, _, _, _) => DispatchFollows(s, taken, playbook, story, e, id);
    case _ => DecisionFollows(s, taken, playbook, story, e, id);
  }

  lemma Followed(
      playbook: Option<Event>, taken: set<(string, string)>, story: Option<Story>, s: Store, e: Event, id: string)
    requires Follows(playbook, taken, story, s, e, id)
    ensures (story.Some? ==> story.value.made.Propose?) && (playbook.Some? ==> playbook.value.CreatePlaybook?)
    ensures RunTold(Later(playbook, taken, story, e, id), Apply(s, e), id)
    ensures StoryFine(Later(playbook, taken, story, e, id))
  {
    hide Apply, RunTold, StoryFine, Later;
  }

  // ---------------------------------------------------------------- decisions, for good

  ghost function Before(es: seq<Event>): Store {
    RunAll(Empty(), es)
  }

  /** The run is one of the tenant, and waits for a decision. */
  predicate Waits(story: Option<Story>, tenant: string)
    requires story.Some? ==> story.value.made.Propose?
  {
    story.Some? && story.value.made.tenant == tenant && story.value.state == Proposed
  }

  predicate Known(story: Option<Story>, tenant: string)
    requires story.Some? ==> story.value.made.Propose?
  {
    story.Some? && story.value.made.tenant == tenant
  }

  lemma {:induction false} RejectedStays(es: seq<Event>, rest: seq<Event>, id: string)
    requires StoryOf(es, id).Some? && StoryOf(es, id).value.state == Rejected
    ensures StoryOf(es + rest, id) == StoryOf(es, id)
  {
    hide Proposes, AllDeliverable;
    if rest == [] {
      assert es + rest == es;
    } else {
      var n := |rest| - 1;
      assert (es + rest)[..|es + rest| - 1] == es + rest[..n];
      RejectedStays(es, rest[..n], id);
    }
  }

  lemma {:induction false} ApprovedStays(es: seq<Event>, rest: seq<Event>, id: string)
    requires StoryOf(es, id).Some? && StoryOf(es, id).value.state in {Approved, Dispatched}
    ensures StoryOf(es + rest, id).Some?
    ensures StoryOf(es + rest, id).value.state in {Approved, Dispatched}
    ensures StoryOf(es + rest, id).value.actors == StoryOf(es, id).value.actors
    ensures StoryOf(es + rest, id).value.reason == StoryOf(es, id).value.reason
  {
    hide Proposes, AllDeliverable;
    if rest == [] {
      assert es + rest == es;
    } else {
      var n := |rest| - 1;
      assert (es + rest)[..|es + rest| - 1] == es + rest[..n];
      ApprovedStays(es, rest[..n], id);
    }
  }

  lemma {:induction false} FreshPrefix(es: seq<Event>, rest: seq<Event>)
    requires FreshRun(Empty(), es + rest)
    ensures FreshRun(Empty(), es)
  {
    hide Fresh, Apply;
    if rest == [] {
      assert es + rest == es;
    } else {
      var n := |rest| - 1;
      assert (es + rest)[..|es + rest| - 1] == es + rest[..n];
      FreshPrefix(es, rest[..n]);
    }
  }

  /** A rejection of a waiting run rejects it, with the note or the default reason, and for good: whatever follows,
      the run is never dispatched and has no rows. */
  lemma RejectionRejects(es: seq<Event>, e: Event, rest: seq<Event>)
    requires FreshRun(Empty(), es + [e] + rest) && e.Reject? && Waits(StoryOf(es, e.run), e.tenant)
    ensures
      var s := Before(es + [e] + rest);
      && e.run in s.runs && s.runs[e.run].state == Rejected
      && s.runs[e.run].rejectedReason ==
         Some(if e.note == None || e.note == Some("") then "Rejected by approver." else e.note.value)
      && s.runs[e.run].dispatchedAt == None && RowsOf(s.outbox, e.run) == []
  {
    hide RunAll, FreshRun, RowsOf, Proposes, AllDeliverable, Before;
    var all := es + [e] + rest;
    assert (es + [e])[..|es|] == es;
    RejectedStays(es + [e], rest, e.run);
    RunsFollowRequests(all, e.run);
    SameBefore(all);
    NoRowsUnlessDispatched(all, e.run);
    NoDateBefore(es, rest, e);
  }

  lemma SameBefore(es: seq<Event>)
    ensures Before(es) == RunAll(Empty(), es)
  {
  }

  lemma NoDateBefore(es: seq<Event>, rest: seq<Event>, e: Event)
    requires FreshRun(Empty(), es + [e] + rest) && e.Reject? && Waits(StoryOf(es, e.run), e.tenant)
    ensures StoryOf(es, e.run).value.dispatchedAt == None
  {
    hide RunAll, FreshRun, Proposes;
    assert es + [e] + rest == es + ([e] + rest);
    FreshPrefix(es, [e] + rest);
    RunsFollowRequests(es, e.run);
    RunsAreOk(es, e.run);
  }

  lemma RunsAreOk(es: seq<Event>, id: string)
    requires FreshRun(Empty(), es) && id in RunAll(Empty(), es).runs
    ensures RunOk(RunAll(Empty(), es).runs[id])
  {
    hide RunAll, FreshRun, Inv, RunOk;
    EmptyIsOk();
    RunKeeps(Empty(), es);
    RunIsOk(RunAll(Empty(), es), id);
  }

  lemma NoRowsUnlessDispatched(es: seq<Event>, id: string)
    requires FreshRun(Empty(), es) && id in RunAll(Empty(), es).runs && !RunAll(Empty(), es).runs[id].state.Dispatched?
    ensures RowsOf(RunAll(Empty(), es).outbox, id) == []
  {
    hide RunAll, FreshRun, RowsOf;
    assert Reachable(RunAll(Empty(), es));
    RowsExactlyWhenDispatched(RunAll(Empty(), es), id);
  }

  /** An approval of a waiting run approves it, by this actor alone and for good: whatever follows, it is approved or
      dispatched, and never rejected. */
  lemma ApprovalApproves(es: seq<Event>, e: Event, rest: seq<Event>)
    requires FreshRun(Empty(), es + [e] + rest) && e.Approve? && Waits(StoryOf(es, e.run), e.tenant)
    ensures
      var s := Before(es + [e] + rest);
      && e.run in s.runs && s.runs[e.run].approvals == [e.actor]
      && s.runs[e.run].state in {Approved, Dispatched} && (rest == [] ==> s.runs[e.run].state == Approved)
  {
    hide RunAll, FreshRun, Proposes, AllDeliverable, Before;
    assert (es + [e])[..|es|] == es && es + [e] + [] == es + [e];
    ApprovedStays(es + [e], rest, e.run);
    RunsFollowRequests(es + [e] + rest, e.run);
    SameBefore(es + [e] + rest);
  }

  /** What a decision is told: any other changes nothing and is refused. */
  lemma DecisionReply(es: seq<Event>, e: Event)
    requires FreshRun(Empty(), es) && (e.Approve? || e.Reject?)
    ensures
      var story, s := StoryOf(es, e.run), Before(es);
      var (after, r) := if e.Approve? then ApproveStep(s, e.run, e.tenant, e.actor)
                        else RejectStep(s, e.run, e.tenant, e.note);
      if !Known(story, e.tenant) then after == s && r == Refused(NotFound)
      else if !Waits(story, e.tenant)
      then after == s && r == Refused(if e.Approve? then NotAwaitingApproval else CannotReject)
      else e.run in after.runs && r == RunReply(after.runs[e.run])
  {
    hide RunAll, FreshRun, StoryOf;
    RunsFollowRequests(es, e.run);
  }

  /** What a dispatch is told: the rows of the run, new or made before, or why there are none. */
  lemma DispatchReply(es: seq<Event>, e: Event)
    requires FreshRun(Empty(), es) && e.Dispatch?
    ensures
      var story, s := StoryOf(es, e.run), Before(es);
      var (after, r) := DispatchStep(s, e.run, e.tenant, e.configured, e.now);
      && (!Known(story, e.tenant) ==> r == Refused(NotFound))
      && (Known(story, e.tenant) && story.value.state !in {Approved, Dispatched} ==> r == Refused(NotApproved))
      && (Known(story, e.tenant) && story.value.state in {Approved, Dispatched} ==>
            var playbook := PlaybookOf(es, story.value.made.playbook);
            && playbook.Some?
            && (r.OutboxReply? <==>
                  story.value.state == Dispatched || AllDeliverable(playbook.value.steps, e.configured)))
      && (r.OutboxReply? ==> r.rows == RowsOf(after.outbox, e.run))
      && (!r.OutboxReply? ==> after == s)
  {
    hide RunAll, FreshRun, StoryOf, RowsOf, Objection, AllDeliverable, PlaybookOf, RowsFor, Inv;
    var s, story := Before(es), StoryOf(es, e.run);
    RunsFollowRequests(es, e.run);
    EmptyIsOk();
    RunKeeps(Empty(), es);
    if Known(story, e.tenant) {
      RunIsOk(s, e.run);
      PlaybooksFollowRequests(es, story.value.made.playbook);
      DeliverableIs(PlaybookOf(es, story.value.made.playbook).value.steps, e.configured);
      if story.value.state == Approved {
        NoRowsUnlessDispatched(es, e.run);
        RowsOfMore(s.outbox, s.runs[e.run], s.playbooks[s.runs[e.run].playbook].steps, e.run);
      }
    }
  }

  // ---------------------------------------------------------------- proposals and objections

  /** What a proposal is told: the run it made, or the one that its key made before. */
  lemma ProposalReply(es: seq<Event>, e: Event)
    requires FreshRun(Empty(), es) && e.Propose? && Fresh(Before(es), e)
    ensures
      var taken, s, playbook := TakenKeys(es), Before(es), PlaybookOf(es, e.playbook);
      && ((e.tenant, e.key) in taken <==> AlreadyProposed(s, e.tenant, e.key))
      && ((e.tenant, e.key) !in taken ==>
            var (after, r) := ProposeNewStep(s, e.id, e.tenant, e.playbook, e.key, e.context, e.actor, e.configured);
            && (r == Refused(NotFound) <==> playbook.None? || playbook.value.tenant != e.tenant)
            && (r.RunReply? <==> Proposes(playbook, taken, e))
            && (r.RunReply? ==> e.id in after.runs && r.run == after.runs[e.id])
            && (!r.RunReply? ==> after == s))
  {
    hide RunAll, FreshRun, Objection, AllDeliverable, PlaybookOf, TakenKeys, AlreadyProposed;
    KeysFollowRequests(es);
    PlaybooksFollowRequests(es, e.playbook);
    var playbook := PlaybookOf(es, e.playbook);
    if playbook.Some? {
      DeliverableIs(playbook.value.steps, e.configured);
      ObjectsOtherwise(playbook.value.steps, e.configured);
    }
  }

  lemma ObjectsOtherwise(steps: seq<PlaybookStep>, configured: set<Action>)
    ensures Objection(steps, configured) != Some(NotFound)
  {
    hide Extend, ControlPlaneActions, UnsupportedActions, UnavailableActions;
  }

  /** What is wrong with an action: it is for the control plane, or no worker knows it, or its connector is missing. */
  datatype Fault = ForControlPlane | NotKnown | Missing

  function FaultOf(a: Action, configured: set<Action>): Option<Fault> {
    if a == Outbox.EndpointCommandRequest then Some(ForControlPlane)
    else if a in {Outbox.CaseCreate, Outbox.ReportGenerate} then None
    else if a !in {Outbox.SlackNotify, Outbox.JiraIssueCreate, Outbox.SiemPush} then Some(NotKnown)
    else if a !in configured then Some(Missing)
    else None
  }

  predicate AnyFault(steps: seq<PlaybookStep>, configured: set<Action>, f: Fault) {
    exists i :: 0 <= i < |steps| && FaultOf(steps[i].action, configured) == Some(f)
  }

  /** The list names every action with this fault, and no other, once. */
  ghost predicate NamesFaults(list: seq<Action>, steps: seq<PlaybookStep>, configured: set<Action>, f: Fault) {
    && Distinct(list)
    && forall a :: a in list <==>
      FaultOf(a, configured) == Some(f) && exists i :: 0 <= i < |steps| && steps[i].action == a
  }

  lemma {:induction false} ActionsAre(steps: seq<PlaybookStep>, keep: Action -> bool)
    ensures forall a :: a in ActionsWhere(steps, keep) <==>
      keep(a) && exists i :: 0 <= i < |steps| && steps[i].action == a
  {
    if steps != [] {
      var n := |steps| - 1;
      ActionsAre(steps[..n], keep);
      assert forall i :: 0 <= i < n ==> steps[..n][i] == steps[i];
    }
  }

  lemma NamedFaults(steps: seq<PlaybookStep>, configured: set<Action>, keep: Action -> bool, f: Fault)
    requires forall a :: keep(a) <==> FaultOf(a, configured) == Some(f)
    ensures NamesFaults(Extend([], ActionsWhere(steps, keep)), steps, configured, f)
    ensures ActionsWhere(steps, keep) != [] <==> AnyFault(steps, configured, f)
  {
    hide FaultOf, ActionsWhere;
    ActionsAre(steps, keep);
    ExtendElements([], ActionsWhere(steps, keep));
    var list := ActionsWhere(steps, keep);
    if list != [] {
      assert list[0] in list;
    }
    if i :| 0 <= i < |steps| && FaultOf(steps[i].action, configured) == Some(f) {
      assert steps[i].action in list;
    }
  }

  /** Steps are objected to for their worst fault: actions of the control plane come before unknown ones, and these
      before missing connectors; and the objection names all actions with that fault, each once. */
  lemma ObjectionsNameFaults(steps: seq<PlaybookStep>, configured: set<Action>)
    ensures
      var o := Objection(steps, configured);
      if AnyFault(steps, configured, ForControlPlane)
      then o.Some? && o.value.ControlPlaneOnly? && NamesFaults(o.value.actions, steps, configured, ForControlPlane)
      else if AnyFault(steps, configured, NotKnown)
      then o.Some? && o.value.Unsupported? && NamesFaults(o.value.actions, steps, configured, NotKnown)
      else if AnyFault(steps, configured, Missing)
      then o.Some? && o.value.NotConfigured? && NamesFaults(o.value.actions, steps, configured, Missing)
      else o == None
  {
    hide ActionsWhere, Extend, NamesFaults, AnyFault;
    NamedFaults(steps, configured, (a: Action) => IsControlPlane(a), ForControlPlane);
    NamedFaults(steps, configured, (a: Action) => !IsControlPlane(a) && !IsSupported(a), NotKnown);
    NamedFaults(steps, configured, (a: Action) => IsSupported(a) && !IsAvailable(a, configured), Missing);
  }
}
