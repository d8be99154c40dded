/** What holds in every reachable state of the endpoint-intent control plane. */
module IntentSafety {
  import opened Options
  import opened EndpointIntents

  // ---------------------------------------------------------------- the invariant

  ghost predicate IntentFine(i: Intent, approvers: set<string>, commanded: bool, clock: int) {
    && i.kind in ALLOWED_INTENTS
    && (i.state.Approved? ==> i.requestedBy !in approvers && |Others(approvers, i.requestedBy)| >= 2)
    && (i.state.Expired? ==> i.expiresAt <= clock)
    && (i.delivery.Some? ==> commanded)
    && (i.delivery.None? ==> i.deliveryResult.None?)
  }

  /** A command agrees with its intent, was approved by two others, and was acknowledged in time if at all. */
  ghost predicate CommandFine(c: Command, i: Intent, approvers: set<string>, clock: int) {
    && c.tenant == i.tenant && c.agent == i.agent && c.expiresAt == i.expiresAt
    && i.delivery == Some(c.state) && i.deliveryResult == c.result
    && |Others(approvers, i.requestedBy)| >= 2
    && (i.state.Approved? || i.state.Rejected? || i.state.Expired?)
    && c.availableAt <= clock && c.availableAt < c.expiresAt
    && (c.state.Available? ==> c.result.None?)
    && (c.state.Lapsed? ==> c.expiresAt <= clock && c.result == Some(WindowElapsed))
    && (Reportable(c.state) <==> c.acknowledgedAt.Some?)
    && (c.acknowledgedAt.Some? ==>
          c.availableAt <= c.acknowledgedAt.value < c.expiresAt && c.result.Some? && c.result.value.Reported?)
  }

  ghost predicate Commanded(cs: seq<Command>, id: string) {
    exists k :: 0 <= k < |cs| && cs[k].intent == id
  }

  ghost predicate DistinctCommands(cs: seq<Command>) {
    forall j, k :: 0 <= j < k < |cs| ==>
      cs[j].id != cs[k].id && cs[j].nonce != cs[k].nonce && cs[j].intent != cs[k].intent
  }

  /** No actor's approval of an intent is on record twice. */
  ghost predicate OneApprovalEach(audits: multiset<Audit>) {
    forall a, b :: a in audits && b in audits && SameApproval(a, b) ==> a == b && audits[a] == 1
  }

  predicate SameApproval(a: Audit, b: Audit) {
    a.event.ApprovedEvent? && b.event.ApprovedEvent? && a.intent == b.intent && a.actor == b.actor
  }

  ghost predicate AuditsFine(s: Store) {
    OneApprovalEach(s.audits) && forall a :: a in s.audits ==> a.intent in s.intents
  }

  ghost predicate IntentsFine(s: Store, clock: int) {
    forall id :: id in s.intents ==>
      IntentFine(s.intents[id], Approvers(s.audits, id), Commanded(s.commands, id), clock)
  }

  ghost predicate CommandsFine(s: Store, clock: int) {
    forall k :: 0 <= k < |s.commands| ==>
      s.commands[k].intent in s.intents &&
      CommandFine(s.commands[k], s.intents[s.commands[k].intent], Approvers(s.audits, s.commands[k].intent), clock)
  }

  ghost predicate Inv(s: Store, clock: int) {
    IntentsFine(s, clock) && CommandsFine(s, clock) && DistinctCommands(s.commands) && AuditsFine(s)
  }

  // ---------------------------------------------------------------- facts about audits and approvers

  lemma ApproversPush(audits: multiset<Audit>, a: Audit)
    ensures forall id ::
      Approvers(audits + multiset{a}, id)
      == Approvers(audits, id) + if a.event.ApprovedEvent? && a.intent == id then {a.actor} else {}
    ensures forall x :: x in audits + multiset{a} <==> x in audits || x == a
  {
  }

  lemma AuditsPush(s: Store, after: Store, a: Audit)
    requires AuditsFine(s) && after.audits == s.audits + multiset{a}
    requires s.intents.Keys <= after.intents.Keys && a.intent in after.intents
    requires a.event.ApprovedEvent? ==> a.actor !in Approvers(s.audits, a.intent)
    ensures AuditsFine(after)
  {
    ApproversPush(s.audits, a);
    forall x, y | x in after.audits && y in after.audits && SameApproval(x, y)
      ensures x == y && after.audits[x] == 1
    {
      assert x in s.audits && y == a ==> x.actor in Approvers(s.audits, a.intent);
      assert y in s.audits && x == a ==> y.actor in Approvers(s.audits, a.intent);
    }
  }

  lemma OthersGrow(approvers: set<string>, more: set<string>, requester: string)
    requires approvers <= more
    ensures |Others(approvers, requester)| <= |Others(more, requester)|
  {
    var a, b := Others(approvers, requester), Others(more, requester);
    assert b == a + (b - a);
  }

  lemma FineLater(i: Intent, approvers: set<string>, commanded: bool, clock: int, now: int)
    requires IntentFine(i, approvers, commanded, clock) && clock <= now
    ensures IntentFine(i, approvers, commanded, now)
  {
  }

  lemma CommandLater(c: Command, i: Intent, approvers: set<string>, clock: int, now: int)
    requires CommandFine(c, i, approvers, clock) && clock <= now
    ensures CommandFine(c, i, approvers, now)
  {
  }

  // ---------------------------------------------------------------- every step keeps it

  /** A step that changes at most the intent `id`, and no command, leaves every other row fine. */
  lemma OthersKept(s: Store, clock: int, after: Store, now: int, id: string)
    requires Inv(s, clock) && clock <= now && after.commands == s.commands
    requires after.intents.Keys == s.intents.Keys + {id}
    requires forall x :: x in s.intents && x != id ==> after.intents[x] == s.intents[x]
    requires forall x :: x in s.intents && x != id ==> Approvers(after.audits, x) == Approvers(s.audits, x)
    requires IntentFine(after.intents[id], Approvers(after.audits, id), Commanded(s.commands, id), now)
    requires forall k :: 0 <= k < |s.commands| && s.commands[k].intent == id ==>
      CommandFine(s.commands[k], after.intents[id], Approvers(after.audits, id), now)
    ensures IntentsFine(after, now) && CommandsFine(after, now)
  {
    hide IntentFine, CommandFine, Approvers, Commanded;
    forall x | x in after.intents && x != id
      ensures IntentFine(after.intents[x], Approvers(after.audits, x), Commanded(after.commands, x), now)
    {
      FineLater(s.intents[x], Approvers(s.audits, x), Commanded(s.commands, x), clock, now);
    }
    forall k | 0 <= k < |after.commands| && after.commands[k].intent != id
      ensures CommandFine(after.commands[k], after.intents[after.commands[k].intent],
                          Approvers(after.audits, after.commands[k].intent), now)
    {
      var c := s.commands[k];
      CommandLater(c, s.intents[c.intent], Approvers(s.audits, c.intent), clock, now);
    }
  }

  lemma CreateKeeps(s: Store, clock: int, e: Event)
    requires Inv(s, clock) && e.Create? && clock <= e.now
    ensures Inv(StepCreate(s, e).0, e.now)
  {
    hide CommandFine, IntentFine, Others, Approvers, ValidateIntent, Commanded;
    var after := StepCreate(s, e).0;
    if after == s {
      StillFine(s, clock, e.now);
    } else {
      var a := Audit(e.id, Actor(e.key), RequestedEvent, e.now);
      ApproversPush(s.audits, a);
      AuditsPush(s, after, a);
      NoApproversYet(s, e.id);
      NewIntentFine(e, Commanded(s.commands, e.id));
      assert Approvers(after.audits, e.id) == {};
      OthersKept(s, clock, after, e.now, e.id);
    }
  }

  lemma NewIntentFine(e: Event, commanded: bool)
    requires e.Create? && e.kind in ALLOWED_INTENTS
    ensures
      var state := ValidateIntent(e.kind, Actor(e.key), {}, e.expiresAt, e.now);
      IntentFine(Intent(e.tenant, e.agent, e.kind, state, Actor(e.key), e.expiresAt, None, None), {}, commanded, e.now)
  {
    assert Others({}, Actor(e.key)) == {};
  }

  lemma NoApproversYet(s: Store, id: string)
    requires AuditsFine(s) && id !in s.intents
    ensures Approvers(s.audits, id) == {}
  {
  }

  lemma StillFine(s: Store, clock: int, now: int)
    requires Inv(s, clock) && clock <= now
    ensures Inv(s, now)
  {
    hide IntentFine, CommandFine, Approvers, Commanded;
    forall x | x in s.intents
      ensures IntentFine(s.intents[x], Approvers(s.audits, x), Commanded(s.commands, x), now)
    {
      FineLater(s.intents[x], Approvers(s.audits, x), Commanded(s.commands, x), clock, now);
    }
    forall k | 0 <= k < |s.commands|
      ensures
        CommandFine(s.commands[k], s.intents[s.commands[k].intent], Approvers(s.audits, s.commands[k].intent), now)
    {
      var c := s.commands[k];
      CommandLater(c, s.intents[c.intent], Approvers(s.audits, c.intent), clock, now);
    }
  }

  /** A further approval of an approved or commanded intent can only confirm, reject or expire it. */
  lemma ApprovedRow(i: Intent, approvers: set<string>, actor: string, commanded: bool, clock: int, now: int)
    requires IntentFine(i, approvers, commanded, clock) && clock <= now && actor != ""
    ensures
      var more := approvers + {actor};
      var decision := ValidateIntent(i.kind, i.requestedBy, more, i.expiresAt, now);
      && IntentFine(i.(state := decision), more, commanded, now)
      && forall c :: CommandFine(c, i, approvers, clock) ==> CommandFine(c, i.(state := decision), more, now)
  {
    hide Others;
    OthersGrow(approvers, approvers + {actor}, i.requestedBy);
  }

  lemma ApproveKeeps(s: Store, clock: int, e: Event)
    requires Inv(s, clock) && e.Approve? && clock <= e.now
    ensures Inv(StepApprove(s, e).0, e.now)
  {
    hide IntentFine, CommandFine, Others, ValidateIntent, Commanded;
    var after := StepApprove(s, e).0;
    if after == s {
      StillFine(s, clock, e.now);
    } else {
      var i := s.intents[e.id];
      var a := Audit(e.id, Actor(e.key), ApprovedEvent(after.intents[e.id].state), e.now);
      ApproversPush(s.audits, a);
      AuditsPush(s, after, a);
      assert Actor(e.key) != "";
      ApprovedRow(i, Approvers(s.audits, e.id), Actor(e.key), Commanded(s.commands, e.id), clock, e.now);
      OthersKept(s, clock, after, e.now, e.id);
    }
  }

  lemma CancelKeeps(s: Store, clock: int, e: Event)
    requires Inv(s, clock) && e.Cancel? && clock <= e.now
    ensures Inv(StepCancel(s, e).0, e.now)
  {
    hide Others, Commanded, Approvers;
    var after := StepCancel(s, e).0;
    if after == s {
      StillFine(s, clock, e.now);
    } else {
      var a := Audit(e.id, Actor(e.key), CancelledEvent, e.now);
      ApproversPush(s.audits, a);
      AuditsPush(s, after, a);
      OthersKept(s, clock, after, e.now, e.id);
    }
  }

  lemma PublishKeeps(s: Store, clock: int, e: Event)
    requires Inv(s, clock) && e.Publish? && clock <= e.now
    ensures Inv(StepPublish(s, e).0, e.now)
  {
    hide Others, Approvers, IntentFine, CommandFine, Commanded;
    StillFine(s, clock, e.now);
    var after := StepPublish(s, e).0;
    if after != s {
      var i, c := s.intents[e.id], after.commands[|s.commands|];
      CommandedMeans(s.commands, e.id);
      NewCommandFine(i, Approvers(s.audits, e.id), Commanded(s.commands, e.id), e.now, c);
      assert forall k :: 0 <= k < |s.commands| ==> after.commands[k] == s.commands[k] && s.commands[k].intent != e.id;
      CommandedPush(s.commands, c);
      forall id | id in after.intents
        ensures IntentFine(after.intents[id], Approvers(after.audits, id), Commanded(after.commands, id), e.now)
      {
      }
    }
  }

  lemma CommandedMeans(cs: seq<Command>, id: string)
    ensures Commanded(cs, id) <==> Find(cs, (c: Command) => c.intent == id).Some?
  {
  }

  lemma CommandedPush(cs: seq<Command>, c: Command)
    ensures forall id :: Commanded(cs + [c], id) <==> Commanded(cs, id) || id == c.intent
  {
    assert (cs + [c])[|cs|] == c;
    forall id ensures Commanded(cs + [c], id) <==> Commanded(cs, id) || id == c.intent {
      if Commanded(cs, id) {
        var k :| 0 <= k < |cs| && cs[k].intent == id;
        assert (cs + [c])[k].intent == id;
      }
    }
  }

  lemma NewCommandFine(i: Intent, approvers: set<string>, commanded: bool, now: int, c: Command)
    requires IntentFine(i, approvers, commanded, now) && i.state.Approved? && now < i.expiresAt
    requires c.tenant == i.tenant && c.agent == i.agent && c.expiresAt == i.expiresAt && c.state.Available?
    requires c.availableAt == now && c.acknowledgedAt.None? && c.result.None? && !commanded
    ensures IntentFine(i.(delivery := Some(Available)), approvers, true, now)
    ensures CommandFine(c, i.(delivery := Some(Available)), approvers, now)
  {
  }

  lemma AckKeeps(s: Store, clock: int, e: Event)
    requires Inv(s, clock) && e.Ack? && clock <= e.now
    ensures Inv(StepAck(s, e).0, e.now)
  {
    hide Others, Approvers, IntentFine, CommandFine, Commanded;
    StillFine(s, clock, e.now);
    var after := StepAck(s, e).0;
    if after != s {
      var at := Find(s.commands, (c: Command) => c.id == e.commandId && c.agent == e.agent).value;
      var c, done := s.commands[at], after.commands[at];
      AckedFine(c, s.intents[c.intent], Approvers(s.audits, c.intent), Commanded(s.commands, c.intent), e, done);
      assert forall k :: 0 <= k < |s.commands| ==> after.commands[k].intent == s.commands[k].intent;
      forall id ensures Commanded(after.commands, id) == Commanded(s.commands, id) {
        CommandedSame(s.commands, after.commands, id);
      }
      assert forall k :: 0 <= k < |s.commands| && k != at ==>
        after.commands[k] == s.commands[k] && s.commands[k].intent != c.intent;
    }
  }

  lemma CommandedSame(cs: seq<Command>, ds: seq<Command>, id: string)
    requires |cs| == |ds| && forall k :: 0 <= k < |cs| ==> cs[k].intent == ds[k].intent
    ensures Commanded(cs, id) == Commanded(ds, id)
  {
  }

  lemma AckedFine(c: Command, i: Intent, approvers: set<string>, commanded: bool, e: Event, done: Command)
    requires e.Ack? && CommandFine(c, i, approvers, e.now) && IntentFine(i, approvers, commanded, e.now)
    requires Reportable(e.outcome) && e.now < c.expiresAt && c.state.Available?
    requires done == c.(state := e.outcome, result := Some(Reported(e.payload)), acknowledgedAt := Some(e.now))
    ensures
      var j := i.(delivery := Some(e.outcome), deliveryResult := done.result);
      IntentFine(j, approvers, commanded, e.now) && CommandFine(done, j, approvers, e.now)
  {
  }

  /** In a fine store, whether an intent's command is late can be read off the intent. */
  function CloseDelivery(i: Intent, now: int): Intent {
    if i.delivery == Some(Available) && i.expiresAt <= now
    then i.(delivery := Some(Lapsed), deliveryResult := Some(WindowElapsed)) else i
  }

  function SettleIntent(i: Intent, now: int): Intent {
    CloseDelivery(CloseWindow(i, now), now)
  }

  lemma LateShows(s: Store, clock: int, now: int, id: string)
    requires Inv(s, clock) && id in s.intents
    ensures LateFor(s.commands, id, now) <==>
      s.intents[id].delivery == Some(Available) && s.intents[id].expiresAt <= now
  {
    hide Others, Approvers;
    if s.intents[id].delivery == Some(Available) && s.intents[id].expiresAt <= now {
      var k :| 0 <= k < |s.commands| && s.commands[k].intent == id;
      assert Late(s.commands[k], now);
    }
  }

  /** In a fine store the sweep settles every intent by itself. */
  lemma SweepSettles(s: Store, clock: int, now: int)
    requires Inv(s, clock)
    ensures SweepIntents(s.intents, s.commands, now).Keys == s.intents.Keys
    ensures forall id :: id in s.intents ==>
      SweepIntents(s.intents, s.commands, now)[id] == SettleIntent(s.intents[id], now)
  {
    hide LateFor, Inv;
    forall id | id in s.intents
      ensures SweepIntents(s.intents, s.commands, now)[id] == SettleIntent(s.intents[id], now)
    {
      LateShows(s, clock, now, id);
    }
  }

  lemma SettledFine(i: Intent, approvers: set<string>, commanded: bool, now: int)
    requires IntentFine(i, approvers, commanded, now)
    ensures IntentFine(SettleIntent(i, now), approvers, commanded, now)
    ensures forall c :: CommandFine(c, i, approvers, now) ==>
      CommandFine(SweepCommand(c, now), SettleIntent(i, now), approvers, now)
  {
    hide Others;
  }

  lemma SweepAuditsFine(s: Store, now: int, after: Store)
    requires AuditsFine(s) && after.intents.Keys == s.intents.Keys
    requires after.audits == s.audits + SweepAudits(OverdueIds(s.intents, now), now)
    ensures AuditsFine(after)
    ensures forall id :: Approvers(after.audits, id) == Approvers(s.audits, id)
  {
    var more := SweepAudits(OverdueIds(s.intents, now), now);
    assert forall x :: x in more ==> x.event.ExpiredEvent? && x.intent in s.intents;
    assert forall x :: x in after.audits <==> x in s.audits || x in more;
  }

  lemma SweepKeeps(s: Store, clock: int, e: Event)
    requires Inv(s, clock) && e.Sweep? && clock <= e.now
    ensures Inv(StepSweep(s, e).0, e.now)
  {
    hide Others, Approvers, IntentFine, CommandFine, Commanded, AuditsFine, SweepAudits, SettleIntent, SweepCommand,
      SweepIntents, OverdueIds;
    StillFine(s, clock, e.now);
    var after := StepSweep(s, e).0;
    SweepSettles(s, clock, e.now);
    SweepAuditsFine(s, e.now, after);
    SameCommandNames(s.commands, e.now);
    forall id ensures Commanded(after.commands, id) == Commanded(s.commands, id) {
      CommandedSame(s.commands, after.commands, id);
    }
    forall id | id in s.intents
      ensures IntentFine(after.intents[id], Approvers(after.audits, id), Commanded(after.commands, id), e.now)
      ensures forall c :: CommandFine(c, s.intents[id], Approvers(s.audits, id), e.now) ==>
        CommandFine(SweepCommand(c, e.now), after.intents[id], Approvers(after.audits, id), e.now)
    {
      SettledFine(s.intents[id], Approvers(s.audits, id), Commanded(s.commands, id), e.now);
    }
  }

  lemma SameCommandNames(cs: seq<Command>, now: int)
    ensures |SweepCommands(cs, now)| == |cs|
    ensures forall k :: 0 <= k < |cs| ==>
      var c := SweepCommands(cs, now)[k];
      c == SweepCommand(cs[k], now) && c.id == cs[k].id && c.nonce == cs[k].nonce && c.intent == cs[k].intent
  {
  }

  /** Every step keeps the invariant. */
  lemma StepKeeps(s: Store, clock: int, e: Event)
    requires Inv(s, clock) && clock <= e.now
    ensures Inv(Step(s, e).0, e.now)
  {
    hide Inv, StepCreate, StepApprove, StepCancel, StepPublish, StepAck, StepSweep;
    match e
    case Create(_, _, _, _, _, _, _) => CreateKeeps(s, clock, e);
    case Approve(_, _, _, _) => ApproveKeeps(s, clock, e);
    case Cancel(_, _, _, _) => CancelKeeps(s, clock, e);
    case Publish(_, _, _, _, _) => PublishKeeps(s, clock, e);
    case Poll(_, _) => StillFine(s, clock, e.now);
    case Ack(_, _, _, _, _, _) => AckKeeps(s, clock, e);
    case View(_, _, _) => StillFine(s, clock, e.now);
    case Sweep(_) => SweepKeeps(s, clock, e);
  }

  // ---------------------------------------------------------------- what follows, in every reachable state

  function Start(agents: map<string, string>): Store {
    Store(agents, map[], multiset{}, [])
  }

  lemma {:induction false} RunKeeps(s: Store, clock: int, es: seq<Event>, end: int)
    requires Inv(s, clock) && InOrder(es, clock) && clock <= end
    requires forall i :: 0 <= i < |es| ==> es[i].now <= end
    ensures Inv(Run(s, es), end)
    decreases |es|
  {
    hide Inv;
    if es == [] {
      StillFine(s, clock, end);
    } else {
      StepKeeps(s, clock, es[0]);
      RunKeeps(Step(s, es[0]).0, es[0].now, es[1..], end);
    }
  }

  ghost predicate Reachable(s: Store, clock: int) {
    exists agents, es, start :: ReachedBy(s, clock, agents, es, start)
  }

  ghost predicate ReachedBy(s: Store, clock: int, agents: map<string, string>, es: seq<Event>, start: int) {
    && s == Run(Start(agents), es) && start <= clock && InOrder(es, start)
    && forall i :: 0 <= i < |es| ==> es[i].now <= clock
  }

  lemma ReachableIsFine(s: Store, clock: int)
    requires Reachable(s, clock)
    ensures Inv(s, clock)
  {
    var agents, es, start :| ReachedBy(s, clock, agents, es, start);
    RunKeeps(Start(agents), start, es, clock);
  }

  /** Approval safety: `approved`, or a command, means two recorded approvers other than the requester; while the
      state is `approved` the requester is not among the approvers; and no approval is on record twice. */
  lemma ApprovalSafety(s: Store, clock: int, id: string)
    requires Reachable(s, clock) && id in s.intents
    ensures s.intents[id].state.Approved? || Commanded(s.commands, id) ==>
      |Others(Approvers(s.audits, id), s.intents[id].requestedBy)| >= 2
    ensures s.intents[id].state.Approved? ==> s.intents[id].requestedBy !in Approvers(s.audits, id)
    ensures s.intents[id].state.Cancelled? ==> !Commanded(s.commands, id)
    ensures OneApprovalEach(s.audits)
  {
    hide Others, Approvers;
    ReachableIsFine(s, clock);
  }

  /** Once the requester has approved, no later state of any continuation is `approved`. */
  lemma RequesterSpoilsApproval(s: Store, clock: int, id: string, es: seq<Event>, i: nat)
    requires Inv(s, clock) && id in s.intents && InOrder(es, clock) && i <= |es|
    requires s.intents[id].requestedBy in Approvers(s.audits, id)
    ensures id in Run(s, es[..i]).intents && !Run(s, es[..i]).intents[id].state.Approved?
  {
    var end := if i == 0 then clock else es[i - 1].now;
    RunKeeps(s, clock, es[..i], end);
    RunMonotone(s, es[..i], id);
  }

  lemma IntentKeepsNames(s: Store, e: Event, id: string)
    requires id in s.intents
    ensures id in Step(s, e).0.intents
    ensures Step(s, e).0.intents[id].requestedBy == s.intents[id].requestedBy
    ensures Step(s, e).0.intents[id].expiresAt == s.intents[id].expiresAt
  {
    hide StepCreate, StepApprove, StepCancel, StepPublish, StepAck, StepSweep;
    match e
    case Sweep(_) => SweepKeepsNames(s, e, id);
    case Ack(_, _, _, _, _, _) => AckKeepsNames(s, e, id);
    case Poll(_, _) =>
    case View(_, _, _) =>
    case _ => RequestKeepsNames(s, e, id);
  }

  ghost predicate NamesKept(s: Store, t: Store, id: string)
    requires id in s.intents
  {
    id in t.intents && t.intents[id].requestedBy == s.intents[id].requestedBy
    && t.intents[id].expiresAt == s.intents[id].expiresAt
  }

  lemma SweepKeepsNames(s: Store, e: Event, id: string)
    requires id in s.intents && e.Sweep?
    ensures NamesKept(s, StepSweep(s, e).0, id)
  {
    hide LateFor, SweepAudits, OverdueIds, SweepCommands, LateCount;
  }

  lemma AckKeepsNames(s: Store, e: Event, id: string)
    requires id in s.intents && e.Ack?
    ensures NamesKept(s, StepAck(s, e).0, id)
  {
    hide Find;
  }

  lemma RequestKeepsNames(s: Store, e: Event, id: string)
    requires id in s.intents && !e.Sweep? && !e.Ack?
    ensures NamesKept(s, Step(s, e).0, id)
  {
    hide Find, Ready, Approvers, ValidateIntent;
  }

  lemma AuditsGrow(s: Store, e: Event)
    ensures s.audits <= Step(s, e).0.audits && |s.commands| <= |Step(s, e).0.commands|
  {
    hide Find, Others, Ready, LateFor, Approvers, ValidateIntent, SweepAudits, OverdueIds, SweepCommand, SweepIntents;
    hide LateCount;
  }

  lemma StepMonotone(s: Store, e: Event, id: string)
    requires id in s.intents
    ensures id in Step(s, e).0.intents
    ensures Step(s, e).0.intents[id].requestedBy == s.intents[id].requestedBy
    ensures Step(s, e).0.intents[id].expiresAt == s.intents[id].expiresAt
    ensures Approvers(s.audits, id) <= Approvers(Step(s, e).0.audits, id)
    ensures s.audits <= Step(s, e).0.audits && |s.commands| <= |Step(s, e).0.commands|
  {
    hide Step, Approvers;
    IntentKeepsNames(s, e, id);
    AuditsGrow(s, e);
    ApproversGrow(s.audits, Step(s, e).0.audits, id);
  }

  lemma ApproversGrow(a: multiset<Audit>, b: multiset<Audit>, id: string)
    requires a <= b
    ensures Approvers(a, id) <= Approvers(b, id)
  {
  }

  lemma {:induction false} RunMonotone(s: Store, es: seq<Event>, id: string)
    requires id in s.intents
    ensures id in Run(s, es).intents && Run(s, es).intents[id].requestedBy == s.intents[id].requestedBy
    ensures Approvers(s.audits, id) <= Approvers(Run(s, es).audits, id)
    decreases |es|
  {
    hide Step, Approvers;
    if es != [] {
      StepMonotone(s, es[0], id);
      RunMonotone(Step(s, es[0]).0, es[1..], id);
    }
  }

  /** `expired` is absorbing. */
  lemma ExpiredStays(s: Store, clock: int, e: Event, id: string)
    requires Inv(s, clock) && clock <= e.now && id in s.intents && s.intents[id].state.Expired?
    ensures id in Step(s, e).0.intents && Step(s, e).0.intents[id].state.Expired?
  {
    hide Others, Approvers, Find, LateFor;
    StepMonotone(s, e, id);
  }

  /** `cancelled` is left by every approval of that intent within its tenant by an actor who has not approved it
      yet, and by nothing else. */
  lemma CancelledLeftByApproval(s: Store, e: Event, id: string)
    requires id in s.intents && s.intents[id].state.Cancelled?
    ensures id in Step(s, e).0.intents
    ensures !Step(s, e).0.intents[id].state.Cancelled? <==>
      e.Approve? && e.id == id && Owns(s, e.tenant, id) && Actor(e.key) !in Approvers(s.audits, id)
  {
    hide Others, Approvers, Find, LateFor;
    StepMonotone(s, e, id);
  }

  /** A cancelled intent that two further actors approve in time is approved after all. */
  lemma CancelledRevives(s: Store, a: Event, b: Event)
    requires a.Approve? && b.Approve? && a.id == b.id && Owns(s, a.tenant, a.id) && b.tenant == a.tenant
    requires s.intents[a.id].state.Cancelled? && s.intents[a.id].kind in ALLOWED_INTENTS
    requires Approvers(s.audits, a.id) == {} && Actor(a.key) != Actor(b.key)
    requires s.intents[a.id].requestedBy !in {Actor(a.key), Actor(b.key)}
    requires a.now < s.intents[a.id].expiresAt && b.now < s.intents[a.id].expiresAt
    ensures
      var after := Run(s, [a, b]);
      a.id in after.intents && after.intents[a.id].state.Approved?
  {
    hide Approvers;
    var x, y, requester := Actor(a.key), Actor(b.key), s.intents[a.id].requestedBy;
    var one := Step(s, a).0;
    ApproversPush(s.audits, Audit(a.id, x, ApprovedEvent(one.intents[a.id].state), a.now));
    assert Approvers(one.audits, a.id) == {x};
    assert x != "" && y != "" && Others({x, y}, requester) == {x, y};
    assert [a, b][1..] == [b] && [b][1..] == [];
    assert Approvers(one.audits, a.id) + {y} == {x, y};
    assert Step(one, b).0.intents[a.id].state.Approved?;
    assert Run(s, [a, b]) == Run(one, [b]) == Run(Step(one, b).0, []);
  }

  /** Intent and command agree, there is at most one command per intent, and no result is recorded at or after
      expiry. */
  lemma IntentCommandAgreement(s: Store, clock: int, id: string)
    requires Reachable(s, clock) && id in s.intents
    ensures s.intents[id].delivery.None? <==> !Commanded(s.commands, id)
    ensures forall k :: 0 <= k < |s.commands| && s.commands[k].intent == id ==>
      && s.intents[id].delivery == Some(s.commands[k].state) && s.intents[id].deliveryResult == s.commands[k].result
    ensures forall j, k :: 0 <= j < k < |s.commands| ==> s.commands[j].intent != s.commands[k].intent
    ensures forall k :: 0 <= k < |s.commands| && s.commands[k].result.Some? && s.commands[k].result.value.Reported? ==>
      s.commands[k].acknowledgedAt.Some? && s.commands[k].acknowledgedAt.value < s.commands[k].expiresAt
  {
    hide Others, Approvers;
    ReachableIsFine(s, clock);
  }

  /** Every command state but `available` is absorbing: the row never changes again. */
  lemma ClosedCommandStays(s: Store, e: Event, k: nat)
    requires k < |s.commands| && !s.commands[k].state.Available?
    ensures k < |Step(s, e).0.commands| && Step(s, e).0.commands[k] == s.commands[k]
  {
    hide Others, Approvers, LateFor, Ready;
  }

  lemma {:induction false} NothingLate(cs: seq<Command>, now: int)
    ensures LateCount(SweepCommands(cs, now), now) == 0
    ensures SweepCommands(SweepCommands(cs, now), now) == SweepCommands(cs, now)
    ensures forall id :: !LateFor(SweepCommands(cs, now), id, now)
  {
    if cs != [] {
      var front := cs[..|cs| - 1];
      NothingLate(front, now);
      assert SweepCommands(cs, now)[..|cs| - 1] == SweepCommands(front, now);
    }
  }

  lemma NothingOverdue(intents: map<string, Intent>, cs: seq<Command>, now: int)
    ensures OverdueIds(SweepIntents(intents, cs, now), now) == {}
  {
    hide LateFor;
  }

  /** Sweeping again at the same time finds nothing left to do. */
  lemma SweepTwice(s: Store, e: Event)
    requires e.Sweep?
    ensures StepSweep(StepSweep(s, e).0, e) == (StepSweep(s, e).0, Swept(0))
  {
    hide SweepCommands, LateCount, OverdueIds, LateFor;
    var once := StepSweep(s, e).0;
    NothingLate(s.commands, e.now);
    NothingOverdue(s.intents, s.commands, e.now);
    assert SweepAudits({}, e.now) == multiset{};
    forall id | id in once.intents ensures SweepIntents(once.intents, once.commands, e.now)[id] == once.intents[id] {
      hide SweepIntents;
      SweptStays(s.intents, s.commands, e.now, id);
      SweptAlone(once.intents, once.commands, e.now, id);
    }
    assert SweepIntents(once.intents, once.commands, e.now) == once.intents;
    assert once.audits + multiset{} == once.audits;
  }

  lemma SweptStays(intents: map<string, Intent>, cs: seq<Command>, now: int, id: string)
    requires id in intents
    ensures id in SweepIntents(intents, cs, now) && !Overdue(SweepIntents(intents, cs, now)[id], now)
  {
    hide LateFor;
  }

  lemma SweptAlone(intents: map<string, Intent>, cs: seq<Command>, now: int, id: string)
    requires id in intents && !Overdue(intents[id], now) && !LateFor(cs, id, now)
    ensures id in SweepIntents(intents, cs, now) && SweepIntents(intents, cs, now)[id] == intents[id]
  {
  }
}
