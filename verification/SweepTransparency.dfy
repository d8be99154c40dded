/** What the expiry sweep lets the other parties notice: by the gist of the replies, and by the replies themselves. */
module SweepTransparency {
  import opened Options
  import opened EndpointIntents
  import opened IntentSafety

  /** How closely replies are looked at. */
  datatype Detail = Gist | FullReply

  /** Of a reply, either all of it but the audit trail of a single intent, or its gist: refusals, decisions, the
      identity of an issued command, polled commands, recorded results and effective states. The gist of an
      acknowledgement that came too late is the same whether the handler refuses it or answers with the command it
      finds closed. */
  datatype Observation =
    | Whole(response: Response)
    | Refusal(response: Response)
    | Decided(state: IntentState)
    | IssuedAs(id: string, nonce: string, expiresAt: int)
    | PolledAs(commands: seq<Command>)
    | Recorded(outcome: CommandState, result: Option<Outcome>)
    | ClosedAs(outcome: CommandState)
    | EffectiveIs(state: IntentState)

  function Observe(d: Detail, r: Response): Observation {
    if d.FullReply? then Whole(r) else
      match r
      case Intended(i) => Decided(i.state)
      case Issued(c) => IssuedAs(c.id, c.nonce, c.expiresAt)
      case Polled(cs) => PolledAs(cs)
      case Acknowledged(c, recorded) => if recorded then Recorded(c.state, c.result) else ClosedAs(c.state)
      case CommandExpired => ClosedAs(Lapsed)
      case Viewed(_, effective) => EffectiveIs(effective)
      case _ => Refusal(r)
  }

  /** Everything observed during a run; sweeps are not addressed to anyone. */
  function Observations(d: Detail, s: Store, es: seq<Event>): seq<Observation>
    decreases |es|
  {
    if es == [] then []
    else (if es[0].Sweep? then [] else [Observe(d, Step(s, es[0]).1)]) + Observations(d, Step(s, es[0]).0, es[1..])
  }

  function WithoutSweeps(es: seq<Event>): seq<Event> {
    if es == [] then []
    else (if es[0].Sweep? then [] else [es[0]]) + WithoutSweeps(es[1..])
  }

  // ---------------------------------------------------------------- requests whose reply tells of a missing sweep

  /** A cancellation accepted although the approval window has already closed. */
  predicate LateCancel(s: Store, e: Event) {
    e.Cancel? && Owns(s, e.tenant, e.id) && Overdue(s.intents[e.id], e.now)
  }

  /** An acknowledgement of a command whose window has closed without being marked so. */
  predicate LateAck(s: Store, e: Event) {
    && e.Ack? && Reportable(e.outcome)
    && var at := Find(s.commands, (c: Command) => c.id == e.commandId && c.agent == e.agent);
       at.Some? && s.commands[at.value].nonce == e.nonce && Late(s.commands[at.value], e.now)
  }

  /** Publishing again an intent whose command has gone late. */
  predicate LateRepublish(s: Store, e: Event) {
    && e.Publish? && Owns(s, e.tenant, e.id)
    && var existing := Find(s.commands, (c: Command) => c.intent == e.id);
       existing.Some? && Late(s.commands[existing.value], e.now)
  }

  predicate DeliveryLate(i: Intent, now: int) {
    i.delivery == Some(Available) && i.expiresAt <= now
  }

  /** An approval that is taken, of an intent whose command has gone late. */
  predicate LateApproval(s: Store, e: Event) {
    e.Approve? && Owns(s, e.tenant, e.id) && Actor(e.key) !in Approvers(s.audits, e.id)
    && DeliveryLate(s.intents[e.id], e.now)
  }

  /** A look at an intent whose approval window or whose command's window has closed. */
  predicate LateView(s: Store, e: Event) {
    e.View? && Owns(s, e.tenant, e.id) && (Overdue(s.intents[e.id], e.now) || DeliveryLate(s.intents[e.id], e.now))
  }

  predicate Telling(d: Detail, s: Store, e: Event) {
    LateCancel(s, e)
    || (d.FullReply? && (LateAck(s, e) || LateRepublish(s, e) || LateApproval(s, e) || LateView(s, e)))
  }

  predicate NoTelling(d: Detail, s: Store, es: seq<Event>)
    decreases |es|
  {
    es == [] || (!Telling(d, s, es[0]) && NoTelling(d, Step(s, es[0]).0, es[1..]))
  }

  // ---------------------------------------------------------------- a store and the same store with sweeps

  ghost predicate IntentAhead(i: Intent, j: Intent, now: int) {
    && j == i.(state := j.state, delivery := j.delivery, deliveryResult := j.deliveryResult)
    && (j.state == i.state || (Overdue(i, now) && j.state.Expired?))
    && ((j.delivery == i.delivery && j.deliveryResult == i.deliveryResult)
        || (i.delivery == Some(Available) && i.expiresAt <= now
            && j.delivery == Some(Lapsed) && j.deliveryResult == Some(WindowElapsed)))
  }

  ghost predicate CommandAhead(c: Command, d: Command, now: int) {
    d == c || (Late(c, now) && d == SweepCommand(c, now))
  }

  /** `b` is `a`, perhaps with some elapsed rows already swept. */
  ghost predicate Ahead(a: Store, b: Store, now: int) {
    && a.agents == b.agents
    && a.intents.Keys == b.intents.Keys
    && (forall id :: id in a.intents ==> IntentAhead(a.intents[id], b.intents[id], now))
    && (forall id :: Approvers(a.audits, id) == Approvers(b.audits, id))
    && CommandsAhead(a.commands, b.commands, now)
  }

  ghost predicate CommandsAhead(cs: seq<Command>, ds: seq<Command>, now: int) {
    |cs| == |ds| && forall k :: 0 <= k < |cs| ==> CommandAhead(cs[k], ds[k], now)
  }

  lemma AheadLater(a: Store, b: Store, clock: int, now: int)
    requires Ahead(a, b, clock) && clock <= now
    ensures Ahead(a, b, now)
  {
    hide Approvers;
    assert forall id :: id in a.intents ==> IntentAhead(a.intents[id], b.intents[id], clock);
  }

  /** A search by anything but state finds the same position on both sides. */
  lemma {:induction false} FindAhead(cs: seq<Command>, ds: seq<Command>, now: int, p: Command -> bool)
    requires CommandsAhead(cs, ds, now)
    requires forall c, state, result :: p(c) == p(c.(state := state, result := result))
    ensures Find(cs, p) == Find(ds, p)
  {
    if cs != [] {
      var n := |cs| - 1;
      assert CommandsAhead(cs[..n], ds[..n], now);
      FindAhead(cs[..n], ds[..n], now, p);
      assert ds[n] == cs[n].(state := ds[n].state, result := ds[n].result);
    }
  }

  lemma {:induction false} ReadyAhead(cs: seq<Command>, ds: seq<Command>, agent: string, now: int)
    requires CommandsAhead(cs, ds, now)
    ensures Ready(cs, agent, now) == Ready(ds, agent, now)
  {
    if cs != [] {
      var n := |cs| - 1;
      assert CommandsAhead(cs[..n], ds[..n], now);
      ReadyAhead(cs[..n], ds[..n], agent, now);
    }
  }

  // ---------------------------------------------------------------- steps keep the relation

  lemma SweepAhead(a: Store, b: Store, e: Event)
    requires Ahead(a, b, e.now) && Inv(b, e.now) && e.Sweep?
    ensures Ahead(a, StepSweep(b, e).0, e.now)
  {
    hide Approvers, IntentsFine, CommandsFine, SweepIntents, AuditsFine, SweepCommands, CommandsAhead, IntentAhead;
    hide SettleIntent, OverdueIds, SweepAudits;
    var after := StepSweep(b, e).0;
    SweepSettles(b, e.now, e.now);
    SweepAuditsFine(b, e.now, after);
    SweptCommandsAhead(a.commands, b.commands, e.now);
    forall id | id in a.intents ensures IntentAhead(a.intents[id], after.intents[id], e.now) {
      SettledIntentAhead(a.intents[id], b.intents[id], e.now);
    }
  }

  lemma SweptCommandsAhead(cs: seq<Command>, ds: seq<Command>, now: int)
    requires CommandsAhead(cs, ds, now)
    ensures CommandsAhead(cs, SweepCommands(ds, now), now)
  {
    SameCommandNames(ds, now);
    forall k | 0 <= k < |cs| ensures CommandAhead(cs[k], SweepCommands(ds, now)[k], now) {
      assert CommandAhead(cs[k], ds[k], now);
    }
  }

  lemma SettledIntentAhead(i: Intent, j: Intent, now: int)
    requires IntentAhead(i, j, now)
    ensures IntentAhead(i, SettleIntent(j, now), now)
  {
  }

  lemma ApproversSame(a: Store, b: Store, x: Audit)
    requires forall id :: Approvers(a.audits, id) == Approvers(b.audits, id)
    ensures forall id :: Approvers(a.audits + multiset{x}, id) == Approvers(b.audits + multiset{x}, id)
  {
    ApproversPush(a.audits, x);
    ApproversPush(b.audits, x);
  }

  lemma CreateAhead(a: Store, b: Store, e: Event)
    requires Ahead(a, b, e.now) && e.Create?
    ensures Ahead(StepCreate(a, e).0, StepCreate(b, e).0, e.now)
    ensures Observe(Gist, StepCreate(a, e).1) == Observe(Gist, StepCreate(b, e).1)
    ensures StepCreate(a, e).1 == StepCreate(b, e).1
  {
    hide Approvers, ValidateIntent, CommandsAhead;
    ApproversSame(a, b, Audit(e.id, Actor(e.key), RequestedEvent, e.now));
  }

  lemma ApproveAhead(a: Store, b: Store, e: Event)
    requires Ahead(a, b, e.now) && e.Approve?
    ensures Ahead(StepApprove(a, e).0, StepApprove(b, e).0, e.now)
    ensures Observe(Gist, StepApprove(a, e).1) == Observe(Gist, StepApprove(b, e).1)
    ensures !LateApproval(a, e) ==> StepApprove(a, e).1 == StepApprove(b, e).1
  {
    hide Approvers, ValidateIntent, CommandsAhead;
    if Owns(a, e.tenant, e.id) {
      var i := a.intents[e.id];
      assert IntentAhead(i, b.intents[e.id], e.now);
      var approvers := Approvers(a.audits, e.id) + {Actor(e.key)};
      var decision := ValidateIntent(i.kind, i.requestedBy, approvers, i.expiresAt, e.now);
      ApproversSame(a, b, Audit(e.id, Actor(e.key), ApprovedEvent(decision), e.now));
    } else if e.id in a.intents {
      assert IntentAhead(a.intents[e.id], b.intents[e.id], e.now);
    }
  }

  lemma CancelAhead(a: Store, b: Store, e: Event)
    requires Ahead(a, b, e.now) && e.Cancel? && !LateCancel(a, e)
    ensures Ahead(StepCancel(a, e).0, StepCancel(b, e).0, e.now)
    ensures Observe(Gist, StepCancel(a, e).1) == Observe(Gist, StepCancel(b, e).1)
    ensures StepCancel(a, e).1 == StepCancel(b, e).1
  {
    hide Approvers, CommandsAhead;
    ApproversSame(a, b, Audit(e.id, Actor(e.key), CancelledEvent, e.now));
    if e.id in a.intents {
      assert IntentAhead(a.intents[e.id], b.intents[e.id], e.now);
    }
  }

  lemma PublishAhead(a: Store, b: Store, e: Event)
    requires Ahead(a, b, e.now) && e.Publish?
    ensures Ahead(StepPublish(a, e).0, StepPublish(b, e).0, e.now)
    ensures Observe(Gist, StepPublish(a, e).1) == Observe(Gist, StepPublish(b, e).1)
    ensures !LateRepublish(a, e) ==> StepPublish(a, e).1 == StepPublish(b, e).1
  {
    hide Approvers, Find;
    FindAhead(a.commands, b.commands, e.now, (c: Command) => c.intent == e.id);
    FindAhead(a.commands, b.commands, e.now, (c: Command) => c.id == e.commandId || c.nonce == e.nonce);
    if e.id in a.intents {
      assert IntentAhead(a.intents[e.id], b.intents[e.id], e.now);
    }
  }

  lemma AckAhead(a: Store, b: Store, e: Event)
    requires Ahead(a, b, e.now) && e.Ack?
    ensures Ahead(StepAck(a, e).0, StepAck(b, e).0, e.now)
    ensures Observe(Gist, StepAck(a, e).1) == Observe(Gist, StepAck(b, e).1)
    ensures !LateAck(a, e) ==> StepAck(a, e).1 == StepAck(b, e).1
  {
    hide Approvers, Find, CommandsAhead;
    var p := (c: Command) => c.id == e.commandId && c.agent == e.agent;
    FindAhead(a.commands, b.commands, e.now, p);
    FindIn(a.commands, p);
    if Find(a.commands, p).Some? {
      var at := Find(a.commands, p).value;
      var c := a.commands[at];
      CommandsAheadAt(a.commands, b.commands, e.now, at);
      CommandsAheadSet(a.commands, b.commands, e.now, at, c.(state := e.outcome, result := Some(Reported(e.payload)),
      acknowledgedAt := Some(e.now)));
      if c.intent in a.intents {
        assert IntentAhead(a.intents[c.intent], b.intents[c.intent], e.now);
      }
    }
  }

  lemma CommandsAheadAt(cs: seq<Command>, ds: seq<Command>, now: int, at: nat)
    requires CommandsAhead(cs, ds, now) && at < |cs|
    ensures at < |ds| && CommandAhead(cs[at], ds[at], now)
  {
  }

  lemma CommandsAheadSet(cs: seq<Command>, ds: seq<Command>, now: int, at: nat, c: Command)
    requires CommandsAhead(cs, ds, now) && at < |cs|
    ensures at < |ds| && CommandsAhead(cs[at := c], ds[at := c], now)
  {
    hide CommandAhead;
    assert CommandAhead(c, c, now) by { SameCommandAhead(c, now); }
  }

  lemma SameCommandAhead(c: Command, now: int)
    ensures CommandAhead(c, c, now)
  {
  }

  lemma FindIn(cs: seq<Command>, p: Command -> bool)
    ensures Find(cs, p).Some? ==> Find(cs, p).value < |cs|
  {
  }

  lemma ViewAhead(a: Store, b: Store, e: Event)
    requires Ahead(a, b, e.now) && e.View?
    ensures Observe(Gist, StepView(a, e).1) == Observe(Gist, StepView(b, e).1)
    ensures !LateView(a, e) ==> StepView(a, e).1 == StepView(b, e).1
  {
    hide Approvers, CommandsAhead;
    if e.id in a.intents {
      assert IntentAhead(a.intents[e.id], b.intents[e.id], e.now);
    }
  }

  lemma StepAhead(d: Detail, a: Store, b: Store, e: Event)
    requires Ahead(a, b, e.now) && !e.Sweep? && !Telling(d, a, e)
    ensures Ahead(Step(a, e).0, Step(b, e).0, e.now)
    ensures Observe(d, Step(a, e).1) == Observe(d, Step(b, e).1)
  {
    hide StepCreate, StepApprove, StepCancel, StepPublish, StepAck, StepSweep, Approvers;
    hide LateCancel, LateAck, LateRepublish, LateApproval, LateView;
    match e
    case Create(_, _, _, _, _, _, _) => CreateAhead(a, b, e);
    case Approve(_, _, _, _) => ApproveAhead(a, b, e);
    case Cancel(_, _, _, _) => CancelAhead(a, b, e);
    case Publish(_, _, _, _, _) => PublishAhead(a, b, e);
    case Poll(_, _) => ReadyAhead(a.commands, b.commands, e.agent, e.now);
    case Ack(_, _, _, _, _, _) => AckAhead(a, b, e);
    case View(_, _, _) => ViewAhead(a, b, e);
  }

  // ---------------------------------------------------------------- whole runs

  /** A run with sweeps shows what the run without them shows, as long as that one makes no telling request. */
  lemma {:induction false} SweepsUnobservable(d: Detail, a: Store, b: Store, clock: int, es: seq<Event>)
    requires Ahead(a, b, clock) && Inv(b, clock) && InOrder(es, clock)
    requires NoTelling(d, a, WithoutSweeps(es))
    ensures Observations(d, b, es) == Observations(d, a, WithoutSweeps(es))
    decreases |es|
  {
    hide Ahead, Inv, Step, Telling, Observe;
    if es != [] {
      var e := es[0];
      AheadLater(a, b, clock, e.now);
      StillFine(b, clock, e.now);
      StepKeeps(b, e.now, e);
      if e.Sweep? {
        StepOfSweep(b, e);
        SweepAhead(a, b, e);
        assert WithoutSweeps(es) == WithoutSweeps(es[1..]);
        assert Observations(d, b, es) == Observations(d, Step(b, e).0, es[1..]);
        SweepsUnobservable(d, a, Step(b, e).0, e.now, es[1..]);
      } else {
        var rest := WithoutSweeps(es[1..]);
        var kept := [e] + rest;
        assert WithoutSweeps(es) == kept && kept[0] == e && kept[1..] == rest;
        assert !Telling(d, a, kept[0]);
        StepAhead(d, a, b, e);
        SweepsUnobservable(d, Step(a, e).0, Step(b, e).0, e.now, es[1..]);
      }
    }
  }

  lemma StepOfSweep(s: Store, e: Event)
    requires e.Sweep?
    ensures Step(s, e) == StepSweep(s, e)
  {
  }

  lemma AheadOfItself(s: Store, clock: int)
    ensures Ahead(s, s, clock)
  {
  }

  predicate SweepFree(es: seq<Event>) {
    forall i :: 0 <= i < |es| ==> !es[i].Sweep?
  }

  lemma {:induction false} SweepFreeSame(es: seq<Event>)
    requires SweepFree(es)
    ensures WithoutSweeps(es) == es
    decreases |es|
  {
    if es != [] {
      SweepFreeSame(es[1..]);
    }
  }

  lemma {:induction false} WithoutSweepsConcat(x: seq<Event>, y: seq<Event>)
    ensures WithoutSweeps(x + y) == WithoutSweeps(x) + WithoutSweeps(y)
    decreases |x|
  {
    if x == [] {
      assert x + y == y;
    } else {
      assert (x + y)[1..] == x[1..] + y;
      WithoutSweepsConcat(x[1..], y);
    }
  }

  lemma {:induction false} ObservationsConcat(d: Detail, s: Store, x: seq<Event>, y: seq<Event>)
    ensures Observations(d, s, x + y) == Observations(d, s, x) + Observations(d, Run(s, x), y)
    decreases |x|
  {
    hide Step, Observe;
    if x == [] {
      assert x + y == y;
    } else {
      assert (x + y)[0] == x[0] && (x + y)[1..] == x[1..] + y;
      ObservationsConcat(d, Step(s, x[0]).0, x[1..], y);
    }
  }

  lemma {:induction false} ObservationsCount(d: Detail, s: Store, x: seq<Event>)
    requires SweepFree(x)
    ensures |Observations(d, s, x)| == |x|
    decreases |x|
  {
    hide Step, Observe;
    if x != [] {
      ObservationsCount(d, Step(s, x[0]).0, x[1..]);
    }
  }

  /** The position of the first telling request. */
  lemma {:induction false} FirstTelling(d: Detail, s: Store, es: seq<Event>) returns (k: nat)
    requires !NoTelling(d, s, es)
    ensures k < |es| && Telling(d, Run(s, es[..k]), es[k])
    decreases |es|
  {
    hide Step, Telling;
    if Telling(d, s, es[0]) {
      k := 0;
      assert es[..0] == [];
    } else {
      var j := FirstTelling(d, Step(s, es[0]).0, es[1..]);
      k := j + 1;
      assert es[..k][1..] == es[1..][..j];
    }
  }

  // ---------------------------------------------------------------- one sweep before a telling request

  function SweptStore(s: Store, now: int): Store {
    StepSweep(s, Sweep(now)).0
  }

  lemma SweptIsAhead(s: Store, now: int)
    requires Inv(s, now)
    ensures Ahead(s, SweptStore(s, now), now)
  {
    hide Ahead, Inv;
    AheadOfItself(s, now);
    SweepAhead(s, s, Sweep(now));
  }

  /** A sweep turns the acceptance of a late cancellation into a refusal. */
  lemma LateCancelTells(d: Detail, s: Store, e: Event)
    requires LateCancel(s, e)
    ensures Observe(d, StepCancel(s, e).1) != Observe(d, StepCancel(SweptStore(s, e.now), e).1)
  {
    hide Approvers, LateFor;
    assert SweptStore(s, e.now).intents[e.id].state.Expired?;
  }

  /** It turns the refusal of a late acknowledgement into an answer. */
  lemma LateAckTells(s: Store, e: Event)
    requires Inv(s, e.now) && LateAck(s, e)
    ensures StepAck(s, e).1 != StepAck(SweptStore(s, e.now), e).1
  {
    hide Approvers, Find, Inv;
    var p := (c: Command) => c.id == e.commandId && c.agent == e.agent;
    SweptIsAhead(s, e.now);
    FindAhead(s.commands, SweptStore(s, e.now).commands, e.now, p);
    FindIn(s.commands, p);
  }

  /** It changes the state of a command that is published again. */
  lemma LateRepublishTells(s: Store, e: Event)
    requires Inv(s, e.now) && LateRepublish(s, e)
    ensures StepPublish(s, e).1 != StepPublish(SweptStore(s, e.now), e).1
  {
    hide Approvers, Find, Inv;
    var p := (c: Command) => c.intent == e.id;
    SweptIsAhead(s, e.now);
    FindAhead(s.commands, SweptStore(s, e.now).commands, e.now, p);
    FindIn(s.commands, p);
    assert IntentAhead(s.intents[e.id], SweptStore(s, e.now).intents[e.id], e.now);
  }

  /** It changes the delivery state of an intent that is approved or looked at. */
  lemma LateIntentTells(s: Store, e: Event)
    requires Inv(s, e.now) && (LateApproval(s, e) || LateView(s, e))
    ensures Step(s, e).1 != Step(SweptStore(s, e.now), e).1
  {
    hide Approvers, Inv, ValidateIntent, SweepIntents, CommandsAhead;
    SweptIsAhead(s, e.now);
    SweepSettles(s, e.now, e.now);
    assert SweptStore(s, e.now).intents[e.id] == SettleIntent(s.intents[e.id], e.now);
  }

  lemma TellingTells(d: Detail, s: Store, e: Event)
    requires Telling(d, s, e) && (d.FullReply? ==> Inv(s, e.now))
    ensures !e.Sweep? && Observe(d, Step(s, e).1) != Observe(d, Step(Step(s, Sweep(e.now)).0, e).1)
  {
    hide StepCancel, StepAck, StepPublish, StepSweep, StepApprove, StepView, Inv, Overdue, DeliveryLate;
    StepOfSweep(s, Sweep(e.now));
    if LateCancel(s, e) {
      LateCancelTells(d, s, e);
    } else if LateAck(s, e) {
      LateAckTells(s, e);
    } else if LateRepublish(s, e) {
      LateRepublishTells(s, e);
    } else {
      LateIntentTells(s, e);
    }
  }

  lemma SweepShows(d: Detail, s: Store, e: Event, rest: seq<Event>)
    requires Telling(d, s, e) && (d.FullReply? ==> Inv(s, e.now))
    ensures Observations(d, s, [e] + rest) != [] && Observations(d, s, [Sweep(e.now), e] + rest) != []
    ensures Observations(d, s, [e] + rest)[0] != Observations(d, s, [Sweep(e.now), e] + rest)[0]
  {
    hide Step, Telling, Observe, Inv;
    TellingTells(d, s, e);
    var more := [Sweep(e.now), e] + rest;
    assert more[1..] == [e] + rest;
    assert Observations(d, s, more) == Observations(d, Step(s, more[0]).0, more[1..]);
  }

  lemma InsertedInOrder(x: seq<Event>, e: Event, y: seq<Event>, clock: int)
    requires InOrder(x + ([e] + y), clock)
    ensures InOrder(x + ([Sweep(e.now), e] + y), clock)
  {
    var es, more := x + ([e] + y), x + ([Sweep(e.now), e] + y);
    forall i | 0 <= i < |more| ensures more[i].now == es[if i <= |x| then i else i - 1].now {
    }
  }

  lemma SweepInserted(x: seq<Event>, e: Event, y: seq<Event>, clock: int)
    requires SweepFree(x + ([e] + y)) && InOrder(x + ([e] + y), clock)
    ensures InOrder(x + ([Sweep(e.now), e] + y), clock)
    ensures WithoutSweeps(x + ([Sweep(e.now), e] + y)) == x + ([e] + y)
  {
    hide InOrder;
    InsertedInOrder(x, e, y, clock);
    SweepFreeSame(x + ([e] + y));
    WithoutSweepsConcat(x, [e] + y);
    WithoutSweepsConcat(x, [Sweep(e.now), e] + y);
    assert ([Sweep(e.now), e] + y)[1..] == [e] + y;
    assert WithoutSweeps([Sweep(e.now), e] + y) == WithoutSweeps([e] + y);
  }

  lemma PrefixIsFine(s: Store, clock: int, es: seq<Event>, k: nat)
    requires Inv(s, clock) && InOrder(es, clock) && k < |es|
    ensures Inv(Run(s, es[..k]), es[k].now)
  {
    hide Inv, Run;
    RunKeeps(s, clock, es[..k], es[k].now);
  }

  /** Where a telling request is made, some insertion of one sweep can be observed. For the gist this needs no
      invariant. */
  lemma TellingShows(d: Detail, s: Store, clock: int, es: seq<Event>) returns (more: seq<Event>)
    requires InOrder(es, clock) && SweepFree(es) && !NoTelling(d, s, es) && (d.FullReply? ==> Inv(s, clock))
    ensures InOrder(more, clock) && WithoutSweeps(more) == es && Observations(d, s, more) != Observations(d, s, es)
  {
    hide Step, NoTelling, Telling, Observations, WithoutSweeps, InOrder, Inv;
    var k := FirstTelling(d, s, es);
    var e, x, y := es[k], es[..k], es[k + 1..];
    more := x + ([Sweep(e.now), e] + y);
    assert es == x + ([e] + y);
    if d.FullReply? {
      PrefixIsFine(s, clock, es, k);
    }
    SweepInserted(x, e, y, clock);
    SweepFreePrefix(es, k);
    ObservationsCount(d, s, x);
    ObservationsConcat(d, s, x, [e] + y);
    ObservationsConcat(d, s, x, [Sweep(e.now), e] + y);
    SweepShows(d, Run(s, x), e, y);
    assert Observations(d, s, more)[k] != Observations(d, s, es)[k];
  }

  lemma SweepFreePrefix(es: seq<Event>, k: nat)
    requires SweepFree(es) && k <= |es|
    ensures SweepFree(es[..k])
  {
  }

  /** By their gist, replies hide every sweep exactly in the runs that accept no cancellation after the approval window
      closed. In full they do exactly in the runs that also make none of the other telling requests. */
  lemma SweepsUnobservableExactly(d: Detail, s: Store, clock: int, es: seq<Event>)
    requires Inv(s, clock) && InOrder(es, clock) && SweepFree(es)
    ensures NoTelling(d, s, es) <==>
      forall more :: InOrder(more, clock) && WithoutSweeps(more) == es ==>
        Observations(d, s, more) == Observations(d, s, es)
  {
    hide Inv, Step, Ahead, NoTelling, InOrder, Observations, WithoutSweeps;
    if NoTelling(d, s, es) {
      AheadOfItself(s, clock);
      forall more | InOrder(more, clock) && WithoutSweeps(more) == es
        ensures Observations(d, s, more) == Observations(d, s, es)
      {
        SweepsUnobservable(d, s, s, clock, more);
      }
    } else {
      var more := TellingShows(d, s, clock, es);
    }
  }
}
