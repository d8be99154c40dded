/** The endpoint-intent control plane: request, approval by two others, one command, acknowledgement, and the
    expiry sweep (app/api/v1/endpoint_intents.py, app/services/endpoint_intents.py, app/api/v1/platform.py,
    app/workers/intent_expiry.py). Every handler is one transaction; the clock is an integer. */
module EndpointIntents {
  import opened Options

  datatype IntentState = Pending | Approved | Rejected | Expired | Cancelled

  datatype CommandState = Available | Completed | Failed | Refused | Lapsed

  datatype Outcome = WindowElapsed | Reported(payload: string)

  /** `delivery` is None while the row says not_dispatched. */
  datatype Intent = Intent(
    tenant: string, agent: string, kind: string, state: IntentState, requestedBy: string, expiresAt: int,
    delivery: Option<CommandState>, deliveryResult: Option<Outcome>)

  datatype AuditEvent = RequestedEvent | ApprovedEvent(decision: IntentState) | CancelledEvent | ExpiredEvent

  datatype Audit = Audit(intent: string, actor: string, event: AuditEvent, at: int)

  datatype Command = Command(
    id: string, tenant: string, agent: string, intent: string, nonce: string, state: CommandState,
    availableAt: int, expiresAt: int, acknowledgedAt: Option<int>, result: Option<Outcome>)

  /** Agents with their tenants, intents by id, audit rows in no particular order, commands in order of issue. */
  datatype Store = Store(
    agents: map<string, string>, intents: map<string, Intent>, audits: multiset<Audit>, commands: seq<Command>)

  datatype Response =
    | Invalid
    | NotFound
    | Conflict
    | Intended(intent: Intent)
    | Issued(command: Command)
    | Polled(commands: seq<Command>)
    | Acknowledged(command: Command, recorded: bool)
    | CommandExpired
    | Viewed(intent: Intent, effective: IntentState)
    | Swept(changed: nat)

  const ALLOWED_INTENTS := {"isolate_network", "collect_inventory", "rotate_agent_certificate"}
  const SWEEP_ACTOR := "system:intent_expiry"

  function Actor(key: string): string {
    "api_key:" + key
  }

  /** The actors whose approval of an intent is on record. */
  function Approvers(audits: multiset<Audit>, id: string): set<string> {
    set a | a in audits && a.intent == id && a.event.ApprovedEvent? :: a.actor
  }

  function Others(approvers: set<string>, requester: string): set<string> {
    set a | a in approvers && a != "" && a != requester
  }

  /** The approval policy; of the list of approvers it uses only who is on it. */
  function ValidateIntent(kind: string, requester: string, approvers: set<string>, expiresAt: int, now: int)
    : IntentState
  {
    if kind !in ALLOWED_INTENTS then Rejected
    else if expiresAt <= now then Expired
    else
      if requester in approvers then Rejected
      else if |Others(approvers, requester)| < 2 then Pending
      else Approved
  }

  function EffectiveState(i: Intent, now: int): IntentState {
    if i.state.Pending? && i.expiresAt <= now then Expired else i.state
  }

  /** The position of the row that satisfies `p`, when there is one. */
  function Find(cs: seq<Command>, p: Command -> bool): (r: Option<nat>)
    ensures r.Some? ==> r.value < |cs| && p(cs[r.value])
    ensures r.None? ==> forall i :: 0 <= i < |cs| ==> !p(cs[i])
  {
    if cs == [] then None
    else if p(cs[|cs| - 1]) then Some(|cs| - 1)
    else Find(cs[..|cs| - 1], p)
  }

  function Ready(cs: seq<Command>, agent: string, now: int): seq<Command> {
    if cs == [] then [] else
      var c := cs[|cs| - 1];
      Ready(cs[..|cs| - 1], agent, now)
        + if c.agent == agent && c.state.Available? && c.availableAt <= now < c.expiresAt then [c] else []
  }

  // ---------------------------------------------------------------- requests and their effect

  datatype Event =
    | Create(tenant: string, key: string, id: string, agent: string, kind: string, expiresAt: int, now: int)
    | Approve(tenant: string, key: string, id: string, now: int)
    | Cancel(tenant: string, key: string, id: string, now: int)
    | Publish(tenant: string, id: string, commandId: string, nonce: string, now: int)
    | Poll(agent: string, now: int)
    | Ack(agent: string, commandId: string, nonce: string, outcome: CommandState, payload: string, now: int)
    | View(tenant: string, id: string, now: int)
    | Sweep(now: int)

  predicate Owns(s: Store, tenant: string, id: string) {
    id in s.intents && s.intents[id].tenant == tenant
  }

  function StepCreate(s: Store, e: Event): (Store, Response)
    requires e.Create?
  {
    if e.kind !in ALLOWED_INTENTS then (s, Invalid)
    else if e.agent !in s.agents || s.agents[e.agent] != e.tenant then (s, NotFound)
    else if e.id in s.intents then (s, Conflict)
    else
      var state := ValidateIntent(e.kind, Actor(e.key), {}, e.expiresAt, e.now);
      var i := Intent(e.tenant, e.agent, e.kind, state, Actor(e.key), e.expiresAt, None, None);
      (s.(intents := s.intents[e.id := i],
          audits := s.audits + multiset{Audit(e.id, Actor(e.key), RequestedEvent, e.now)}), Intended(i))
  }

  function StepApprove(s: Store, e: Event): (Store, Response)
    requires e.Approve?
  {
    if !Owns(s, e.tenant, e.id) then (s, NotFound)
    else if Actor(e.key) in Approvers(s.audits, e.id) then (s, Conflict)
    else
      var i := s.intents[e.id];
      var approvers := Approvers(s.audits, e.id) + {Actor(e.key)};
      var decision := ValidateIntent(i.kind, i.requestedBy, approvers, i.expiresAt, e.now);
      (s.(intents := s.intents[e.id := i.(state := decision)],
          audits := s.audits + multiset{Audit(e.id, Actor(e.key), ApprovedEvent(decision), e.now)}),
       Intended(i.(state := decision)))
  }

  function StepCancel(s: Store, e: Event): (Store, Response)
    requires e.Cancel?
  {
    if !Owns(s, e.tenant, e.id) then (s, NotFound)
    else if !s.intents[e.id].state.Pending? then (s, Conflict)
    else
      var i := s.intents[e.id].(state := Cancelled);
      (s.(intents := s.intents[e.id := i],
          audits := s.audits + multiset{Audit(e.id, Actor(e.key), CancelledEvent, e.now)}), Intended(i))
  }

  function StepPublish(s: Store, e: Event): (Store, Response)
    requires e.Publish?
  {
    if !Owns(s, e.tenant, e.id) then (s, NotFound) else
      var i := s.intents[e.id];
      var existing := Find(s.commands, (c: Command) => c.intent == e.id);
      if existing.Some? then (s, Issued(s.commands[existing.value]))
      else if !i.state.Approved? || i.kind != "collect_inventory" || i.expiresAt <= e.now then (s, Conflict)
      else if Find(s.commands, (c: Command) => c.id == e.commandId || c.nonce == e.nonce).Some? then (s, Conflict)
      else
        var c := Command(e.commandId, e.tenant, i.agent, e.id, e.nonce, Available, e.now, i.expiresAt, None, None);
        (s.(intents := s.intents[e.id := i.(delivery := Some(Available))], commands := s.commands + [c]), Issued(c))
  }

  function StepPoll(s: Store, e: Event): (Store, Response)
    requires e.Poll?
  {
    var ready := Ready(s.commands, e.agent, e.now);
    (s, Polled(if |ready| <= 10 then ready else ready[..10]))
  }

  /** The outcomes an agent may report. */
  predicate Reportable(state: CommandState) {
    state.Completed? || state.Failed? || state.Refused?
  }

  function StepAck(s: Store, e: Event): (Store, Response)
    requires e.Ack?
  {
    var at := Find(s.commands, (c: Command) => c.id == e.commandId && c.agent == e.agent);
    if !Reportable(e.outcome) then (s, Invalid)
    else if at.None? then (s, NotFound)
    else
      var c := s.commands[at.value];
      if c.nonce != e.nonce then (s, Conflict)
      else if !c.state.Available? then (s, Acknowledged(c, false))
      else if c.expiresAt <= e.now then (s, CommandExpired)
      else
        var done := c.(state := e.outcome, result := Some(Reported(e.payload)), acknowledgedAt := Some(e.now));
        var intents := if c.intent in s.intents
          then s.intents[c.intent := s.intents[c.intent].(delivery := Some(e.outcome), deliveryResult := done.result)]
          else s.intents;
        (s.(commands := s.commands[at.value := done], intents := intents), Acknowledged(done, true))
  }

  function StepView(s: Store, e: Event): (Store, Response)
    requires e.View?
  {
    (s, if Owns(s, e.tenant, e.id)
        then Viewed(s.intents[e.id], EffectiveState(s.intents[e.id], e.now)) else NotFound)
  }

  // The sweep, row by row.

  predicate Overdue(i: Intent, now: int) {
    i.state.Pending? && i.expiresAt <= now
  }

  predicate Late(c: Command, now: int) {
    c.state.Available? && c.expiresAt <= now
  }

  predicate LateFor(cs: seq<Command>, id: string, now: int) {
    exists k :: 0 <= k < |cs| && cs[k].intent == id && Late(cs[k], now)
  }

  function SweepCommand(c: Command, now: int): Command {
    if Late(c, now) then c.(state := Lapsed, result := Some(WindowElapsed)) else c
  }

  function SweepCommands(cs: seq<Command>, now: int): seq<Command> {
    seq(|cs|, k requires 0 <= k < |cs| => SweepCommand(cs[k], now))
  }

  function CloseWindow(i: Intent, now: int): Intent {
    if Overdue(i, now) then i.(state := Expired) else i
  }

  function SweepIntents(intents: map<string, Intent>, cs: seq<Command>, now: int): map<string, Intent> {
    map id | id in intents ::
      var i := CloseWindow(intents[id], now);
      if LateFor(cs, id, now) then i.(delivery := Some(Lapsed), deliveryResult := Some(WindowElapsed)) else i
  }

  function OverdueIds(intents: map<string, Intent>, now: int): set<string> {
    set id | id in intents && Overdue(intents[id], now)
  }

  function SweepAudits(ids: set<string>, now: int): multiset<Audit> {
    multiset(set id | id in ids :: Audit(id, SWEEP_ACTOR, ExpiredEvent, now))
  }

  function LateCount(cs: seq<Command>, now: int): nat {
    if cs == [] then 0 else LateCount(cs[..|cs| - 1], now) + if Late(cs[|cs| - 1], now) then 1 else 0
  }

  function StepSweep(s: Store, e: Event): (Store, Response)
    requires e.Sweep?
  {
    var overdue := OverdueIds(s.intents, e.now);
    (s.(intents := SweepIntents(s.intents, s.commands, e.now), commands := SweepCommands(s.commands, e.now),
        audits := s.audits + SweepAudits(overdue, e.now)),
     Swept(|overdue| + LateCount(s.commands, e.now)))
  }

  function Step(s: Store, e: Event): (Store, Response) {
    match e
    case Create(_, _, _, _, _, _, _) => StepCreate(s, e)
    case Approve(_, _, _, _) => StepApprove(s, e)
    case Cancel(_, _, _, _) => StepCancel(s, e)
    case Publish(_, _, _, _, _) => StepPublish(s, e)
    case Poll(_, _) => StepPoll(s, e)
    case Ack(_, _, _, _, _, _) => StepAck(s, e)
    case View(_, _, _) => StepView(s, e)
    case Sweep(_) => StepSweep(s, e)
  }

  /** The store after a run. */
  function Run(s: Store, es: seq<Event>): Store
    decreases |es|
  {
    if es == [] then s else Run(Step(s, es[0]).0, es[1..])
  }

  ghost predicate InOrder(es: seq<Event>, clock: int) {
    && (forall i :: 0 <= i < |es| ==> clock <= es[i].now)
    && (forall i, j :: 0 <= i < j < |es| ==> es[i].now <= es[j].now)
  }
}
