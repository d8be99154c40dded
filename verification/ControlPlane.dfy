/** The handlers and the sweep as transactions on the tables, each with the effect that EndpointIntents gives it. */
module ControlPlane {
  import opened Options
  import opened EndpointIntents

  class Tables {
    var agents: map<string, string>
    var intents: map<string, Intent>
    var audits: multiset<Audit>
    var commands: seq<Command>

    function Contents(): Store
      reads this
    {
      Store(agents, intents, audits, commands)
    }

    constructor (agents: map<string, string>)
      ensures Contents() == Store(agents, map[], multiset{}, [])
    {
      this.agents := agents;
      intents, audits, commands := map[], multiset{}, [];
    }

    method Record(id: string, actor: string, event: AuditEvent, now: int)
      modifies this`audits
      ensures audits == old(audits) + multiset{Audit(id, actor, event, now)}
    {
      audits := audits + multiset{Audit(id, actor, event, now)};
    }

    method CreateIntent(e: Event) returns (r: Response)
      requires e.Create?
      modifies this
      ensures (Contents(), r) == StepCreate(old(Contents()), e)
    {
      if e.kind !in ALLOWED_INTENTS {
        return Invalid;
      }
      if e.agent !in agents || agents[e.agent] != e.tenant {
        return NotFound;
      }
      if e.id in intents {
        return Conflict;
      }
      var actor := Actor(e.key);
      var decision := ValidateIntent(e.kind, actor, {}, e.expiresAt, e.now);
      var intent := Intent(e.tenant, e.agent, e.kind, decision, actor, e.expiresAt, None, None);
      intents := intents[e.id := intent];
      Record(e.id, actor, RequestedEvent, e.now);
      return Intended(intent);
    }

    method ApproveIntent(e: Event) returns (r: Response)
      requires e.Approve?
      modifies this
      ensures (Contents(), r) == StepApprove(old(Contents()), e)
    {
      if e.id !in intents || intents[e.id].tenant != e.tenant {
        return NotFound;
      }
      var intent, actor, approvers := intents[e.id], Actor(e.key), Approvers(audits, e.id);
      if actor in approvers {
        return Conflict;
      }
      var decision := ValidateIntent(intent.kind, intent.requestedBy, approvers + {actor}, intent.expiresAt, e.now);
      intents := intents[e.id := intent.(state := decision)];
      Record(e.id, actor, ApprovedEvent(decision), e.now);
      return Intended(intents[e.id]);
    }

    method CancelIntent(e: Event) returns (r: Response)
      requires e.Cancel?
      modifies this
      ensures (Contents(), r) == StepCancel(old(Contents()), e)
    {
      if e.id !in intents || intents[e.id].tenant != e.tenant {
        return NotFound;
      }
      if intents[e.id].state in {Approved, Expired, Cancelled, Rejected} {
        return Conflict;
      }
      intents := intents[e.id := intents[e.id].(state := Cancelled)];
      Record(e.id, Actor(e.key), CancelledEvent, e.now);
      return Intended(intents[e.id]);
    }

    method PublishCommand(e: Event) returns (r: Response)
      requires e.Publish?
      modifies this
      ensures (Contents(), r) == StepPublish(old(Contents()), e)
    {
      if e.id !in intents || intents[e.id].tenant != e.tenant {
        return NotFound;
      }
      var intent := intents[e.id];
      var existing := Find(commands, (c: Command) => c.intent == e.id);
      if existing.Some? {
        return Issued(commands[existing.value]);
      }
      if intent.state != Approved {
        return Conflict;
      }
      if intent.kind != "collect_inventory" {
        return Conflict;
      }
      if intent.expiresAt <= e.now {
        return Conflict;
      }
      if Find(commands, (c: Command) => c.id == e.commandId || c.nonce == e.nonce).Some? {
        return Conflict;
      }
      var item :=
        Command(e.commandId, e.tenant, intent.agent, e.id, e.nonce, Available, e.now, intent.expiresAt, None, None);
      commands := commands + [item];
      intents := intents[e.id := intent.(delivery := Some(Available))];
      return Issued(item);
    }

    /** An acknowledgement that comes too late marks the row and raises; the session then rolls the mark back. */
    method AcknowledgeCommand(e: Event) returns (r: Response)
      requires e.Ack?
      modifies this
      ensures (Contents(), r) == StepAck(old(Contents()), e)
    {
      if !Reportable(e.outcome) {
        return Invalid;
      }
      var at := Find(commands, (c: Command) => c.id == e.commandId && c.agent == e.agent);
      if at.None? {
        return NotFound;
      }
      var item := commands[at.value];
      if item.nonce != e.nonce {
        return Conflict;
      }
      if item.state != Available {
        return Acknowledged(item, false);
      }
      if item.expiresAt <= e.now {
        return CommandExpired;
      }
      item := item.(state := e.outcome, result := Some(Reported(e.payload)), acknowledgedAt := Some(e.now));
      commands := commands[at.value := item];
      if item.intent in intents {
        var intent := intents[item.intent];
        intents := intents[item.intent := intent.(delivery := Some(e.outcome), deliveryResult := item.result)];
      }
      return Acknowledged(item, true);
    }

    /** Two passes over the rows selected before either began: overdue intents, then late commands. */
    method SweepExpired(e: Event) returns (r: Response)
      requires e.Sweep?
      modifies this
      ensures (Contents(), r) == StepSweep(old(Contents()), e)
    {
      hide SweepAudits, SweepIntents, OverdueIds, SweepCommands, LateCount, Closed;
      ghost var before := intents;
      var closed := CloseIntents(e.now);
      var lapsed := LapseCommands(before, e.now);
      return Swept(closed + lapsed);
    }

    method CloseIntents(now: int) returns (changed: nat)
      modifies this`intents, this`audits
      ensures changed == |OverdueIds(old(intents), now)|
      ensures intents == Closed(old(intents), OverdueIds(old(intents), now), now)
      ensures audits == old(audits) + SweepAudits(OverdueIds(old(intents), now), now)
    {
      hide SweepAudits, Closed;
      var todo := OverdueIds(intents, now);
      ghost var done: set<string> := {};
      changed := 0;
      NothingSwept(intents, now);
      while todo != {}
        invariant todo !! done && todo + done == OverdueIds(old(intents), now) && changed == |done|
        invariant intents == Closed(old(intents), done, now)
        invariant audits == old(audits) + SweepAudits(done, now)
        decreases |todo|
      {
        var id :| id in todo;
        ClosePush(old(intents), done, id, now);
        SweepAuditsPush(done, id, now);
        intents := intents[id := intents[id].(state := Expired)];
        Record(id, SWEEP_ACTOR, ExpiredEvent, now);
        todo, done, changed := todo - {id}, done + {id}, changed + 1;
      }
      assert done == OverdueIds(old(intents), now);
    }

    method LapseCommands(ghost before: map<string, Intent>, now: int) returns (changed: nat)
      requires intents == Closed(before, OverdueIds(before, now), now)
      modifies this`intents, this`commands
      ensures changed == LateCount(old(commands), now)
      ensures commands == SweepCommands(old(commands), now)
      ensures intents == SweepIntents(before, old(commands), now)
    {
      hide SweepIntents, SweepCommands, LateCount, Closed, OverdueIds;
      var k := 0;
      changed := 0;
      NoCommandsSwept(before, now);
      assert commands[..0] == [];
      while k < |commands|
        invariant 0 <= k <= |commands| == |old(commands)|
        invariant commands == SweepCommands(old(commands)[..k], now) + old(commands)[k..]
        invariant intents == SweepIntents(before, old(commands)[..k], now)
        invariant changed == LateCount(old(commands)[..k], now)
      {
        SweepOneMore(old(commands), k, now);
        SweepIntentsPush(before, old(commands), k, now);
        var command := commands[k];
        assert command == old(commands)[k];
        if Late(command, now) {
          commands := commands[k := command.(state := Lapsed, result := Some(WindowElapsed))];
          if command.intent in intents {
            var intent := intents[command.intent];
            intents := intents[command.intent :=
              intent.(delivery := Some(Lapsed), deliveryResult := Some(WindowElapsed))];
          }
          changed := changed + 1;
        }
        k := k + 1;
      }
      assert old(commands)[..k] == old(commands);
    }
  }

  /** The intents with the windows of `done` closed. */
  function Closed(intents: map<string, Intent>, done: set<string>, now: int): map<string, Intent> {
    map id | id in intents :: if id in done then CloseWindow(intents[id], now) else intents[id]
  }

  lemma NothingSwept(intents: map<string, Intent>, now: int)
    ensures SweepAudits({}, now) == multiset{} && Closed(intents, {}, now) == intents
  {
  }

  lemma ClosePush(intents: map<string, Intent>, done: set<string>, id: string, now: int)
    requires id in OverdueIds(intents, now) && id !in done
    ensures id in Closed(intents, done, now) && Closed(intents, done, now)[id] == intents[id]
    ensures Closed(intents, done + {id}, now) == Closed(intents, done, now)[id := intents[id].(state := Expired)]
  {
  }

  lemma NoCommandsSwept(intents: map<string, Intent>, now: int)
    ensures SweepCommands([], now) == [] && LateCount([], now) == 0
    ensures SweepIntents(intents, [], now) == Closed(intents, OverdueIds(intents, now), now)
  {
  }

  lemma SweepAuditsPush(done: set<string>, id: string, now: int)
    requires id !in done
    ensures SweepAudits(done + {id}, now) ==
      SweepAudits(done, now) + multiset{Audit(id, SWEEP_ACTOR, ExpiredEvent, now)}
  {
    var x := Audit(id, SWEEP_ACTOR, ExpiredEvent, now);
    var rows := set d | d in done :: Audit(d, SWEEP_ACTOR, ExpiredEvent, now);
    assert x !in rows;
    assert (set d | d in done + {id} :: Audit(d, SWEEP_ACTOR, ExpiredEvent, now)) == rows + {x};
  }

  /** What the sweep owes to one more command. */
  lemma SweepOneMore(cs: seq<Command>, k: nat, now: int)
    requires k < |cs|
    ensures |SweepCommands(cs[..k], now)| == k
    ensures SweepCommands(cs[..k + 1], now) == SweepCommands(cs[..k], now) + [SweepCommand(cs[k], now)]
    ensures LateCount(cs[..k + 1], now) == LateCount(cs[..k], now) + if Late(cs[k], now) then 1 else 0
  {
    assert cs[..k + 1][..k] == cs[..k];
  }

  lemma LateForPush(cs: seq<Command>, k: nat, id: string, now: int)
    requires k < |cs|
    ensures LateFor(cs[..k + 1], id, now) <==> LateFor(cs[..k], id, now) || (cs[k].intent == id && Late(cs[k], now))
  {
    if LateFor(cs[..k], id, now) {
      var j :| 0 <= j < k && cs[..k][j].intent == id && Late(cs[..k][j], now);
      assert cs[..k + 1][j] == cs[..k][j];
    }
    assert cs[..k + 1][k] == cs[k];
    if LateFor(cs[..k + 1], id, now) {
      var j :| 0 <= j < k + 1 && cs[..k + 1][j].intent == id && Late(cs[..k + 1][j], now);
      assert j < k ==> cs[..k][j] == cs[..k + 1][j];
    }
  }

  lemma SweepIntentsPush(intents: map<string, Intent>, cs: seq<Command>, k: nat, now: int)
    requires k < |cs|
    ensures
      var done, c := SweepIntents(intents, cs[..k], now), cs[k];
      && done.Keys == intents.Keys
      && SweepIntents(intents, cs[..k + 1], now) ==
         if Late(c, now) && c.intent in intents
         then done[c.intent := done[c.intent].(delivery := Some(Lapsed), deliveryResult := Some(WindowElapsed))]
         else done
  {
    hide LateFor;
    forall id | id in intents
      ensures LateFor(cs[..k + 1], id, now) <==> LateFor(cs[..k], id, now) || (cs[k].intent == id && Late(cs[k], now))
    {
      LateForPush(cs, k, id, now);
    }
  }
}
