/** The tables of the control plane, retold from the requests alone: every intent is what its own requests make of it,
    and every command what was published and acknowledged. */
module IntentHistory {
  import opened Options
  import opened EndpointIntents
  import opened IntentSafety

  // ---------------------------------------------------------------- one intent

  /** The request that created the intent, the keys that approved it, and where that leaves it. */
  datatype Story = Story(made: Event, keys: set<string>, state: IntentState)

  predicate Creates(agents: map<string, string>, e: Event, id: string) {
    && e.Create? && e.id == id && e.kind in {"isolate_network", "collect_inventory", "rotate_agent_certificate"}
    && e.agent in agents && agents[e.agent] == e.tenant
  }

  /** Two keys other than the requester's approve; the requester's own rejects; after expiry nothing counts. */
  function Decision(made: Event, keys: set<string>, now: int): IntentState
    requires made.Create?
  {
    if now >= made.expiresAt then Expired
    else if made.key in keys then Rejected
    else if |keys| >= 2 then Approved
    else Pending
  }

  function Next(story: Story, e: Event, id: string): Story
    requires story.made.Create?
  {
    if e.Approve? && e.id == id && e.tenant == story.made.tenant && e.key !in story.keys
    then Story(story.made, story.keys + {e.key}, Decision(story.made, story.keys + {e.key}, e.now))
    else if e.Cancel? && e.id == id && e.tenant == story.made.tenant && story.state == Pending
    then story.(state := Cancelled)
    else if e.Sweep? && story.state == Pending && e.now >= story.made.expiresAt
    then story.(state := Expired)
    else story
  }

  function Later(agents: map<string, string>, before: Option<Story>, e: Event, id: string): Option<Story>
    requires before.Some? ==> before.value.made.Create?
  {
    if before.Some? then Some(Next(before.value, e, id))
    else if Creates(agents, e, id) then Some(Story(e, {}, Decision(e, {}, e.now)))
    else None
  }

  function StoryOf(agents: map<string, string>, es: seq<Event>, id: string): (story: Option<Story>)
    ensures story.Some? ==> Creates(agents, story.value.made, id) && story.value.made in es
  {
    if es == [] then None else Later(agents, StoryOf(agents, es[..|es| - 1], id), es[|es| - 1], id)
  }

  function Names(keys: set<string>): set<string> {
    set k | k in keys :: "api_key:" + k
  }

  /** The row is the one the story tells of. */
  ghost predicate Tells(story: Story, s: Store, id: string) {
    && story.made.Create? && id in s.intents
    && var i := s.intents[id];
       && i.tenant == story.made.tenant && i.agent == story.made.agent && i.kind == story.made.kind
       && i.requestedBy == "api_key:" + story.made.key && i.expiresAt == story.made.expiresAt
       && i.state == story.state && Approvers(s.audits, id) == Names(story.keys)
  }

  ghost predicate Told(story: Option<Story>, s: Store, id: string) {
    if story.Some? then Tells(story.value, s, id) else id !in s.intents && Approvers(s.audits, id) == {}
  }

  lemma NameIn(keys: set<string>, key: string)
    ensures Actor(key) in Names(keys) <==> key in keys
    ensures Names(keys + {key}) == Names(keys) + {Actor(key)}
  {
    if Actor(key) in Names(keys) {
      var k :| k in keys && "api_key:" + k == "api_key:" + key;
      assert k == ("api_key:" + k)[|"api_key:"|..] == ("api_key:" + key)[|"api_key:"|..] == key;
    }
  }

  lemma {:induction false} NamesSize(keys: set<string>)
    ensures |Names(keys)| == |keys|
    decreases |keys|
  {
    if keys == {} {
      assert Names(keys) == {};
    } else {
      var k :| k in keys;
      var rest := keys - {k};
      NamesSize(rest);
      NameIn(rest, k);
      assert keys == rest + {k} && Actor(k) !in Names(rest);
    }
  }

  /** The policy decides as the keys say. */
  lemma PolicyDecides(made: Event, keys: set<string>, now: int)
    requires made.Create? && made.kind in ALLOWED_INTENTS
    ensures ValidateIntent(made.kind, Actor(made.key), Names(keys), made.expiresAt, now) == Decision(made, keys, now)
  {
    NameIn(keys, made.key);
    if made.key !in keys {
      assert Others(Names(keys), Actor(made.key)) == Names(keys);
      NamesSize(keys);
    }
  }

  // ---------------------------------------------------------------- requests and the tables

  ghost predicate Follows(agents: map<string, string>, story: Option<Story>, s: Store, e: Event, id: string) {
    && (story.Some? ==> story.value.made.Create?)
    && Told(Later(agents, story, e, id), Step(s, e).0, id)
  }

  lemma CreateFollows(agents: map<string, string>, story: Option<Story>, s: Store, e: Event, id: string)
    requires s.agents == agents && Told(story, s, id) && e.Create?
    ensures Follows(agents, story, s, e, id)
  {
    hide Approvers, ValidateIntent, Decision;
    ApproversPush(s.audits, Audit(e.id, Actor(e.key), RequestedEvent, e.now));
    if e.kind in ALLOWED_INTENTS {
      assert Names({}) == {};
      PolicyDecides(e, {}, e.now);
    }
  }

  lemma ApproveFollows(agents: map<string, string>, story: Option<Story>, s: Store, e: Event, id: string)
    requires s.agents == agents && Told(story, s, id) && e.Approve?
    requires story.Some? ==> Creates(agents, story.value.made, id)
    ensures Follows(agents, story, s, e, id)
  {
    hide Approvers, ValidateIntent, Decision, Names;
    if Owns(s, e.tenant, e.id) && Actor(e.key) !in Approvers(s.audits, e.id) {
      var decision := StepApprove(s, e).0.intents[e.id].state;
      ApproversPush(s.audits, Audit(e.id, Actor(e.key), ApprovedEvent(decision), e.now));
    }
    if story.Some? {
      NameIn(story.value.keys, e.key);
      PolicyDecides(story.value.made, story.value.keys + {e.key}, e.now);
    }
  }

  lemma CancelFollows(agents: map<string, string>, story: Option<Story>, s: Store, e: Event, id: string)
    requires s.agents == agents && Told(story, s, id) && e.Cancel?
    ensures Follows(agents, story, s, e, id)
  {
    hide Approvers, Names;
    ApproversPush(s.audits, Audit(e.id, Actor(e.key), CancelledEvent, e.now));
  }

  lemma SweepFollows(agents: map<string, string>, story: Option<Story>, s: Store, e: Event, id: string)
    requires s.agents == agents && Told(story, s, id) && e.Sweep?
    ensures Follows(agents, story, s, e, id)
  {
    hide LateFor, Names, SweepCommands, LateCount;
    SweepApproves(s, e);
  }

  lemma SweepApproves(s: Store, e: Event)
    requires e.Sweep?
    ensures forall id :: Approvers(StepSweep(s, e).0.audits, id) == Approvers(s.audits, id)
  {
    hide SweepIntents, SweepCommands, LateCount;
    var more := SweepAudits(OverdueIds(s.intents, e.now), e.now);
    assert forall x :: x in more ==> x.event.ExpiredEvent?;
    assert forall x :: x in s.audits + more <==> x in s.audits || x in more;
  }

  lemma DeliveryFollows(agents: map<string, string>, story: Option<Story>, s: Store, e: Event, id: string)
    requires s.agents == agents && Told(story, s, id)
    requires e.Publish? || e.Ack? || e.Poll? || e.View?
    ensures Follows(agents, story, s, e, id)
  {
    hide Find, Ready, Approvers, Names;
  }

  lemma StepFollows(agents: map<string, string>, story: Option<Story>, s: Store, e: Event, id: string)
    requires s.agents == agents && Told(story, s, id)
    requires story.Some? ==> Creates(agents, story.value.made, id)
    ensures Follows(agents, story, s, e, id)
  {
    hide Told, Step, Later, Follows;
    match e
    case Create(_, _, _, _, _, _, _) => CreateFollows(agents, story, s, e, id);
    case Approve(_, _, _, _) => ApproveFollows(agents, story, s, e, id);
    case Cancel(_, _, _, _) => CancelFollows(agents, story, s, e, id);
    case Sweep(_) => SweepFollows(agents, story, s, e, id);
    case _ => DeliveryFollows(agents, story, s, e, id);
  }

  lemma {:induction false} RunBack(s: Store, es: seq<Event>)
    requires es != []
    ensures Run(s, es) == Step(Run(s, es[..|es| - 1]), es[|es| - 1]).0
    decreases |es|
  {
    hide Step;
    if |es| > 1 {
      RunBack(Step(s, es[0]).0, es[1..]);
      assert es[1..][..|es| - 2] == es[..|es| - 1][1..];
    }
  }

  lemma AgentsStay(s: Store, e: Event)
    ensures Step(s, e).0.agents == s.agents
  {
    hide Find, Ready, SweepIntents, SweepCommands, SweepAudits, LateCount, Approvers, ValidateIntent;
  }

  /** After any requests, in any order and at any times, the row of every intent is the one its own requests tell of:
      there is one exactly if it was created, it keeps tenant, agent, kind, requester and expiry of that request, the
      approvers on record are the keys that approved it, and its state is what they decided. */
  lemma {:induction false} IntentsFollowRequests(agents: map<string, string>, es: seq<Event>, id: string)
    ensures Run(Start(agents), es).agents == agents
    ensures Told(StoryOf(agents, es, id), Run(Start(agents), es), id)
  {
    hide Told, Step, Later, Creates, Follows;
    if es == [] {
      NothingTold(agents, id);
    } else {
      var front, e := es[..|es| - 1], es[|es| - 1];
      IntentsFollowRequests(agents, front, id);
      RunBack(Start(agents), es);
      AgentsStay(Run(Start(agents), front), e);
      StepFollows(agents, StoryOf(agents, front, id), Run(Start(agents), front), e, id);
      Followed(agents, StoryOf(agents, front, id), Run(Start(agents), front), e, id);
    }
  }

  lemma Followed(agents: map<string, string>, story: Option<Story>, s: Store, e: Event, id: string)
    requires Follows(agents, story, s, e, id)
    ensures (story.Some? ==> story.value.made.Create?) && Told(Later(agents, story, e, id), Step(s, e).0, id)
  {
    hide Told, Step, Later;
  }

  lemma NothingTold(agents: map<string, string>, id: string)
    ensures Told(None, Start(agents), id)
  {
  }

  // ---------------------------------------------------------------- the trail

  /** What a request adds to the trail of an intent: who did what. */
  function Entry(agents: map<string, string>, before: Option<Story>, e: Event, id: string): multiset<Audit>
    requires before.Some? ==> before.value.made.Create?
  {
    if before.None? then
      if Creates(agents, e, id) then multiset{Audit(id, "api_key:" + e.key, RequestedEvent, e.now)} else multiset{}
    else
      var after := Next(before.value, e, id);
      if after.keys != before.value.keys && e.Approve?
      then multiset{Audit(id, "api_key:" + e.key, ApprovedEvent(after.state), e.now)}
      else if after.state != before.value.state && e.Cancel?
      then multiset{Audit(id, "api_key:" + e.key, CancelledEvent, e.now)}
      else if after.state != before.value.state && e.Sweep?
      then multiset{Audit(id, "system:intent_expiry", ExpiredEvent, e.now)}
      else multiset{}
  }

  function TrailOf(agents: map<string, string>, es: seq<Event>, id: string): multiset<Audit> {
    if es == [] then multiset{} else
      var front := es[..|es| - 1];
      TrailOf(agents, front, id) + Entry(agents, StoryOf(agents, front, id), es[|es| - 1], id)
  }

  /** The rows of this intent are these. */
  ghost predicate HasTrail(audits: multiset<Audit>, trail: multiset<Audit>, id: string) {
    forall x: Audit :: x.intent == id ==> audits[x] == trail[x]
  }

  ghost predicate Adds(agents: map<string, string>, story: Option<Story>, s: Store, e: Event, id: string) {
    && (story.Some? ==> story.value.made.Create?)
    && forall x: Audit :: x.intent == id ==>
      Step(s, e).0.audits[x] == s.audits[x] + Entry(agents, story, e, id)[x]
  }

  lemma CreateAdds(agents: map<string, string>, story: Option<Story>, s: Store, e: Event, id: string)
    requires s.agents == agents && Told(story, s, id) && e.Create?
    ensures Adds(agents, story, s, e, id)
  {
    hide Approvers, ValidateIntent, Decision;
  }

  lemma ApproveAdds(agents: map<string, string>, story: Option<Story>, s: Store, e: Event, id: string)
    requires s.agents == agents && Told(story, s, id) && e.Approve?
    requires story.Some? ==> Creates(agents, story.value.made, id)
    ensures Adds(agents, story, s, e, id)
  {
    hide Approvers, ValidateIntent, Decision, Names;
    if story.Some? {
      NameIn(story.value.keys, e.key);
      PolicyDecides(story.value.made, story.value.keys + {e.key}, e.now);
      assert e.key !in story.value.keys ==> e.key in story.value.keys + {e.key};
    }
  }

  lemma CancelAdds(agents: map<string, string>, story: Option<Story>, s: Store, e: Event, id: string)
    requires s.agents == agents && Told(story, s, id) && e.Cancel?
    ensures Adds(agents, story, s, e, id)
  {
    hide Approvers, Names;
  }

  lemma SweepAdds(agents: map<string, string>, story: Option<Story>, s: Store, e: Event, id: string)
    requires s.agents == agents && Told(story, s, id) && e.Sweep?
    ensures Adds(agents, story, s, e, id)
  {
    hide LateFor, Names, SweepCommands, LateCount, SweepIntents, Approvers;
  }

  lemma DeliveryAdds(agents: map<string, string>, story: Option<Story>, s: Store, e: Event, id: string)
    requires s.agents == agents && Told(story, s, id)
    requires e.Publish? || e.Ack? || e.Poll? || e.View?
    ensures Adds(agents, story, s, e, id)
  {
    hide Find, Ready, Approvers, Names;
  }

  lemma StepAdds(agents: map<string, string>, story: Option<Story>, s: Store, e: Event, id: string)
    requires s.agents == agents && Told(story, s, id)
    requires story.Some? ==> Creates(agents, story.value.made, id)
    ensures Adds(agents, story, s, e, id)
  {
    hide Told, Step, Entry, Adds;
    match e
    case Create(_, _, _, _, _, _, _) => CreateAdds(agents, story, s, e, id);
    case Approve(_, _, _, _) => ApproveAdds(agents, story, s, e, id);
    case Cancel(_, _, _, _) => CancelAdds(agents, story, s, e, id);
    case Sweep(_) => SweepAdds(agents, story, s, e, id);
    case _ => DeliveryAdds(agents, story, s, e, id);
  }

  /** The audit rows of an intent are those its accepted requests and its expiry leave, each naming who acted, and no
      others. */
  lemma {:induction false} TrailsFollowRequests(agents: map<string, string>, es: seq<Event>, id: string)
    ensures HasTrail(Run(Start(agents), es).audits, TrailOf(agents, es, id), id)
  {
    hide Told, Step, Entry;
    if es != [] {
      var front, e := es[..|es| - 1], es[|es| - 1];
      TrailsFollowRequests(agents, front, id);
      IntentsFollowRequests(agents, front, id);
      RunBack(Start(agents), es);
      StepAdds(agents, StoryOf(agents, front, id), Run(Start(agents), front), e, id);
    }
  }

  // ---------------------------------------------------------------- who requested and who approved

  /** The request at that position was accepted. */
  ghost predicate AcceptedAt(agents: map<string, string>, es: seq<Event>, i: nat)
    requires i < |es|
  {
    Step(Run(Start(agents), es[..i]), es[i]).1.Intended?
  }

  ghost predicate ApprovedBy(agents: map<string, string>, es: seq<Event>, id: string, key: string) {
    exists i :: 0 <= i < |es| && es[i].Approve? && es[i].id == id && es[i].key == key && AcceptedAt(agents, es, i)
  }

  lemma AcceptedBefore(agents: map<string, string>, es: seq<Event>, id: string, key: string)
    requires es != [] && ApprovedBy(agents, es[..|es| - 1], id, key)
    ensures ApprovedBy(agents, es, id, key)
  {
    hide AcceptedAt;
    var front := es[..|es| - 1];
    var i :| 0 <= i < |front| && front[i].Approve? && front[i].id == id && front[i].key == key
             && AcceptedAt(agents, front, i);
    assert AcceptedAt(agents, es, i) by {
      hide *;
      SameAcceptance(agents, es, i);
    }
  }

  lemma SameAcceptance(agents: map<string, string>, es: seq<Event>, i: nat)
    requires i < |es| - 1
    ensures AcceptedAt(agents, es, i) == AcceptedAt(agents, es[..|es| - 1], i)
  {
    hide Step;
    assert es[..|es| - 1][..i] == es[..i];
  }

  lemma ApprovalAccepted(agents: map<string, string>, s: Store, story: Story, e: Event, id: string)
    requires Told(Some(story), s, id) && e.Approve? && Next(story, e, id).keys != story.keys
    ensures Step(s, e).1.Intended? && e.id == id && Next(story, e, id).keys == story.keys + {e.key}
  {
    hide Approvers, ValidateIntent, Decision, Names;
    NameIn(story.keys, e.key);
  }

  /** The keys of a story are those of its accepted approvals. */
  lemma {:induction false} KeysApproved(agents: map<string, string>, es: seq<Event>, id: string, key: string)
    requires StoryOf(agents, es, id).Some? && key in StoryOf(agents, es, id).value.keys
    ensures ApprovedBy(agents, es, id, key)
  {
    hide ApprovedBy, Told, Creates, Decision, AcceptedAt;
    var front, e := es[..|es| - 1], es[|es| - 1];
    var before := StoryOf(agents, front, id);
    if before.Some? && key in before.value.keys {
      KeysApproved(agents, front, id, key);
      AcceptedBefore(agents, es, id, key);
    } else if before.Some? {
      IntentsFollowRequests(agents, front, id);
      ApprovalAccepted(agents, Run(Start(agents), front), before.value, e, id);
      LastApproves(agents, es, id, key);
    }
  }

  lemma LastApproves(agents: map<string, string>, es: seq<Event>, id: string, key: string)
    requires es != []
    requires
      var e := es[|es| - 1];
      e.Approve? && e.id == id && e.key == key && Step(Run(Start(agents), es[..|es| - 1]), e).1.Intended?
    ensures ApprovedBy(agents, es, id, key)
  {
    hide Step, Run;
    assert AcceptedAt(agents, es, |es| - 1);
  }

  ghost predicate TwoOthers(story: Story)
    requires story.made.Create?
  {
    exists k, l :: k in story.keys && l in story.keys && k != l && k != story.made.key && l != story.made.key
  }

  lemma TwoKeys(keys: set<string>, own: string)
    requires |keys| >= 2 && own !in keys
    ensures exists k, l :: k in keys && l in keys && k != l && k != own && l != own
  {
    var k :| k in keys;
    assert |keys - {k}| >= 1;
    var l :| l in keys - {k};
  }

  predicate DecidedByTwo(story: Story)
    requires story.made.Create?
  {
    story.state == Approved ==> story.made.key !in story.keys && |story.keys| >= 2
  }

  lemma NextDecidedByTwo(story: Story, e: Event, id: string)
    requires story.made.Create? && DecidedByTwo(story)
    ensures Next(story, e, id).made == story.made && DecidedByTwo(Next(story, e, id))
    ensures story.keys <= Next(story, e, id).keys
  {
  }

  lemma {:induction false} StoriesDecidedByTwo(agents: map<string, string>, es: seq<Event>, id: string)
    requires StoryOf(agents, es, id).Some?
    ensures DecidedByTwo(StoryOf(agents, es, id).value)
  {
    hide Next;
    var front, e := es[..|es| - 1], es[|es| - 1];
    if StoryOf(agents, front, id).Some? {
      StoriesDecidedByTwo(agents, front, id);
      NextDecidedByTwo(StoryOf(agents, front, id).value, e, id);
    }
  }

  lemma TwoOthersIf(story: Story)
    requires story.made.Create? && |story.keys| >= 2 && story.made.key !in story.keys
    ensures TwoOthers(story)
  {
    TwoKeys(story.keys, story.made.key);
  }

  // ---------------------------------------------------------------- commands

  /** An approved collection is published once, within its tenant and in time, under a name and a nonce of its own. */
  ghost predicate Publishes(story: Option<Story>, cs: seq<Command>, e: Event)
    requires story.Some? ==> story.value.made.Create?
  {
    && e.Publish? && story.Some? && e.tenant == story.value.made.tenant && story.value.state == Approved
    && story.value.made.kind == "collect_inventory" && e.now < story.value.made.expiresAt
    && forall c :: c in cs ==> c.intent != e.id && c.id != e.commandId && c.nonce != e.nonce
  }

  /** The agent that was sent the command reports in time what became of it. */
  predicate Reports(e: Event, c: Command) {
    && e.Ack? && e.commandId == c.id && e.agent == c.agent && e.nonce == c.nonce
    && c.state == Available && e.now < c.expiresAt && e.outcome in {Completed, Failed, Refused}
  }

  function Retold(c: Command, e: Event): Command {
    if Reports(e, c)
    then c.(state := e.outcome, result := Some(Reported(e.payload)), acknowledgedAt := Some(e.now))
    else if e.Sweep? && c.state == Available && e.now >= c.expiresAt
    then c.(state := Lapsed, result := Some(WindowElapsed))
    else c
  }

  ghost function CommandsOf(agents: map<string, string>, es: seq<Event>): seq<Command> {
    if es == [] then [] else
      var front, e := es[..|es| - 1], es[|es| - 1];
      var before, story := CommandsOf(agents, front), if e.Publish? then StoryOf(agents, front, e.id) else None;
      if e.Publish? && Publishes(story, before, e)
      then
        var made := story.value.made;
        before + [Command(e.commandId, made.tenant, made.agent, e.id, e.nonce, Available, e.now, made.expiresAt, None,
                          None)]
      else seq(|before|, k requires 0 <= k < |before| => Retold(before[k], e))
  }

  ghost predicate OwnNames(cs: seq<Command>) {
    forall j, k :: 0 <= j < k < |cs| ==> cs[j].id != cs[k].id && cs[j].intent != cs[k].intent
  }

  lemma {:induction false} CommandsHaveOwnNames(agents: map<string, string>, es: seq<Event>)
    ensures OwnNames(CommandsOf(agents, es))
  {
    hide Retold, StoryOf, Told;
    if es != [] {
      var front, e := es[..|es| - 1], es[|es| - 1];
      CommandsHaveOwnNames(agents, front);
      var before := CommandsOf(agents, front);
      assert forall k :: 0 <= k < |before| ==> before[k] in before;
      assert forall k :: 0 <= k < |before| ==> SameNames(before[k], Retold(before[k], e)) by {
        forall k | 0 <= k < |before| ensures SameNames(before[k], Retold(before[k], e)) {
          RetoldKeepsNames(before[k], e);
        }
      }
    }
  }

  predicate SameNames(c: Command, d: Command) {
    d.id == c.id && d.intent == c.intent && d.agent == c.agent && d.nonce == c.nonce && d.tenant == c.tenant
  }

  lemma RetoldKeepsNames(c: Command, e: Event)
    ensures SameNames(c, Retold(c, e))
  {
  }

  lemma NothingRetold(c: Command, e: Event)
    requires !e.Ack? && !e.Sweep?
    ensures Retold(c, e) == c
  {
  }

  lemma PublishRetells(s: Store, e: Event, story: Option<Story>)
    requires e.Publish? && Told(story, s, e.id) && (story.Some? ==> story.value.made.Create?)
    ensures Publishes(story, s.commands, e) ==>
      var made := story.value.made;
      Step(s, e).0.commands == s.commands
        + [Command(e.commandId, made.tenant, made.agent, e.id, e.nonce, Available, e.now, made.expiresAt, None, None)]
    ensures !Publishes(story, s.commands, e) ==> Step(s, e).0.commands == s.commands
  {
    hide Approvers, Find, Names;
    FindMeans(s.commands, (c: Command) => c.intent == e.id);
    FindMeans(s.commands, (c: Command) => c.id == e.commandId || c.nonce == e.nonce);
  }

  lemma FindMeans(cs: seq<Command>, p: Command -> bool)
    ensures Find(cs, p).None? <==> forall c :: c in cs ==> !p(c)
  {
    if Find(cs, p).Some? {
      assert cs[Find(cs, p).value] in cs;
    }
  }

  lemma AckRetells(s: Store, e: Event)
    requires e.Ack? && OwnNames(s.commands)
    ensures Step(s, e).0.commands == seq(|s.commands|, k requires 0 <= k < |s.commands| => Retold(s.commands[k], e))
  {
    hide Find;
    var after := Step(s, e).0.commands;
    forall k | 0 <= k < |s.commands| ensures after[k] == Retold(s.commands[k], e) {
    }
  }

  lemma SweepRetells(s: Store, e: Event)
    requires e.Sweep?
    ensures Step(s, e).0.commands == seq(|s.commands|, k requires 0 <= k < |s.commands| => Retold(s.commands[k], e))
  {
    hide SweepIntents, SweepAudits, LateCount, OverdueIds;
  }

  lemma OtherRetells(s: Store, e: Event)
    requires !e.Ack? && !e.Sweep? && !e.Publish?
    ensures Step(s, e).0.commands == s.commands
  {
    hide Approvers, ValidateIntent, Ready;
  }

  lemma Unretold(cs: seq<Command>, e: Event)
    requires !e.Ack? && !e.Sweep?
    ensures seq(|cs|, k requires 0 <= k < |cs| => Retold(cs[k], e)) == cs
  {
  }

  /** The commands are those that were published, in order; each has the state, the payload and the time that its agent
      reported while it was open, or lapsed at the first sweep after its expiry. */
  lemma {:induction false} CommandsFollowRequests(agents: map<string, string>, es: seq<Event>)
    ensures Run(Start(agents), es).commands == CommandsOf(agents, es)
  {
    hide Step, Publishes, Retold, Told, StoryOf;
    if es != [] {
      var front, e := es[..|es| - 1], es[|es| - 1];
      CommandsFollowRequests(agents, front);
      RunBack(Start(agents), es);
      var s := Run(Start(agents), front);
      if e.Publish? {
        IntentsFollowRequests(agents, front, e.id);
        StoryIsOfCreate(agents, front, e.id);
        PublishRetells(s, e, StoryOf(agents, front, e.id));
        Unretold(s.commands, e);
      } else if e.Ack? {
        CommandsHaveOwnNames(agents, front);
        AckRetells(s, e);
      } else if e.Sweep? {
        SweepRetells(s, e);
      } else {
        OtherRetells(s, e);
        Unretold(s.commands, e);
      }
    }
  }

  lemma StoryIsOfCreate(agents: map<string, string>, es: seq<Event>, id: string)
    ensures StoryOf(agents, es, id).Some? ==> StoryOf(agents, es, id).value.made.Create?
  {
  }

  // ---------------------------------------------------------------- approved or commanded means two other keys

  /** A command was published when two other keys had approved; these stay on record. */
  lemma {:induction false} CommandedHasTwo(agents: map<string, string>, es: seq<Event>, k: nat)
    requires k < |CommandsOf(agents, es)|
    ensures
      var story := StoryOf(agents, es, CommandsOf(agents, es)[k].intent);
      story.Some? && story.value.made.Create? && TwoOthers(story.value)
  {
    hide TwoOthers, Retold, Next, Decision;
    var front, e := es[..|es| - 1], es[|es| - 1];
    var before := CommandsOf(agents, front);
    if k < |before| {
      CommandedHasTwo(agents, front, k);
      RetoldKeepsNames(before[k], e);
      var id := before[k].intent;
      StaysTwo(StoryOf(agents, front, id).value, e, id);
    } else {
      var story := StoryOf(agents, front, e.id).value;
      StoriesDecidedByTwo(agents, front, e.id);
      TwoOthersIf(story);
      StaysTwo(story, e, e.id);
    }
  }

  lemma StaysTwo(story: Story, e: Event, id: string)
    requires story.made.Create? && TwoOthers(story)
    ensures Next(story, e, id).made == story.made && TwoOthers(Next(story, e, id))
  {
  }

  /** Every intent that is approved, or has a command, was approved by two accepted requests whose keys differ from each
      other and from the key of the request that created it. */
  lemma TwoOthersApproved(agents: map<string, string>, es: seq<Event>, id: string)
    requires id in Run(Start(agents), es).intents
    requires Run(Start(agents), es).intents[id].state.Approved? || Commanded(Run(Start(agents), es).commands, id)
    ensures exists made, k, l ::
      && made in es && Creates(agents, made, id) && k != l && k != made.key && l != made.key
      && ApprovedBy(agents, es, id, k) && ApprovedBy(agents, es, id, l)
  {
    hide Creates, ApprovedBy, Run, Next, Decision, Names, Publishes, CommandsOf;
    IntentsFollowRequests(agents, es, id);
    StoryIsOfCreate(agents, es, id);
    var story := StoryOf(agents, es, id).value;
    if Commanded(Run(Start(agents), es).commands, id) {
      CommandsFollowRequests(agents, es);
      var k :| 0 <= k < |CommandsOf(agents, es)| && CommandsOf(agents, es)[k].intent == id;
      CommandedHasTwo(agents, es, k);
    } else {
      StoriesDecidedByTwo(agents, es, id);
      TwoOthersIf(story);
    }
    var k, l :| k in story.keys && l in story.keys && k != l && k != story.made.key && l != story.made.key;
    KeysApproved(agents, es, id, k);
    KeysApproved(agents, es, id, l);
  }
}
