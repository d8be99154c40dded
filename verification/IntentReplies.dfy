/** What each request is told, by the requests before it: who is accepted, who is refused and why, and that replies show
    the rows as they then are. */
module IntentReplies {
  import opened Options
  import opened EndpointIntents
  import opened IntentSafety
  import opened IntentHistory

  function Before(agents: map<string, string>, es: seq<Event>): Store {
    Run(Start(agents), es)
  }

  // ---------------------------------------------------------------- the requester stays the requester

  lemma {:induction false} CreatorStays(agents: map<string, string>, es: seq<Event>, rest: seq<Event>, id: string)
    requires StoryOf(agents, es, id).Some?
    ensures
      var after := StoryOf(agents, es + rest, id);
      after.Some? && after.value.made == StoryOf(agents, es, id).value.made
  {
    hide Creates, Decision;
    if rest == [] {
      assert es + rest == es;
    } else {
      var n := |rest| - 1;
      assert (es + rest)[..|es + rest| - 1] == es + rest[..n];
      CreatorStays(agents, es, rest[..n], id);
    }
  }

  lemma AcceptedCreates(agents: map<string, string>, es: seq<Event>, e: Event)
    requires e.Create?
    ensures Step(Before(agents, es), e).1.Intended? <==> Creates(agents, e, e.id) && StoryOf(agents, es, e.id).None?
    ensures Step(Before(agents, es), e).1.Invalid? <==>
      e.kind !in {"isolate_network", "collect_inventory", "rotate_agent_certificate"}
  {
    hide StoryOf, Run, ValidateIntent, Approvers;
    IntentsFollowRequests(agents, es, e.id);
  }

  /** Once the request is accepted, its caller is the requester of the intent for good, with tenant, agent, kind and
      expiry as asked for. */
  lemma CreatorIsRequester(agents: map<string, string>, es: seq<Event>, e: Event, rest: seq<Event>)
    requires e.Create? && Step(Before(agents, es), e).1.Intended?
    ensures
      var s := Before(agents, es + [e] + rest);
      && e.id in s.intents
      && var i := s.intents[e.id];
         && i.requestedBy == "api_key:" + e.key && i.tenant == e.tenant && i.agent == e.agent && i.kind == e.kind
         && i.expiresAt == e.expiresAt
  {
    hide Step, Run, Next, Decision, Names;
    AcceptedCreates(agents, es, e);
    assert (es + [e])[..|es|] == es;
    CreatorStays(agents, es + [e], rest, e.id);
    IntentsFollowRequests(agents, es + [e] + rest, e.id);
  }

  lemma EntryIsOther(agents: map<string, string>, before: Option<Story>, e: Event, id: string, x: Audit)
    requires before.Some? && before.value.made.Create? && x.event.RequestedEvent?
    ensures Entry(agents, before, e, id)[x] == 0
  {
    hide Next;
  }

  lemma {:induction false} RequestedOnce(agents: map<string, string>, es: seq<Event>, id: string, x: Audit)
    requires x.event.RequestedEvent?
    ensures StoryOf(agents, es, id).None? ==> TrailOf(agents, es, id)[x] == 0
    ensures StoryOf(agents, es, id).Some? ==>
      var made := StoryOf(agents, es, id).value.made;
      made.Create?
      && TrailOf(agents, es, id)[x] == if x == Audit(id, "api_key:" + made.key, RequestedEvent, made.now) then 1 else 0
  {
    hide Next, Decision;
    if es != [] {
      var front, e := es[..|es| - 1], es[|es| - 1];
      RequestedOnce(agents, front, id, x);
      if StoryOf(agents, front, id).Some? {
        EntryIsOther(agents, StoryOf(agents, front, id), e, id, x);
        KeepsCreator(StoryOf(agents, front, id).value, e, id);
      }
    }
  }

  lemma KeepsCreator(story: Story, e: Event, id: string)
    requires story.made.Create?
    ensures Next(story, e, id).made == story.made
  {
  }

  /** Every intent has one row that says who requested it, and that row names its requester. */
  lemma RequestIsRecorded(agents: map<string, string>, es: seq<Event>, x: Audit)
    requires x.event.RequestedEvent?
    ensures
      var s := Before(agents, es);
      x.intent in s.intents && x in s.audits ==>
        x.actor == s.intents[x.intent].requestedBy && s.audits[x] == 1
    ensures
      var s := Before(agents, es);
      x.intent in s.intents ==>
        exists at :: Audit(x.intent, s.intents[x.intent].requestedBy, RequestedEvent, at) in s.audits
  {
    hide Run, StoryOf, Creates, Names, TrailOf;
    var s, id := Before(agents, es), x.intent;
    IntentsFollowRequests(agents, es, id);
    TrailsFollowRequests(agents, es, id);
    RequestedOnce(agents, es, id, x);
    if id in s.intents {
      var made := StoryOf(agents, es, id).value.made;
      RequestedOnce(agents, es, id, Audit(id, "api_key:" + made.key, RequestedEvent, made.now));
      assert Audit(id, s.intents[id].requestedBy, RequestedEvent, made.now) in s.audits;
    }
  }

  // ---------------------------------------------------------------- decisions

  predicate InTenant(story: Option<Story>, tenant: string)
    requires story.Some? ==> story.value.made.Create?
  {
    story.Some? && story.value.made.tenant == tenant
  }

  /** An approval is taken exactly within the tenant and from a key that has not approved yet; the reply is the row. */
  lemma ApprovalReply(agents: map<string, string>, es: seq<Event>, e: Event)
    requires e.Approve?
    ensures
      var story, r := StoryOf(agents, es, e.id), Step(Before(agents, es), e).1;
      && (story.Some? ==> story.value.made.Create?)
      && (r == NotFound <==> !InTenant(story, e.tenant))
      && (r == Conflict <==> InTenant(story, e.tenant) && e.key in story.value.keys)
      && (r.Intended? <==> InTenant(story, e.tenant) && e.key !in story.value.keys)
      && (r.Intended? ==>
            && e.id in Step(Before(agents, es), e).0.intents
            && r.intent == Step(Before(agents, es), e).0.intents[e.id])
  {
    hide StoryOf, Run, ValidateIntent, Approvers, Names;
    IntentsFollowRequests(agents, es, e.id);
    StoryIsOfCreate(agents, es, e.id);
    var story := StoryOf(agents, es, e.id);
    if story.Some? {
      NameIn(story.value.keys, e.key);
    }
  }

  /** A cancellation is taken exactly within the tenant and while the intent is pending. */
  lemma CancellationReply(agents: map<string, string>, es: seq<Event>, e: Event)
    requires e.Cancel?
    ensures
      var story, r := StoryOf(agents, es, e.id), Step(Before(agents, es), e).1;
      && (story.Some? ==> story.value.made.Create?)
      && (r == NotFound <==> !InTenant(story, e.tenant))
      && (r == Conflict <==> InTenant(story, e.tenant) && story.value.state != Pending)
      && (r.Intended? <==> InTenant(story, e.tenant) && story.value.state == Pending)
      && (r.Intended? ==>
            && e.id in Step(Before(agents, es), e).0.intents
            && r.intent == Step(Before(agents, es), e).0.intents[e.id])
  {
    hide StoryOf, Run, Approvers, Names;
    IntentsFollowRequests(agents, es, e.id);
    StoryIsOfCreate(agents, es, e.id);
  }

  /** A creation that is accepted answers with the row. */
  lemma CreationReply(agents: map<string, string>, es: seq<Event>, e: Event)
    requires e.Create? && Step(Before(agents, es), e).1.Intended?
    ensures
      var (after, r) := Step(Before(agents, es), e);
      e.id in after.intents && r.intent == after.intents[e.id]
  {
    hide Run, Approvers;
  }

  /** A look shows the row of the intent within its tenant, and as effective state its state, or expired if it is still
      pending at its expiry or later. */
  lemma ViewReply(agents: map<string, string>, es: seq<Event>, e: Event)
    requires e.View?
    ensures
      var story, r := StoryOf(agents, es, e.id), Step(Before(agents, es), e).1;
      && (story.Some? ==> story.value.made.Create?)
      && (if InTenant(story, e.tenant)
          then
            && e.id in Before(agents, es).intents
            && r == Viewed(Before(agents, es).intents[e.id],
                           if story.value.state == Pending && e.now >= story.value.made.expiresAt then Expired
                           else story.value.state)
          else r == NotFound)
  {
    hide StoryOf, Run, Approvers, Names;
    IntentsFollowRequests(agents, es, e.id);
    StoryIsOfCreate(agents, es, e.id);
  }

  // ---------------------------------------------------------------- commands

  /** A publication is answered with the one command of the intent, new or already published, and refused otherwise. */
  lemma PublicationReply(agents: map<string, string>, es: seq<Event>, e: Event)
    requires e.Publish?
    ensures
      var story, cs := StoryOf(agents, es, e.id), CommandsOf(agents, es);
      var (after, r) := Step(Before(agents, es), e);
      && (story.Some? ==> story.value.made.Create?)
      && (r == NotFound <==> !InTenant(story, e.tenant))
      && (r.Issued? <==> InTenant(story, e.tenant) && (Commanded(cs, e.id) || Publishes(story, cs, e)))
      && (r.Issued? || r == NotFound || r == Conflict)
      && (r.Issued? ==> r.command in after.commands && r.command.intent == e.id)
  {
    hide StoryOf, Run, Approvers, Names, CommandsOf, Find;
    IntentsFollowRequests(agents, es, e.id);
    CommandsFollowRequests(agents, es);
    StoryIsOfCreate(agents, es, e.id);
    var cs := CommandsOf(agents, es);
    CommandedMeans(cs, e.id);
    CommandedIn(cs, e.id);
    FindMeans(cs, (c: Command) => c.id == e.commandId || c.nonce == e.nonce);
    FindAt(cs, (c: Command) => c.intent == e.id);
  }

  lemma FindAt(cs: seq<Command>, p: Command -> bool)
    ensures Find(cs, p).Some? ==> Find(cs, p).value < |cs| && p(cs[Find(cs, p).value]) && cs[Find(cs, p).value] in cs
  {
  }

  lemma CommandedIn(cs: seq<Command>, id: string)
    ensures Commanded(cs, id) <==> exists c :: c in cs && c.intent == id
  {
    if Commanded(cs, id) {
      var k :| 0 <= k < |cs| && cs[k].intent == id;
      assert cs[k] in cs;
    }
  }

  /** An acknowledgement names a command of the agent with its nonce. It is recorded exactly if it reports in time, as
      the agent says; a command that is closed is shown as it is, and one that is open but late is refused. */
  lemma AcknowledgementReply(agents: map<string, string>, es: seq<Event>, e: Event, k: nat)
    requires e.Ack? && k < |CommandsOf(agents, es)|
    requires CommandsOf(agents, es)[k].id == e.commandId && CommandsOf(agents, es)[k].agent == e.agent
    ensures
      var c, r := CommandsOf(agents, es)[k], Step(Before(agents, es), e).1;
      r ==
        if e.outcome !in {Completed, Failed, Refused} then Invalid
        else if e.nonce != c.nonce then Conflict
        else if c.state != Available then Acknowledged(c, false)
        else if e.now >= c.expiresAt then CommandExpired
        else Acknowledged(
          c.(state := e.outcome, result := Some(Reported(e.payload)), acknowledgedAt := Some(e.now)), true)
  {
    hide Run, CommandsOf, Find;
    CommandsFollowRequests(agents, es);
    CommandsHaveOwnNames(agents, es);
    FindAt(CommandsOf(agents, es), (c: Command) => c.id == e.commandId && c.agent == e.agent);
    FindMeans(CommandsOf(agents, es), (c: Command) => c.id == e.commandId && c.agent == e.agent);
    assert CommandsOf(agents, es)[k] in CommandsOf(agents, es);
  }

  /** An acknowledgement of nothing that the agent was sent is not found. */
  lemma StrangeAcknowledgement(agents: map<string, string>, es: seq<Event>, e: Event)
    requires e.Ack? && forall c :: c in CommandsOf(agents, es) ==> !(c.id == e.commandId && c.agent == e.agent)
    ensures Step(Before(agents, es), e).1 ==
      if e.outcome !in {Completed, Failed, Refused} then Invalid else NotFound
  {
    hide Run, CommandsOf, Find;
    CommandsFollowRequests(agents, es);
    FindMeans(CommandsOf(agents, es), (c: Command) => c.id == e.commandId && c.agent == e.agent);
  }

  // ---------------------------------------------------------------- polls

  /** The command is open for this agent at this time. */
  predicate OpenFor(c: Command, agent: string, now: int) {
    c.agent == agent && c.state == Available && c.availableAt <= now < c.expiresAt
  }

  ghost predicate Increasing(at: seq<nat>, n: nat) {
    (forall j :: 0 <= j < |at| ==> at[j] < n) && forall i, j :: 0 <= i < j < |at| ==> at[i] < at[j]
  }

  /** The rows at these positions are all that are open. */
  ghost predicate AllOpen(cs: seq<Command>, agent: string, now: int, at: seq<nat>) {
    Increasing(at, |cs|) && forall k :: 0 <= k < |cs| ==> (k in at <==> OpenFor(cs[k], agent, now))
  }

  ghost predicate Listed(cs: seq<Command>, at: seq<nat>, list: seq<Command>) {
    |list| == |at| && forall j :: 0 <= j < |at| ==> at[j] < |cs| && list[j] == cs[at[j]]
  }

  lemma OpenPush(cs: seq<Command>, c: Command, agent: string, now: int, at: seq<nat>, list: seq<Command>)
    requires AllOpen(cs, agent, now, at) && Listed(cs, at, list)
    ensures OpenFor(c, agent, now) ==>
      AllOpen(cs + [c], agent, now, at + [|cs|]) && Listed(cs + [c], at + [|cs|], list + [c])
    ensures !OpenFor(c, agent, now) ==> AllOpen(cs + [c], agent, now, at) && Listed(cs + [c], at, list)
  {
    hide OpenFor;
    var longer := cs + [c];
    assert longer[|cs|] == c && forall k :: 0 <= k < |cs| ==> longer[k] == cs[k];
    assert forall k :: k in at + [|cs|] <==> k in at || k == |cs|;
  }

  lemma ReadyNext(cs: seq<Command>, agent: string, now: int)
    requires cs != []
    ensures
      var n := |cs| - 1;
      Ready(cs, agent, now) == Ready(cs[..n], agent, now) + if OpenFor(cs[n], agent, now) then [cs[n]] else []
  {
  }

  lemma {:induction false} ReadyListed(cs: seq<Command>, agent: string, now: int) returns (at: seq<nat>)
    ensures AllOpen(cs, agent, now, at) && Listed(cs, at, Ready(cs, agent, now))
  {
    hide AllOpen, Listed, OpenFor, Ready;
    if cs == [] {
      at := [];
      NoneReady(agent, now);
    } else {
      var n := |cs| - 1;
      var front := ReadyListed(cs[..n], agent, now);
      ReadyNext(cs, agent, now);
      OpenPush(cs[..n], cs[n], agent, now, front, Ready(cs[..n], agent, now));
      assert cs[..n] + [cs[n]] == cs;
      at := if OpenFor(cs[n], agent, now) then front + [n] else front;
      if !OpenFor(cs[n], agent, now) {
        assert Ready(cs, agent, now) == Ready(cs[..n], agent, now);
      }
    }
  }

  lemma NoneReady(agent: string, now: int)
    ensures AllOpen([], agent, now, []) && Listed([], [], Ready([], agent, now))
  {
  }

  /** A poll returns the oldest commands that are open for the agent, up to ten, in order of issue, and no others. */
  lemma PollReply(agents: map<string, string>, es: seq<Event>, e: Event) returns (at: seq<nat>)
    requires e.Poll?
    ensures AllOpen(CommandsOf(agents, es), e.agent, e.now, at)
    ensures
      var r := Step(Before(agents, es), e).1;
      && r.Polled? && |r.commands| == (if |at| < 10 then |at| else 10)
      && forall j :: 0 <= j < |r.commands| ==> r.commands[j] == CommandsOf(agents, es)[at[j]]
  {
    hide Run, CommandsOf, Ready;
    CommandsFollowRequests(agents, es);
    at := ReadyListed(CommandsOf(agents, es), e.agent, e.now);
  }

  // ---------------------------------------------------------------- the sweep

  lemma {:induction false} LateAreCounted(cs: seq<Command>, now: int)
    ensures LateCount(cs, now) == |set k: nat | k < |cs| && Late(cs[k], now)|
  {
    var late := set k: nat | k < |cs| && Late(cs[k], now);
    if cs == [] {
      assert late == {};
    } else {
      var n := |cs| - 1;
      LateAreCounted(cs[..n], now);
      var before := set k: nat | k < n && Late(cs[..n][k], now);
      assert late == before + if Late(cs[n], now) then {n} else {};
    }
  }

  /** The sweep closes every intent that still waits at its expiry or later, and every command still open then, and
      reports how many rows of both it changed. */
  lemma SweepReply(agents: map<string, string>, es: seq<Event>, e: Event)
    requires e.Sweep?
    ensures
      var s := Before(agents, es);
      var (after, r) := Step(s, e);
      var closed := set id | id in s.intents && s.intents[id].state == Pending && e.now >= s.intents[id].expiresAt;
      var lapsed := set k: nat | k < |s.commands| && s.commands[k].state == Available
                                 && e.now >= s.commands[k].expiresAt;
      && r == Swept(|closed| + |lapsed|) && after.intents.Keys == s.intents.Keys && |after.commands| == |s.commands|
      && (forall id :: id in s.intents ==> (after.intents[id].state != s.intents[id].state <==> id in closed))
      && (forall k: nat :: k < |s.commands| ==> (after.commands[k] != s.commands[k] <==> k in lapsed))
  {
    hide Run, LateCount, LateFor, SweepAudits;
    var s := Before(agents, es);
    LateAreCounted(s.commands, e.now);
    assert OverdueIds(s.intents, e.now)
        == set id | id in s.intents && s.intents[id].state == Pending && e.now >= s.intents[id].expiresAt;
    assert (set k: nat | k < |s.commands| && Late(s.commands[k], e.now))
        == set k: nat | k < |s.commands| && s.commands[k].state == Available && e.now >= s.commands[k].expiresAt;
  }
}
