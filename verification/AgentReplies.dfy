/** What a poll does and answers, told exchange by exchange from the file and the list of commands alone. */
module AgentReplies {
  import opened AgentClient

  /** What the agent answers: a nonce in the file or named before is a replay, anything but a collection is refused, and
      a collection is completed if its heartbeat was submitted. */
  function StateAt(file: set<string>, es: seq<Exchange>, j: nat): AckState
    requires j < |es|
  {
    if es[j].nonce in file || NamedIn(es, j, es[j].nonce) then ReplayDetected
    else if es[j].kind != "collect_inventory" then NotAllowlisted
    else if es[j].heartbeat == Submitted then Completed
    else Failed
  }

  /** An exchange without a nonce or an identifier is passed over. */
  predicate Named(e: Exchange) {
    e.nonce != "" && e.id != ""
  }

  predicate Triggers(file: set<string>, es: seq<Exchange>, j: nat)
    requires j < |es|
  {
    Named(es[j]) && StateAt(file, es, j) in {Completed, Failed}
  }

  predicate Answers(file: set<string>, es: seq<Exchange>, j: nat)
    requires j < |es|
  {
    Named(es[j]) && !(Triggers(file, es, j) && es[j].heartbeat == BrokeOff)
  }

  /** The nonces that trigger an inventory among the first n exchanges. */
  function TriggeredIn(file: set<string>, es: seq<Exchange>, n: nat): seq<string>
    requires n <= |es|
  {
    if n == 0 then []
    else TriggeredIn(file, es, n - 1) + if Triggers(file, es, n - 1) then [es[n - 1].nonce] else []
  }

  function AnsweredIn(file: set<string>, es: seq<Exchange>, n: nat): seq<Ack>
    requires n <= |es|
  {
    if n == 0 then []
    else
      AnsweredIn(file, es, n - 1) +
      if Answers(file, es, n - 1) then [Ack(es[n - 1].id, es[n - 1].nonce, StateAt(file, es, n - 1))] else []
  }

  /** How many inventories among them were triggered and acknowledged. */
  function HandledIn(file: set<string>, es: seq<Exchange>, n: nat): nat
    requires n <= |es|
  {
    if n == 0 then 0
    else
      HandledIn(file, es, n - 1) +
      if Triggers(file, es, n - 1) && Answers(file, es, n - 1) && es[n - 1].acknowledged then 1 else 0
  }

  ghost predicate Did(s: Session, file: set<string>, es: seq<Exchange>, n: nat)
    requires n <= |es|
  {
    s.executed == TriggeredIn(file, es, n) && s.acks == AnsweredIn(file, es, n) && s.handled == HandledIn(file, es, n)
  }

  lemma TriggersIsExecutes(file: set<string>, es: seq<Exchange>, j: nat)
    requires j < |es|
    ensures Triggers(file, es, j) == ExecutesAt(file, es, j)
  {
    hide NamedIn;
  }

  lemma HandleDid(s: Session, file: set<string>, es: seq<Exchange>, n: nat)
    requires n < |es| && !s.aborted && Did(s, file, es, n)
    requires es[n].nonce in s.seen <==> es[n].nonce in file || NamedIn(es, n, es[n].nonce)
    ensures Did(Handle(s, es[n]), file, es, n + 1)
  {
    hide NamedIn;
  }

  lemma SeenAt(file: set<string>, es: seq<Exchange>, n: nat)
    requires n < |es| && Unbroken(file, es, n)
    ensures !HandleAll(file, es[..n]).aborted
    ensures es[n].nonce in HandleAll(file, es[..n]).seen <==> es[n].nonce in file || NamedIn(es, n, es[n].nonce)
  {
    hide HandleAll, NamedIn, BreaksAt, ExecutesAt;
    PrefixSame(file, es, n);
    UnbrokenPoll(file, es[..n]);
    NamedPrefix(es, n, n, es[n].nonce);
  }

  lemma {:induction false} UnbrokenDid(file: set<string>, es: seq<Exchange>, n: nat)
    requires n <= |es| && Unbroken(file, es, n)
    ensures Did(HandleAll(file, es[..n]), file, es, n)
  {
    hide Handle, NamedIn, BreaksAt, Did;
    if n == 0 {
      assert Did(HandleAll(file, es[..0]), file, es, 0) by { NothingDone(file, es); }
    } else {
      UnbrokenDid(file, es, n - 1);
      SeenAt(file, es, n - 1);
      HandleDid(HandleAll(file, es[..n - 1]), file, es, n - 1);
      assert es[..n][..n - 1] == es[..n - 1] && es[..n][n - 1] == es[n - 1];
    }
  }

  lemma NothingDone(file: set<string>, es: seq<Exchange>)
    ensures Did(HandleAll(file, es[..0]), file, es, 0)
  {
  }

  /** A poll goes through its exchanges up to the first one that ends it, if there is one, and with that triggers,
      answers and counts exactly what they call for. */
  lemma PollDoes(file: set<string>, es: seq<Exchange>, n: nat)
    requires n <= |es| && Unbroken(file, es, n) && (n < |es| ==> BreaksAt(file, es, n))
    ensures Did(HandleAll(file, es), file, es, if n < |es| then n + 1 else n)
    ensures HandleAll(file, es).aborted <==> n < |es|
  {
    hide HandleAll, Handle, NamedIn, BreaksAt, Did, Unbroken;
    UnbrokenDid(file, es, n);
    assert es[..|es|] == es;
    if n < |es| {
      SeenAt(file, es, n);
      HandleDid(HandleAll(file, es[..n]), file, es, n);
      BrokenPoll(file, es, n);
      UpToBreak(file, es, n);
    } else {
      UnbrokenPoll(file, es);
    }
  }

  lemma UpToBreak(file: set<string>, es: seq<Exchange>, n: nat)
    requires n < |es| && Unbroken(file, es, n) && BreaksAt(file, es, n)
    ensures HandleAll(file, es) == Handle(HandleAll(file, es[..n]), es[n])
  {
    hide NamedIn, Handle, Unbroken;
    assert es[..n + 1][..n] == es[..n] && es[..n + 1][n] == es[n];
    SeenAt(file, es, n);
    BreakAborts(HandleAll(file, es[..n]), file, es, n);
    AbortedStays(file, es, n + 1);
  }

  lemma BreakAborts(s: Session, file: set<string>, es: seq<Exchange>, n: nat)
    requires n < |es| && !s.aborted && BreaksAt(file, es, n)
    requires es[n].nonce in s.seen <==> es[n].nonce in file || NamedIn(es, n, es[n].nonce)
    ensures Handle(s, es[n]).aborted
  {
    hide NamedIn;
  }
}
