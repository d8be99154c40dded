/** Command polling by the endpoint agent (endpoint_agent/client.py): nonces seen in earlier polls are kept in a file,
    of which only the last so many in sorted order survive. */
module AgentClient {
  import opened Sequences

  const ALLOWED_COMMANDS := {"collect_inventory"}

  /** What became of a heartbeat: submitted, refused with the error the agent expects, or broken off by another. */
  datatype Heartbeat = Submitted | Refused | BrokeOff

  /** A polled command with the way the server answers to its heartbeat and its acknowledgement. */
  datatype Exchange = Exchange(id: string, nonce: string, kind: string, heartbeat: Heartbeat, acknowledged: bool)

  datatype AckState = Completed | Failed | ReplayDetected | NotAllowlisted

  datatype Ack = Ack(id: string, nonce: string, state: AckState)

  /** One poll so far: the nonces seen, the inventories triggered and the acknowledgements sent, in order. */
  datatype Session = Session(seen: set<string>, executed: seq<string>, acks: seq<Ack>, handled: nat, aborted: bool)

  predicate Complete(e: Exchange) {
    e.nonce != "" && e.id != ""
  }

  function AckOf(e: Exchange, seen: set<string>): AckState {
    if e.nonce in seen then ReplayDetected
    else if e.kind !in ALLOWED_COMMANDS then NotAllowlisted
    else if e.heartbeat.Submitted? then Completed else Failed
  }

  predicate Executes(e: Exchange, seen: set<string>) {
    Complete(e) && e.nonce !in seen && e.kind in ALLOWED_COMMANDS
  }

  function Handle(s: Session, e: Exchange): Session {
    if s.aborted || !Complete(e) then s else
      var executed := if Executes(e, s.seen) then s.executed + [e.nonce] else s.executed;
      if Executes(e, s.seen) && e.heartbeat.BrokeOff?
      then Session(s.seen + {e.nonce}, executed, s.acks, s.handled, true)
      else Session(
        s.seen + {e.nonce}, executed, s.acks + [Ack(e.id, e.nonce, AckOf(e, s.seen))],
        if Executes(e, s.seen) && e.acknowledged then s.handled + 1 else s.handled, !e.acknowledged)
  }

  function HandleAll(seen: set<string>, es: seq<Exchange>): Session {
    if es == [] then Session(seen, [], [], 0, false) else Handle(HandleAll(seen, es[..|es| - 1]), es[|es| - 1])
  }

  // ---------------------------------------------------------------- the nonce file

  predicate Less(a: string, b: string) {
    if a == "" then b != "" else if b == "" then false else a[0] < b[0] || (a[0] == b[0] && Less(a[1..], b[1..]))
  }

  function Above(seen: set<string>, x: string): set<string> {
    set y | y in seen && Less(x, y)
  }

  /** The last `cap` nonces in sorted order: those with fewer than `cap` others above them. */
  function Kept(seen: set<string>, cap: nat): set<string> {
    set x | x in seen && |Above(seen, x)| < cap
  }

  // ---------------------------------------------------------------- polls

  datatype Agent = Agent(file: set<string>, executed: seq<string>)

  function Poll(a: Agent, es: seq<Exchange>, cap: nat): Agent {
    var s := HandleAll(a.file, es);
    Agent(if s.aborted then a.file else Kept(s.seen, cap), a.executed + s.executed)
  }

  function Polls(a: Agent, polls: seq<seq<Exchange>>, cap: nat): Agent {
    if polls == [] then a else Poll(Polls(a, polls[..|polls| - 1], cap), polls[|polls| - 1], cap)
  }

  class Client {
    const cap: nat
    var file: set<string>
    var executed: seq<string>
    var acks: seq<Ack>

    constructor (cap: nat)
      ensures this.cap == cap && file == {} && executed == [] && acks == []
    {
      this.cap := cap;
      file, executed, acks := {}, [], [];
    }

    /** Returns normally unless an acknowledgement fails or a heartbeat breaks off; only then is the file left alone. */
    method PollCommands(commands: seq<Exchange>) returns (handled: nat, returned: bool)
      modifies this
      ensures Agent(file, executed) == Poll(Agent(old(file), old(executed)), commands, cap)
      ensures
        var s := HandleAll(old(file), commands);
        acks == old(acks) + s.acks && handled == s.handled && returned == !s.aborted
    {
      hide Kept;
      var seen := file;
      handled, returned := 0, true;
      ghost var s := HandleAll(file, []);
      var i := 0;
      while i < |commands| && returned
        invariant 0 <= i <= |commands| && s == HandleAll(old(file), commands[..i]) && file == old(file)
        invariant s.seen == seen && s.handled == handled && s.aborted == !returned
        invariant executed == old(executed) + s.executed && acks == old(acks) + s.acks
      {
        var e := commands[i];
        assert commands[..i + 1][..i] == commands[..i];
        s := Handle(s, e);
        i := i + 1;
        if e.nonce != "" && e.id != "" {
          if e.nonce in seen {
            acks := acks + [Ack(e.id, e.nonce, ReplayDetected)];
            returned := e.acknowledged;
          } else {
            seen := seen + {e.nonce};
            if e.kind !in ALLOWED_COMMANDS {
              acks := acks + [Ack(e.id, e.nonce, NotAllowlisted)];
              returned := e.acknowledged;
            } else {
              executed := executed + [e.nonce];
              if e.heartbeat.BrokeOff? {
                returned := false;
              } else {
                acks := acks + [Ack(e.id, e.nonce, if e.heartbeat.Submitted? then Completed else Failed)];
                returned := e.acknowledged;
                handled := if e.acknowledged then handled + 1 else handled;
              }
            }
          }
        }
      }
      AbortedStays(old(file), commands, i);
      if returned {
        assert commands[..i] == commands;
        file := Kept(seen, cap);
      }
    }
  }

  lemma {:induction false} AbortedStays(seen: set<string>, es: seq<Exchange>, i: nat)
    requires i <= |es| && (i < |es| ==> HandleAll(seen, es[..i]).aborted)
    ensures HandleAll(seen, es) == HandleAll(seen, es[..i])
  {
    if i == |es| {
      assert es[..i] == es;
    } else {
      assert es[..|es| - 1][..i] == es[..i];
      AbortedStays(seen, es[..|es| - 1], i);
    }
  }

  /** The commands that name a nonce and an identifier. */
  function CompleteOnes(es: seq<Exchange>): seq<Exchange> {
    Filter((e: Exchange) => Complete(e), es)
  }

  /** A poll that returns normally answers every complete command once, in order, and counts the inventories it
      triggered. */
  lemma {:induction false} AcksAnswerCommands(seen: set<string>, es: seq<Exchange>)
    requires !HandleAll(seen, es).aborted
    ensures
      var s, asked := HandleAll(seen, es), CompleteOnes(es);
      && |s.acks| == |asked| && s.handled == |s.executed|
      && forall i :: 0 <= i < |asked| ==> s.acks[i].id == asked[i].id && s.acks[i].nonce == asked[i].nonce
  {
    if es != [] {
      AcksAnswerCommands(seen, es[..|es| - 1]);
    }
  }

  /** A nonce that was seen before, in this poll or in the file, is answered as a replay and triggers nothing. */
  lemma ReplaysAreRejected(s: Session, e: Exchange)
    requires !s.aborted && Complete(e) && e.nonce in s.seen
    ensures Handle(s, e).executed == s.executed && Handle(s, e).handled == s.handled
    ensures Handle(s, e).acks == s.acks + [Ack(e.id, e.nonce, ReplayDetected)]
  {
  }

  // ---------------------------------------------------------------- what a file keeps

  lemma {:induction false} LessIrreflexive(a: string)
    ensures !Less(a, a)
  {
    if a != "" {
      LessIrreflexive(a[1..]);
    }
  }

  lemma {:induction false} LessTotal(a: string, b: string)
    ensures Less(a, b) || a == b || Less(b, a)
  {
    if a != "" && b != "" {
      LessTotal(a[1..], b[1..]);
      assert a[1..] == b[1..] && a[0] == b[0] ==> a == [a[0]] + a[1..] == b;
    }
  }

  lemma {:induction false} LessTransitive(a: string, b: string, c: string)
    requires Less(a, b) && Less(b, c)
    ensures Less(a, c)
  {
    if a != "" && a[0] == b[0] == c[0] {
      LessTransitive(a[1..], b[1..], c[1..]);
    }
  }

  lemma SmallerSet<T>(a: set<T>, b: set<T>)
    requires a < b
    ensures |a| < |b|
  {
    var x :| x in b && x !in a;
    assert b == a + (b - a) && x in b - a;
  }

  /** Up to its size, the file keeps every nonce. */
  lemma AllKept(seen: set<string>, cap: nat)
    requires |seen| <= cap
    ensures Kept(seen, cap) == seen
  {
    forall x | x in seen ensures |Above(seen, x)| < cap {
      LessIrreflexive(x);
      assert x !in Above(seen, x);
      SmallerSet(Above(seen, x), seen);
    }
  }

  lemma {:induction false} Lowest(seen: set<string>) returns (low: string)
    requires seen != {}
    ensures low in seen && forall y :: y in seen && y != low ==> Less(low, y)
    decreases |seen|
  {
    var x :| x in seen;
    if seen == {x} {
      low := x;
    } else {
      var rest := seen - {x};
      assert rest < seen;
      SmallerSet(rest, seen);
      var other :| other in seen && other != x;
      assert other in rest;
      var y := Lowest(rest);
      LessTotal(x, y);
      if Less(x, y) {
        low := x;
        forall z | z in seen && z != x ensures Less(x, z) {
          if z != y {
            LessTransitive(x, y, z);
          }
        }
      } else {
        low := y;
      }
    }
  }

  /** Beyond it, the lowest nonce is forgotten. */
  lemma LowestForgotten(seen: set<string>, cap: nat) returns (low: string)
    requires |seen| > cap
    ensures low in seen && low !in Kept(seen, cap)
    ensures forall x :: x in seen && x != low ==> Less(low, x)
  {
    low := Lowest(seen);
    assert Above(seen, low) == seen - {low} by {
      LessIrreflexive(low);
    }
    assert |seen - {low}| == |seen| - 1;
  }

  /** Every nonce that is kept stands above every one that is forgotten. */
  lemma ForgottenAreLower(seen: set<string>, cap: nat, x: string, y: string)
    requires x in Kept(seen, cap) && y in seen && y !in Kept(seen, cap)
    ensures Less(y, x)
  {
    LessTotal(x, y);
    if Less(x, y) {
      forall z | z in Above(seen, y) ensures z in Above(seen, x) {
        LessTransitive(x, y, z);
      }
      LessIrreflexive(y);
      assert y in Above(seen, x) && y !in Above(seen, y);
      SmallerSet(Above(seen, y), Above(seen, x));
    }
  }

  /** The file holds as many nonces as it can. */
  lemma {:induction false} KeptSize(seen: set<string>, cap: nat)
    ensures |Kept(seen, cap)| == if |seen| <= cap then |seen| else cap
    decreases |seen|
  {
    hide Kept;
    if |seen| <= cap {
      AllKept(seen, cap);
    } else {
      var low := LowestForgotten(seen, cap);
      SmallerSet(seen - {low}, seen);
      KeptSize(seen - {low}, cap);
      if cap == 0 {
        NoneKept(seen);
      } else {
        WithoutForgotten(seen, cap, low);
      }
    }
  }

  lemma NoneKept(seen: set<string>)
    ensures Kept(seen, 0) == {}
  {
  }

  lemma WithoutForgotten(seen: set<string>, cap: nat, low: string)
    requires low in seen && low !in Kept(seen, cap)
    requires forall x :: x in seen && x != low ==> Less(low, x)
    ensures Kept(seen - {low}, cap) == Kept(seen, cap)
  {
    forall x | x in seen - {low} ensures Above(seen - {low}, x) == Above(seen, x) {
      if Less(x, low) {
        LessTransitive(x, low, x);
        LessIrreflexive(x);
      }
    }
  }

  // ---------------------------------------------------------------- at most once

  ghost predicate Drawn(es: seq<Exchange>, nonces: set<string>) {
    forall i :: 0 <= i < |es| && Complete(es[i]) ==> es[i].nonce in nonces
  }

  lemma {:induction false} PollOnce(file: set<string>, es: seq<Exchange>, nonces: set<string>)
    requires file <= nonces && Drawn(es, nonces)
    ensures
      var s := HandleAll(file, es);
      && Distinct(s.executed) && file <= s.seen <= nonces
      && forall x :: x in s.executed ==> x in s.seen && x !in file
  {
    if es != [] {
      PollOnce(file, es[..|es| - 1], nonces);
    }
  }

  /** One of the first n exchanges names the nonce. */
  predicate NamedIn(es: seq<Exchange>, n: nat, x: string)
    requires n <= |es|
  {
    exists k :: 0 <= k < n && Complete(es[k]) && es[k].nonce == x
  }

  /** The exchange triggers the inventory, if the poll comes to it: its nonce is neither in the file nor named before.
      */
  predicate ExecutesAt(file: set<string>, es: seq<Exchange>, j: nat)
    requires j < |es|
  {
    && Complete(es[j]) && es[j].kind in ALLOWED_COMMANDS
    && es[j].nonce !in file && !NamedIn(es, j, es[j].nonce)
  }

  /** The poll ends with this exchange, if it comes to it: the acknowledgement fails, or the heartbeat broke off. */
  predicate BreaksAt(file: set<string>, es: seq<Exchange>, i: nat)
    requires i < |es|
  {
    Complete(es[i]) && (!es[i].acknowledged || (ExecutesAt(file, es, i) && es[i].heartbeat.BrokeOff?))
  }

  predicate Unbroken(file: set<string>, es: seq<Exchange>, n: nat)
    requires n <= |es|
  {
    forall i :: 0 <= i < n ==> !BreaksAt(file, es, i)
  }

  predicate Untriggered(file: set<string>, es: seq<Exchange>, n: nat)
    requires n <= |es|
  {
    forall j :: 0 <= j < n ==> !ExecutesAt(file, es, j)
  }

  /** Up to the first exchange that ends the poll, and with it, nothing is triggered. */
  ghost predicate Harmless(file: set<string>, es: seq<Exchange>) {
    forall i :: 0 <= i < |es| && Unbroken(file, es, i) && BreaksAt(file, es, i) ==> Untriggered(file, es, i + 1)
  }

  lemma NamedPrefix(es: seq<Exchange>, n: nat, i: nat, x: string)
    requires i <= n <= |es|
    ensures NamedIn(es[..n], i, x) == NamedIn(es, i, x)
  {
    forall k | 0 <= k < i ensures es[..n][k] == es[k] {
    }
  }

  lemma PrefixSame(file: set<string>, es: seq<Exchange>, n: nat)
    requires n <= |es|
    ensures Unbroken(file, es[..n], n) == Unbroken(file, es, n)
    ensures Untriggered(file, es[..n], n) == Untriggered(file, es, n)
  {
    hide NamedIn;
    forall i | 0 <= i < n ensures NamedIn(es[..n], i, es[i].nonce) == NamedIn(es, i, es[i].nonce) {
      NamedPrefix(es, n, i, es[i].nonce);
    }
    assert forall i :: 0 <= i < n ==> es[..n][i] == es[i];
    assert forall i :: 0 <= i < n ==> ExecutesAt(file, es[..n], i) == ExecutesAt(file, es, i);
    assert forall i :: 0 <= i < n ==> BreaksAt(file, es[..n], i) == BreaksAt(file, es, i);
  }

  /** A poll that nothing ends comes to every exchange, and has then seen what the file and they name. */
  lemma {:induction false} UnbrokenPoll(file: set<string>, es: seq<Exchange>)
    requires Unbroken(file, es, |es|)
    ensures !HandleAll(file, es).aborted && (HandleAll(file, es).executed == [] <==> Untriggered(file, es, |es|))
    ensures forall x :: x in HandleAll(file, es).seen <==> x in file || NamedIn(es, |es|, x)
  {
    hide Handle, NamedIn, Executes;
    if es == [] {
      NothingNamed();
    } else {
      var front, e := es[..|es| - 1], es[|es| - 1];
      PrefixSame(file, es, |es| - 1);
      UnbrokenPoll(file, front);
      assert !BreaksAt(file, es, |es| - 1);
      forall x ensures NamedIn(es, |es|, x) <==> NamedIn(front, |front|, x) || (Complete(e) && e.nonce == x) {
        NamedNext(es, x);
      }
      NamedNext(es, e.nonce);
      GoesOn(HandleAll(file, front), e, ExecutesAt(file, es, |es| - 1));
    }
  }

  lemma NothingNamed()
    ensures forall x :: !NamedIn([], 0, x)
  {
  }

  lemma GoesOn(s: Session, e: Exchange, executes: bool)
    requires !s.aborted && executes == (Complete(e) && e.kind in ALLOWED_COMMANDS && e.nonce !in s.seen)
    requires Complete(e) ==> e.acknowledged && !(executes && e.heartbeat.BrokeOff?)
    ensures !Handle(s, e).aborted && (Handle(s, e).executed == [] <==> s.executed == [] && !executes)
    ensures forall x :: x in Handle(s, e).seen <==> x in s.seen || (Complete(e) && e.nonce == x)
  {
  }

  lemma NamedNext(es: seq<Exchange>, x: string)
    requires es != []
    ensures
      var front, e := es[..|es| - 1], es[|es| - 1];
      NamedIn(es, |es|, x) <==> NamedIn(front, |front|, x) || (Complete(e) && e.nonce == x)
    ensures NamedIn(es, |es| - 1, x) == NamedIn(es[..|es| - 1], |es| - 1, x)
  {
    NamedPrefix(es, |es| - 1, |es| - 1, x);
    if NamedIn(es, |es| - 1, x) {
      var k :| 0 <= k < |es| - 1 && Complete(es[k]) && es[k].nonce == x;
    }
  }

  /** The poll ends with the first exchange that ends it. */
  lemma BrokenPoll(file: set<string>, es: seq<Exchange>, i: nat)
    requires i < |es| && Unbroken(file, es, i) && BreaksAt(file, es, i)
    ensures HandleAll(file, es).aborted && (HandleAll(file, es).executed == [] <==> Untriggered(file, es, i + 1))
  {
    hide Handle, NamedIn;
    var front, upTo := es[..i], es[..i + 1];
    PrefixSame(file, es, i);
    UnbrokenPoll(file, front);
    assert upTo[..i] == front && upTo[i] == es[i];
    NamedNext(upTo, es[i].nonce);
    NamedPrefix(es, i, i, es[i].nonce);
    BreaksThen(HandleAll(file, front), es[i], ExecutesAt(file, es, i));
    AbortedStays(file, es, i + 1);
  }

  lemma BreaksThen(s: Session, e: Exchange, executes: bool)
    requires !s.aborted && Complete(e) && executes == Executes(e, s.seen)
    requires !e.acknowledged || (executes && e.heartbeat.BrokeOff?)
    ensures Handle(s, e).aborted && (Handle(s, e).executed == [] <==> s.executed == [] && !executes)
  {
  }

  lemma {:induction false} FirstBreak(file: set<string>, es: seq<Exchange>, n: nat) returns (i: nat)
    requires n <= |es| && !Unbroken(file, es, n)
    ensures i < n && Unbroken(file, es, i) && BreaksAt(file, es, i)
  {
    hide BreaksAt;
    if Unbroken(file, es, n - 1) {
      i := n - 1;
    } else {
      i := FirstBreak(file, es, n - 1);
    }
  }

  /** So a poll is harmless exactly when it returns normally, or has triggered nothing when it breaks off. */
  lemma HarmlessOutcome(file: set<string>, es: seq<Exchange>)
    ensures Harmless(file, es) <==> !HandleAll(file, es).aborted || HandleAll(file, es).executed == []
  {
    hide HandleAll, Unbroken, BreaksAt, Untriggered;
    if Unbroken(file, es, |es|) {
      UnbrokenPoll(file, es);
      UnbrokenIsHarmless(file, es);
    } else {
      var i := FirstBreak(file, es, |es|);
      BrokenPoll(file, es, i);
      forall j | 0 <= j < |es| && Unbroken(file, es, j) && BreaksAt(file, es, j) ensures j == i {
        OneFirstBreak(file, es, i, j);
      }
    }
  }

  lemma UnbrokenIsHarmless(file: set<string>, es: seq<Exchange>)
    requires Unbroken(file, es, |es|)
    ensures Harmless(file, es)
  {
    hide BreaksAt, Untriggered;
  }

  lemma OneFirstBreak(file: set<string>, es: seq<Exchange>, i: nat, j: nat)
    requires i < |es| && j < |es| && Unbroken(file, es, i) && BreaksAt(file, es, i)
    requires Unbroken(file, es, j) && BreaksAt(file, es, j)
    ensures i == j
  {
    hide BreaksAt;
  }

  ghost predicate AllHarmless(a: Agent, polls: seq<seq<Exchange>>, cap: nat) {
    polls == [] || (AllHarmless(a, polls[..|polls| - 1], cap)
                    && Harmless(Polls(a, polls[..|polls| - 1], cap).file, polls[|polls| - 1]))
  }

  ghost predicate AllDrawn(polls: seq<seq<Exchange>>, nonces: set<string>) {
    forall i :: 0 <= i < |polls| ==> Drawn(polls[i], nonces)
  }

  lemma DistinctAcross(a: seq<string>, b: seq<string>, file: set<string>)
    requires Distinct(a) && Distinct(b) && (forall x :: x in a ==> x in file) && forall x :: x in b ==> x !in file
    ensures Distinct(a + b)
  {
    DistinctConcat(a, b);
  }

  lemma {:induction false} FewNoncesOnce(polls: seq<seq<Exchange>>, nonces: set<string>, cap: nat)
    requires |nonces| <= cap && AllDrawn(polls, nonces) && AllHarmless(Agent({}, []), polls, cap)
    ensures
      var a := Polls(Agent({}, []), polls, cap);
      Distinct(a.executed) && a.file <= nonces && forall x :: x in a.executed ==> x in a.file
  {
    hide Drawn, HandleAll, Kept, Distinct, Harmless;
    if polls == [] {
      assert Distinct<string>([]) by { NothingTwice(); }
    } else {
      var before := Polls(Agent({}, []), polls[..|polls| - 1], cap);
      FewNoncesOnce(polls[..|polls| - 1], nonces, cap);
      PollOnce(before.file, polls[|polls| - 1], nonces);
      var s := HandleAll(before.file, polls[|polls| - 1]);
      SubsetSize(s.seen, nonces);
      AllKept(s.seen, cap);
      HarmlessOutcome(before.file, polls[|polls| - 1]);
      if s.aborted {
        assert before.executed + [] == before.executed;
      } else {
        DistinctAcross(before.executed, s.executed, before.file);
      }
    }
  }

  lemma NothingTwice()
    ensures Distinct<string>([])
  {
  }

  lemma SubsetSize<T>(a: set<T>, b: set<T>)
    requires a <= b
    ensures |a| <= |b|
  {
    if a != b {
      SmallerSet(a, b);
    }
  }

  function Offer(nonce: string): Exchange {
    Exchange("id", nonce, "collect_inventory", Submitted, true)
  }

  function Offers(order: seq<string>): seq<Exchange> {
    seq(|order|, i requires 0 <= i < |order| => Offer(order[i]))
  }

  lemma {:induction false} OffersRun(file: set<string>, order: seq<string>)
    requires Distinct(order) && (forall x :: x in Elems(order) ==> x !in file && x != "")
    ensures HandleAll(file, Offers(order)).seen == file + Elems(order)
    ensures HandleAll(file, Offers(order)).executed == order && !HandleAll(file, Offers(order)).aborted
  {
    hide Handle, Elems;
    if order == [] {
      NoOffers(file);
    } else {
      var front, x := order[..|order| - 1], order[|order| - 1];
      assert order == front + [x];
      ElemsPush(front, x);
      LastIsNew(order);
      OffersRun(file, front);
      assert Offers(order)[..|order| - 1] == Offers(front) && Offers(order)[|order| - 1] == Offer(x);
      OfferTaken(HandleAll(file, Offers(front)), x);
    }
  }

  lemma NoOffers(file: set<string>)
    ensures HandleAll(file, Offers([])) == Session(file, [], [], 0, false) && Elems<string>([]) == {}
  {
  }

  lemma LastIsNew(order: seq<string>)
    requires order != [] && Distinct(order)
    ensures
      var front, x := order[..|order| - 1], order[|order| - 1];
      Distinct(front) && x !in Elems(front) && x in Elems(order)
  {
  }

  lemma OfferTaken(s: Session, x: string)
    requires !s.aborted && x !in s.seen && x != ""
    ensures Handle(s, Offer(x)).seen == s.seen + {x} && Handle(s, Offer(x)).executed == s.executed + [x]
    ensures !Handle(s, Offer(x)).aborted
  {
  }

  lemma {:induction false} OrderOf(nonces: set<string>) returns (order: seq<string>)
    ensures Distinct(order) && Elems(order) == nonces
    decreases |nonces|
  {
    if nonces == {} {
      order := [];
    } else {
      var x :| x in nonces;
      SmallerSet(nonces - {x}, nonces);
      var rest := OrderOf(nonces - {x});
      order := rest + [x];
      ElemsPush(rest, x);
      assert x !in Elems(rest);
    }
  }

  /** Every sequence of harmless polls triggers the inventory at most once for each nonce. */
  ghost predicate AtMostOnce(nonces: set<string>, cap: nat) {
    forall polls :: AllDrawn(polls, nonces) && AllHarmless(Agent({}, []), polls, cap) ==>
      Distinct(Polls(Agent({}, []), polls, cap).executed)
  }

  lemma ManyNoncesTwice(nonces: set<string>, cap: nat) returns (polls: seq<seq<Exchange>>)
    requires |nonces| > cap && "" !in nonces
    ensures AllDrawn(polls, nonces) && AllHarmless(Agent({}, []), polls, cap)
    ensures !Distinct(Polls(Agent({}, []), polls, cap).executed)
  {
    hide HandleAll, Kept, Drawn, Offers, Distinct, Elems, Harmless;
    var order := OrderOf(nonces);
    var low := LowestForgotten(nonces, cap);
    var first, second := Offers(order), Offers([low]);
    polls := [first, second];
    assert polls[..1] == [first] && [first][..0] == [];
    OffersRun({}, order);
    assert {} + Elems(order) == nonces;
    assert Polls(Agent({}, []), [], cap) == Agent({}, []);
    assert Polls(Agent({}, []), [first], cap) == Agent(Kept(nonces, cap), order);
    SingleNonce(low);
    OffersRun(Kept(nonces, cap), [low]);
    assert Polls(Agent({}, []), polls, cap).executed == order + [low];
    RepeatedTwice(order, low);
    OffersDrawn(order, nonces);
    OffersDrawn([low], nonces);
    HarmlessOutcome({}, first);
    HarmlessOutcome(Kept(nonces, cap), second);
    assert AllHarmless(Agent({}, []), [], cap) && AllHarmless(Agent({}, []), [first], cap);
  }

  lemma SingleNonce(x: string)
    ensures Distinct([x]) && Elems([x]) == {x}
  {
  }

  lemma OffersDrawn(order: seq<string>, nonces: set<string>)
    requires Elems(order) <= nonces
    ensures Drawn(Offers(order), nonces)
  {
    forall i | 0 <= i < |order| ensures order[i] in nonces {
      assert order[i] in Elems(order);
    }
  }

  lemma RepeatedTwice(order: seq<string>, x: string)
    requires x in Elems(order)
    ensures !Distinct(order + [x])
  {
    var i :| 0 <= i < |order| && order[i] == x;
    assert (order + [x])[i] == (order + [x])[|order|];
  }

  /** The agent keeps that promise exactly for as many nonces as its file holds. */
  lemma AtMostOnceExactly(nonces: set<string>, cap: nat)
    requires "" !in nonces
    ensures AtMostOnce(nonces, cap) <==> |nonces| <= cap
  {
    hide AllDrawn, AllHarmless, Polls, Distinct;
    if |nonces| <= cap {
      forall polls | AllDrawn(polls, nonces) && AllHarmless(Agent({}, []), polls, cap)
        ensures Distinct(Polls(Agent({}, []), polls, cap).executed)
      {
        FewNoncesOnce(polls, nonces, cap);
      }
    } else {
      var polls := ManyNoncesTwice(nonces, cap);
    }
  }

  /** Nothing a poll triggered is ever triggered by the poll after it. */
  ghost predicate Remembered(file: set<string>, es: seq<Exchange>, cap: nat) {
    forall next, x :: x in HandleAll(file, es).executed ==>
      x !in HandleAll(Poll(Agent(file, []), es, cap).file, next).executed
  }

  lemma {:induction false} ExecutedIsNew(file: set<string>, es: seq<Exchange>, x: string)
    requires x in HandleAll(file, es).executed
    ensures x !in file && x in HandleAll(file, es).seen && x != ""
  {
    if es != [] {
      var before := HandleAll(file, es[..|es| - 1]);
      if x in before.executed {
        ExecutedIsNew(file, es[..|es| - 1], x);
      } else {
        SeenGrows(file, es[..|es| - 1]);
      }
    }
  }

  lemma {:induction false} SeenGrows(file: set<string>, es: seq<Exchange>)
    ensures file <= HandleAll(file, es).seen
  {
    if es != [] {
      SeenGrows(file, es[..|es| - 1]);
    }
  }

  /** A poll within the size of the file is remembered exactly when it is harmless: what an aborted poll has
      triggered, it forgets, and the same command triggers it again. */
  lemma RememberedExactly(file: set<string>, es: seq<Exchange>, cap: nat)
    requires |HandleAll(file, es).seen| <= cap
    ensures Remembered(file, es, cap) <==> Harmless(file, es)
  {
    hide HandleAll, Kept, Harmless;
    var s := HandleAll(file, es);
    AllKept(s.seen, cap);
    HarmlessOutcome(file, es);
    if Harmless(file, es) {
      forall next, x | x in s.executed ensures x !in HandleAll(Poll(Agent(file, []), es, cap).file, next).executed {
        ExecutedIsNew(file, es, x);
        if x in HandleAll(s.seen, next).executed {
          ExecutedIsNew(s.seen, next, x);
        }
      }
    } else {
      var x := s.executed[0];
      assert x in s.executed;
      ExecutedIsNew(file, es, x);
      OfferTriggers(file, x);
      assert x in HandleAll(Poll(Agent(file, []), es, cap).file, [Offer(x)]).executed;
    }
  }

  lemma OfferTriggers(file: set<string>, x: string)
    requires x !in file && x != ""
    ensures x in HandleAll(file, [Offer(x)]).executed
  {
    assert [Offer(x)][..0] == [];
    assert HandleAll(file, [Offer(x)]) == Handle(HandleAll(file, []), Offer(x));
  }

  /** A poll that does not return normally forgets what it did: the same command triggers the inventory again. */
  lemma AbortedPollRepeats(a: Agent, e: Exchange, cap: nat)
    requires Executes(e, a.file) && !e.acknowledged
    ensures Polls(a, [[e], [e]], cap).executed == a.executed + [e.nonce, e.nonce]
  {
    hide Kept;
    assert [[e], [e]][..1] == [[e]] && [[e]][..0] == [] && [e][..0] == [];
    assert HandleAll(a.file, [e]) == Handle(HandleAll(a.file, []), e);
    assert Polls(a, [[e]], cap) == Poll(Polls(a, [], cap), [e], cap);
  }
}
