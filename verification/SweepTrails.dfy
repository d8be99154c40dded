/** What the audit trails that a look at one intent returns tell of the sweeps, beside the replies themselves. */
module SweepTrails {
  import opened EndpointIntents
  import opened IntentSafety
  import opened SweepTransparency

  /** The audit rows of an intent, in no particular order. */
  function Trail(audits: multiset<Audit>, id: string): map<Audit, nat> {
    map x | x in audits && x.intent == id :: audits[x]
  }

  function TrailShown(s: Store, e: Event): map<Audit, nat> {
    if e.View? && Owns(s, e.tenant, e.id) then Trail(s.audits, e.id) else map[]
  }

  /** The trails returned during a run. */
  function Trails(s: Store, es: seq<Event>): seq<map<Audit, nat>>
    decreases |es|
  {
    if es == [] then []
    else (if es[0].Sweep? then [] else [TrailShown(s, es[0])]) + Trails(Step(s, es[0]).0, es[1..])
  }

  /** No request looks at an intent that was pending after its approval window had closed, at the time of this request
      or of an earlier one; `closed` are those of which that is known. */
  predicate NoStaleTrail(closed: set<string>, s: Store, es: seq<Event>)
    decreases |es|
  {
    es == [] ||
    var more := closed + OverdueIds(s.intents, es[0].now);
    && !(es[0].View? && Owns(s, es[0].tenant, es[0].id) && es[0].id in more)
    && NoStaleTrail(more, Step(s, es[0]).0, es[1..])
  }

  // ---------------------------------------------------------------- what requests add to the trails

  ghost predicate BothAdd(a: Store, b: Store, e: Event, more: multiset<Audit>) {
    Step(a, e).0.audits == a.audits + more && Step(b, e).0.audits == b.audits + more
  }

  lemma CreateAdds(a: Store, b: Store, e: Event) returns (more: multiset<Audit>)
    requires Ahead(a, b, e.now) && e.Create?
    ensures BothAdd(a, b, e, more)
  {
    hide Approvers, ValidateIntent, CommandsAhead;
    more := if StepCreate(a, e).1.Intended? then multiset{Audit(e.id, Actor(e.key), RequestedEvent, e.now)}
            else multiset{};
  }

  lemma ApproveAdds(a: Store, b: Store, e: Event) returns (more: multiset<Audit>)
    requires Ahead(a, b, e.now) && e.Approve?
    ensures BothAdd(a, b, e, more)
  {
    hide Approvers, ValidateIntent, CommandsAhead;
    if Owns(a, e.tenant, e.id) && Actor(e.key) !in Approvers(a.audits, e.id) {
      var i := a.intents[e.id];
      assert IntentAhead(i, b.intents[e.id], e.now);
      var approvers := Approvers(a.audits, e.id) + {Actor(e.key)};
      var decision := ValidateIntent(i.kind, i.requestedBy, approvers, i.expiresAt, e.now);
      more := multiset{Audit(e.id, Actor(e.key), ApprovedEvent(decision), e.now)};
    } else {
      more := multiset{};
      if e.id in a.intents {
        assert IntentAhead(a.intents[e.id], b.intents[e.id], e.now);
      }
    }
  }

  lemma CancelAdds(a: Store, b: Store, e: Event) returns (more: multiset<Audit>)
    requires Ahead(a, b, e.now) && e.Cancel? && !LateCancel(a, e)
    ensures BothAdd(a, b, e, more)
  {
    hide Approvers, CommandsAhead;
    more := if StepCancel(a, e).1.Intended? then multiset{Audit(e.id, Actor(e.key), CancelledEvent, e.now)}
            else multiset{};
    if e.id in a.intents {
      assert IntentAhead(a.intents[e.id], b.intents[e.id], e.now);
    }
  }

  lemma OtherAddsNothing(s: Store, e: Event)
    requires !e.Create? && !e.Approve? && !e.Cancel? && !e.Sweep?
    ensures Step(s, e).0.audits == s.audits
  {
    hide Find, Ready;
  }

  /** A request that is not telling adds the same rows, whether or not elapsed rows were swept. */
  lemma SameAdded(a: Store, b: Store, e: Event) returns (more: multiset<Audit>)
    requires Ahead(a, b, e.now) && !e.Sweep? && !LateCancel(a, e)
    ensures BothAdd(a, b, e, more)
  {
    hide Ahead, LateCancel, Step, BothAdd;
    if e.Create? {
      more := CreateAdds(a, b, e);
    } else if e.Approve? {
      more := ApproveAdds(a, b, e);
    } else if e.Cancel? {
      more := CancelAdds(a, b, e);
    } else {
      more := multiset{};
      OtherAddsNothing(a, e);
      OtherAddsNothing(b, e);
      assert BothAdd(a, b, e, more) by {
        NothingAdded(a, b, e);
      }
    }
  }

  lemma NothingAdded(a: Store, b: Store, e: Event)
    requires Step(a, e).0.audits == a.audits && Step(b, e).0.audits == b.audits
    ensures BothAdd(a, b, e, multiset{})
  {
  }

  // ---------------------------------------------------------------- trails that stay the same

  ghost predicate SameRows(a: multiset<Audit>, b: multiset<Audit>, id: string) {
    forall x: Audit :: x.intent == id ==> a[x] == b[x]
  }

  /** All trails agree but those of intents whose window closed while they were pending. */
  ghost predicate TrailsAgree(a: Store, b: Store, closed: set<string>) {
    forall id :: id !in closed ==> SameRows(a.audits, b.audits, id)
  }

  lemma SameRowsSameTrail(a: multiset<Audit>, b: multiset<Audit>, id: string)
    requires SameRows(a, b, id)
    ensures Trail(a, id) == Trail(b, id)
  {
    assert forall x :: x in a && x.intent == id <==> x in b && x.intent == id;
  }

  lemma TrailsAgreeAfter(a: Store, b: Store, e: Event, closed: set<string>)
    requires Ahead(a, b, e.now) && !e.Sweep? && !LateCancel(a, e) && TrailsAgree(a, b, closed)
    ensures TrailsAgree(Step(a, e).0, Step(b, e).0, closed)
  {
    hide Ahead, LateCancel, Step;
    var more := SameAdded(a, b, e);
    forall id | id !in closed ensures SameRows(Step(a, e).0.audits, Step(b, e).0.audits, id) {
      assert SameRows(a.audits, b.audits, id);
    }
  }

  lemma SweptTrailsAgree(a: Store, b: Store, e: Event, closed: set<string>)
    requires Ahead(a, b, e.now) && e.Sweep? && TrailsAgree(a, b, closed) && OverdueIds(a.intents, e.now) <= closed
    ensures TrailsAgree(a, Step(b, e).0, closed)
  {
    hide Approvers, CommandsAhead, SweepIntents, SweepCommands;
    assert OverdueIds(b.intents, e.now) <= closed by {
      OverdueBefore(a, b, e.now);
    }
    forall id | id !in closed ensures SameRows(a.audits, Step(b, e).0.audits, id) {
      assert SameRows(a.audits, b.audits, id);
    }
  }

  lemma OverdueBefore(a: Store, b: Store, now: int)
    requires Ahead(a, b, now)
    ensures OverdueIds(b.intents, now) <= OverdueIds(a.intents, now)
  {
    hide Approvers, CommandsAhead;
    forall id | id in OverdueIds(b.intents, now) ensures id in OverdueIds(a.intents, now) {
      assert IntentAhead(a.intents[id], b.intents[id], now);
    }
  }

  lemma OverdueLater(s: Store, clock: int, now: int)
    requires clock <= now
    ensures OverdueIds(s.intents, clock) <= OverdueIds(s.intents, now)
  {
  }

  lemma ShownSame(a: Store, b: Store, e: Event, closed: set<string>)
    requires Ahead(a, b, e.now) && TrailsAgree(a, b, closed)
    requires e.View? && Owns(a, e.tenant, e.id) ==> e.id !in closed
    ensures TrailShown(a, e) == TrailShown(b, e)
  {
    hide Approvers, CommandsAhead, Trail, SameRows;
    if e.View? && e.id in a.intents {
      assert IntentAhead(a.intents[e.id], b.intents[e.id], e.now);
      if Owns(a, e.tenant, e.id) {
        SameRowsSameTrail(a.audits, b.audits, e.id);
      }
    }
  }

  lemma FewerClosed(a: Store, b: Store, closed: set<string>, more: set<string>)
    requires TrailsAgree(a, b, closed) && closed <= more
    ensures TrailsAgree(a, b, more)
  {
  }

  /** Nor do trails tell of sweeps in a run without telling requests, as long as no stale trail is looked at. */
  lemma {:induction false} TrailsHideSweeps(a: Store, b: Store, clock: int, closed: set<string>, es: seq<Event>)
    requires Ahead(a, b, clock) && Inv(b, clock) && InOrder(es, clock)
    requires TrailsAgree(a, b, closed + OverdueIds(a.intents, clock))
    requires NoTelling(FullReply, a, WithoutSweeps(es)) && NoStaleTrail(closed, a, WithoutSweeps(es))
    ensures Trails(b, es) == Trails(a, WithoutSweeps(es))
    decreases |es|
  {
    hide Ahead, Inv, Step, TrailsAgree, TrailShown, OverdueIds;
    if es != [] {
      var e := es[0];
      AheadLater(a, b, clock, e.now);
      StillFine(b, clock, e.now);
      StepKeeps(b, e.now, e);
      OverdueLater(a, clock, e.now);
      var more := closed + OverdueIds(a.intents, e.now);
      FewerClosed(a, b, closed + OverdueIds(a.intents, clock), more);
      if e.Sweep? {
        StepOfSweep(b, e);
        SweepAhead(a, b, e);
        SweptTrailsAgree(a, b, e, more);
        assert WithoutSweeps(es) == WithoutSweeps(es[1..]);
        assert Trails(b, es) == Trails(Step(b, e).0, es[1..]);
        TrailsHideSweeps(a, Step(b, e).0, e.now, closed, es[1..]);
      } else {
        TrailsHideFrom(a, b, closed, es);
      }
    }
  }

  lemma {:induction false} TrailsHideFrom(a: Store, b: Store, closed: set<string>, es: seq<Event>)
    requires es != [] && !es[0].Sweep? && Ahead(a, b, es[0].now) && Inv(Step(b, es[0]).0, es[0].now)
    requires InOrder(es, es[0].now) && TrailsAgree(a, b, closed + OverdueIds(a.intents, es[0].now))
    requires NoTelling(FullReply, a, WithoutSweeps(es)) && NoStaleTrail(closed, a, WithoutSweeps(es))
    ensures Trails(b, es) == Trails(a, WithoutSweeps(es))
    decreases |es|, 0
  {
    hide Ahead, Inv, Step, TrailsAgree, TrailShown, OverdueIds, Observe, LateCancel;
    var e, rest := es[0], WithoutSweeps(es[1..]);
    var more := closed + OverdueIds(a.intents, e.now);
    var kept := [e] + rest;
    assert WithoutSweeps(es) == kept && kept[0] == e && kept[1..] == rest;
    assert !Telling(FullReply, a, kept[0]);
    ShownSame(a, b, e, more);
    StepAhead(FullReply, a, b, e);
    TrailsAgreeAfter(a, b, e, more);
    var after := Step(a, e).0;
    FewerClosed(after, Step(b, e).0, more, more + OverdueIds(after.intents, e.now));
    TrailsHideSweeps(after, Step(b, e).0, e.now, more, es[1..]);
  }

  // ---------------------------------------------------------------- trails that tell

  predicate LooksAt(s: Store, e: Event, id: string) {
    e.View? && e.id == id && Owns(s, e.tenant, id)
  }

  /** The run looks at the intent. */
  predicate LookedAt(s: Store, es: seq<Event>, id: string)
    decreases |es|
  {
    es != [] && (LooksAt(s, es[0], id) || LookedAt(Step(s, es[0]).0, es[1..], id))
  }

  /** A stale trail is that of an intent that was closed from the start, or found pending too late by some request and
      looked at from then on. */
  lemma {:induction false} StaleSince(closed: set<string>, s: Store, es: seq<Event>) returns (k: nat, id: string)
    requires !NoStaleTrail(closed, s, es)
    ensures k < |es| && LookedAt(Run(s, es[..k]), es[k..], id)
    ensures id in closed + OverdueIds(Run(s, es[..k]).intents, es[k].now) && (id in closed ==> k == 0)
    decreases |es|
  {
    hide Step, OverdueIds;
    var e, more := es[0], closed + OverdueIds(s.intents, es[0].now);
    assert es[..0] == [] && es[0..] == es;
    if e.View? && Owns(s, e.tenant, e.id) && e.id in more {
      k, id := 0, e.id;
    } else {
      var j;
      j, id := StaleSince(more, Step(s, e).0, es[1..]);
      if id in more {
        k := 0;
      } else {
        k := j + 1;
        assert es[..k][1..] == es[1..][..j] && es[k..] == es[1..][j..];
      }
    }
  }

  /** The two stores differ in how often they hold a row of the intent. */
  ghost predicate Differ(a: Store, b: Store, x: Audit, id: string) {
    x.intent == id && a.audits[x] != b.audits[x]
  }

  lemma SweptDiffers(s: Store, now: int, id: string)
    requires id in OverdueIds(s.intents, now)
    ensures Differ(s, SweptStore(s, now), Audit(id, SWEEP_ACTOR, ExpiredEvent, now), id)
  {
    hide SweepIntents, SweepCommands, LateCount;
  }

  lemma DifferAfter(a: Store, b: Store, e: Event, x: Audit, id: string)
    requires Ahead(a, b, e.now) && !e.Sweep? && !LateCancel(a, e) && Differ(a, b, x, id)
    ensures Differ(Step(a, e).0, Step(b, e).0, x, id)
  {
    hide Ahead, LateCancel, Step;
    var more := SameAdded(a, b, e);
  }

  lemma LookDiffers(a: Store, b: Store, e: Event, x: Audit, id: string)
    requires Ahead(a, b, e.now) && LooksAt(a, e, id) && Differ(a, b, x, id)
    ensures TrailShown(a, e) != TrailShown(b, e)
  {
    hide Approvers, CommandsAhead;
    assert IntentAhead(a.intents[id], b.intents[id], e.now);
    assert x in a.audits <==> x in Trail(a.audits, id);
    assert x in b.audits <==> x in Trail(b.audits, id);
  }

  /** A row more in one of two stores shows as soon as the intent is looked at. */
  lemma {:induction false} LookShows(a: Store, b: Store, clock: int, es: seq<Event>, x: Audit, id: string)
    requires Ahead(a, b, clock) && InOrder(es, clock) && SweepFree(es) && NoTelling(FullReply, a, es)
    requires Differ(a, b, x, id) && LookedAt(a, es, id)
    ensures Trails(a, es) != Trails(b, es)
    decreases |es|
  {
    hide Ahead, Step, TrailShown, Differ, LooksAt, LateCancel, Observe;
    var e := es[0];
    AheadLater(a, b, clock, e.now);
    if LooksAt(a, e, id) {
      LookDiffers(a, b, e, x, id);
      assert Trails(a, es)[0] != Trails(b, es)[0];
    } else {
      assert Telling(FullReply, a, e) == false;
      StepAhead(FullReply, a, b, e);
      DifferAfter(a, b, e, x, id);
      SweepFreeRest(es);
      LookShows(Step(a, e).0, Step(b, e).0, e.now, es[1..], x, id);
      assert Trails(a, es)[1..] == Trails(Step(a, e).0, es[1..]);
      assert Trails(b, es)[1..] == Trails(Step(b, e).0, es[1..]);
    }
  }

  lemma SweepFreeRest(es: seq<Event>)
    requires es != [] && SweepFree(es)
    ensures SweepFree(es[1..]) && !es[0].Sweep?
  {
  }

  lemma {:induction false} TrailsConcat(s: Store, x: seq<Event>, y: seq<Event>)
    ensures Trails(s, x + y) == Trails(s, x) + Trails(Run(s, x), y)
    decreases |x|
  {
    hide Step, TrailShown;
    if x == [] {
      assert x + y == y;
    } else {
      assert (x + y)[0] == x[0] && (x + y)[1..] == x[1..] + y;
      TrailsConcat(Step(s, x[0]).0, x[1..], y);
    }
  }

  lemma {:induction false} NoTellingFrom(d: Detail, s: Store, es: seq<Event>, k: nat)
    requires NoTelling(d, s, es) && k <= |es|
    ensures NoTelling(d, Run(s, es[..k]), es[k..])
    decreases |es|
  {
    hide Step, Telling;
    if k == 0 {
      assert es[..0] == [] && es[0..] == es;
    } else {
      NoTellingFrom(d, Step(s, es[0]).0, es[1..], k - 1);
      assert es[..k][1..] == es[1..][..k - 1] && es[k..] == es[1..][k - 1..];
    }
  }

  lemma SweepDiffers(s: Store, es: seq<Event>, id: string)
    requires es != [] && Inv(s, es[0].now) && InOrder(es, es[0].now) && SweepFree(es) && NoTelling(FullReply, s, es)
    requires id in OverdueIds(s.intents, es[0].now) && LookedAt(s, es, id)
    ensures Trails(s, [Sweep(es[0].now)] + es) != Trails(s, es)
  {
    hide NoTelling, InOrder, Inv, Trails, OverdueIds, LookedAt, Ahead, SweepFree, Differ, SweptStore;
    var now := es[0].now;
    SweptIsAhead(s, now);
    SweptDiffers(s, now, id);
    LookShows(s, SweptStore(s, now), now, es, Audit(id, SWEEP_ACTOR, ExpiredEvent, now), id);
    SweepShowsNothing(s, now, es);
  }

  /** A sweep before the request from which on the trail is stale shows in that trail. */
  lemma StaleShows(s: Store, clock: int, es: seq<Event>) returns (more: seq<Event>)
    requires Inv(s, clock) && InOrder(es, clock) && SweepFree(es)
    requires NoTelling(FullReply, s, es) && !NoStaleTrail({}, s, es)
    ensures InOrder(more, clock) && WithoutSweeps(more) == es && Trails(s, more) != Trails(s, es)
  {
    hide NoTelling, WithoutSweeps, InOrder, Inv, Trails, OverdueIds, LookedAt, NoStaleTrail, SweepFree, Run;
    var k, id := StaleSince({}, s, es);
    var x, tail := es[..k], es[k..];
    more := Inserted(clock, es, k);
    PrefixIsFine(s, clock, es, k);
    NoTellingFrom(FullReply, s, es, k);
    InOrderFrom(es, clock, k);
    SweepFreeFrom(es, k);
    SweepDiffers(Run(s, x), tail, id);
    TrailsConcat(s, x, [Sweep(es[k].now)] + tail);
    TrailsConcat(s, x, tail);
    assert es == x + tail && tail[0] == es[k];
    var shown := Trails(s, x);
    assert Trails(s, more)[|shown|..] != Trails(s, es)[|shown|..];
  }

  lemma Inserted(clock: int, es: seq<Event>, k: nat) returns (more: seq<Event>)
    requires InOrder(es, clock) && SweepFree(es) && k < |es|
    ensures more == es[..k] + ([Sweep(es[k].now)] + es[k..]) && InOrder(more, clock) && WithoutSweeps(more) == es
  {
    hide InOrder, SweepFree, WithoutSweeps;
    var e, x, y := es[k], es[..k], es[k + 1..];
    assert es == x + ([e] + y) && es[k..] == [e] + y;
    assert [Sweep(e.now), e] + y == [Sweep(e.now)] + es[k..];
    SweepInserted(x, e, y, clock);
    more := x + ([Sweep(e.now)] + es[k..]);
    assert x + ([Sweep(e.now), e] + y) == more;
  }

  lemma SweepShowsNothing(s: Store, now: int, es: seq<Event>)
    ensures Trails(s, [Sweep(now)] + es) == Trails(SweptStore(s, now), es)
  {
    hide StepSweep;
    assert ([Sweep(now)] + es)[1..] == es;
    StepOfSweep(s, Sweep(now));
  }

  lemma InOrderFrom(es: seq<Event>, clock: int, k: nat)
    requires InOrder(es, clock) && k < |es|
    ensures InOrder(es[k..], es[k].now)
  {
  }

  lemma SweepFreeFrom(es: seq<Event>, k: nat)
    requires SweepFree(es) && k <= |es|
    ensures SweepFree(es[k..])
  {
  }

  /** Everything that is returned, the replies with the trails, hides every sweep exactly in the runs that make no
      telling request and look at no stale trail. */
  lemma RepliesHideSweepsExactly(s: Store, clock: int, es: seq<Event>)
    requires Inv(s, clock) && InOrder(es, clock) && SweepFree(es)
    ensures NoTelling(FullReply, s, es) && NoStaleTrail({}, s, es) <==>
      forall more :: InOrder(more, clock) && WithoutSweeps(more) == es ==>
        Observations(FullReply, s, more) == Observations(FullReply, s, es) && Trails(s, more) == Trails(s, es)
  {
    hide Inv, Step, Ahead, NoTelling, InOrder, Observations, WithoutSweeps, Trails, NoStaleTrail, OverdueIds;
    SweepsUnobservableExactly(FullReply, s, clock, es);
    if NoTelling(FullReply, s, es) {
      if NoStaleTrail({}, s, es) {
        AheadOfItself(s, clock);
        AgreesWithItself(s, OverdueIds(s.intents, clock));
        forall more | InOrder(more, clock) && WithoutSweeps(more) == es ensures Trails(s, more) == Trails(s, es) {
          TrailsHideSweeps(s, s, clock, {}, more);
        }
      } else {
        var more := StaleShows(s, clock, es);
      }
    }
  }

  lemma AgreesWithItself(s: Store, closed: set<string>)
    ensures TrailsAgree(s, s, {} + closed)
  {
  }
}
