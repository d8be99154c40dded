/** The two workers' transactions on the outbox table, each with the effect that OutboxDelivery gives it. */
module OutboxWorkers {
  import opened Options
  import opened OutboxDelivery

  /** A match is left out only because the limit was reached by older ones. */
  ghost predicate Reached(chosen: seq<nat>, limit: nat, i: nat) {
    i in chosen || (|chosen| == limit && forall k :: 0 <= k < |chosen| ==> chosen[k] < i)
  }

  /** The rows of a query that is ordered by creation and limited: the oldest matches, as many as the limit lets. */
  ghost predicate Oldest(matches: seq<bool>, limit: nat, chosen: seq<nat>) {
    && |chosen| <= limit
    && (forall k :: 0 <= k < |chosen| ==> chosen[k] < |matches| && matches[chosen[k]])
    && (forall k, l :: 0 <= k < l < |chosen| ==> chosen[k] < chosen[l])
    && (forall i :: 0 <= i < |matches| && matches[i] ==> Reached(chosen, limit, i))
  }

  lemma ReachedStays(chosen: seq<nat>, limit: nat, i: nat, n: nat)
    requires |chosen| < limit && Reached(chosen, limit, i)
    ensures Reached(chosen + [n], limit, i)
  {
  }

  lemma OldestPush(matches: seq<bool>, limit: nat, chosen: seq<nat>, m: bool)
    requires Oldest(matches, limit, chosen)
    ensures Oldest(matches + [m], limit, if |chosen| < limit && m then chosen + [|matches|] else chosen)
  {
    var n, more := |matches|, matches + [m];
    if |chosen| < limit && m {
      assert Reached(chosen + [n], limit, n) by {
        assert (chosen + [n])[|chosen|] == n;
      }
      forall i | 0 <= i < n && more[i] ensures Reached(chosen + [n], limit, i) {
        ReachedStays(chosen, limit, i, n);
      }
    } else {
      forall i | 0 <= i < n && more[i] ensures Reached(chosen, limit, i) {
        assert matches[i];
      }
    }
  }

  lemma NothingIsOldest(limit: nat)
    ensures Oldest([], limit, [])
  {
  }

  /** The filter of the claiming query, row by row. */
  function ClaimFilter(c: Config, rows: seq<Row>, now: int): seq<bool> {
    seq(|rows|, i requires 0 <= i < |rows| => Claimable(c, rows[i], now))
  }

  /** The filter of the internal worker's query, row by row. */
  function InternalFilter(rows: seq<Row>, now: int): seq<bool> {
    seq(|rows|, i requires 0 <= i < |rows| => IsInternal(rows[i].action) && Waiting(rows[i], now))
  }

  class Outbox {
    var rows: seq<Row>
    var dispatched: set<string>
    var created: seq<Created>

    constructor ()
      ensures rows == [] && dispatched == {} && created == []
    {
      rows, dispatched, created := [], {}, [];
    }

    method Select(matches: seq<bool>, limit: nat) returns (chosen: seq<nat>)
      ensures Oldest(matches, limit, chosen)
    {
      hide Oldest;
      NothingIsOldest(limit);
      chosen := [];
      assert matches[..0] == [];
      var i := 0;
      while i < |matches|
        invariant 0 <= i <= |matches|
        invariant Oldest(matches[..i], limit, chosen)
      {
        OldestPush(matches[..i], limit, chosen, matches[i]);
        assert matches[..i + 1] == matches[..i] + [matches[i]];
        if |chosen| < limit && matches[i] {
          chosen := chosen + [i];
        }
        i := i + 1;
      }
      assert matches[..i] == matches;
    }

    /** Claims the oldest claimable rows and returns them as loaded. */
    method Claim(c: Config, token: string, now: int) returns (items: seq<Held>, chosen: seq<nat>)
      modifies this`rows
      ensures Oldest(ClaimFilter(c, old(rows), now), c.batch, chosen)
      ensures rows == ClaimRows(old(rows), chosen, token, now) && items == Loaded(rows, chosen)
    {
      var table := rows;
      chosen := Select(ClaimFilter(c, table, now), c.batch);
      var k := 0;
      while k < |chosen|
        invariant 0 <= k <= |chosen|
        invariant rows == ClaimRows(table, chosen[..k], token, now)
      {
        var i := chosen[k];
        assert i !in chosen[..k];
        var leaseUntil := now + LEASE_SECONDS;
        rows := rows[i := rows[i].(state := Delivering, leaseToken := Some(token), leaseUntil := Some(leaseUntil))];
        assert forall x :: x in chosen[..k + 1] <==> x in chosen[..k] || x == i;
        k := k + 1;
      }
      assert chosen[..k] == chosen;
      items := Loaded(rows, chosen);
    }

    /** Delivers one held row: counts the attempt, drops the lease, settles the state, and flushes what changed. */
    method Deliver(c: Config, item: Held, receipt: Receipt, now: int)
      requires item.row < |rows|
      modifies this`rows
      ensures rows == old(rows)[item.row :=
        WriteBack(old(rows)[item.row], item.copy, Finish(item.copy, receipt, now, c.maxAttempts))]
    {
      var local := item.copy;
      local := local.(attempts := local.attempts + 1);
      local := local.(leaseToken := None, leaseUntil := None);
      if receipt.delivered {
        local := local.(state := Delivered, deliveredAt := Some(now), lastError := None);
        local := local.(result := Some(receipt.detail));
      } else if receipt.retryable && local.attempts < c.maxAttempts {
        local := local.(state := Retrying, availableAt := Some(now + RetryDelay(local.attempts)));
        local := local.(lastError := Some(receipt.detail));
      } else {
        local := local.(state := DeadLetter, result := Some(receipt.detail), lastError := Some(receipt.detail));
      }
      rows := rows[item.row := WriteBack(rows[item.row], item.copy, local)];
    }

    /** The internal worker: claim, process and commit in one transaction. */
    method RunInternal(limit: nat, now: int) returns (chosen: seq<nat>)
      modifies this`rows, this`created
      ensures Oldest(InternalFilter(old(rows), now), limit, chosen)
      ensures
        var before := State(old(rows), [], map[], dispatched, old(created));
        rows == ProcessRows(before, chosen, now) && created == old(created) + CreatedBy(before, chosen)
    {
      hide ProcessRows, CreatedBy, Waiting, ProcessRow;
      ghost var before := State(rows, [], map[], dispatched, created);
      chosen := Select(InternalFilter(rows, now), limit);
      ProcessNothing(before, now);
      assert chosen[..0] == [];
      var k := 0;
      while k < |chosen|
        invariant 0 <= k <= |chosen|
        invariant dispatched == before.dispatched
        invariant rows == ProcessRows(before, chosen[..k], now)
        invariant created == before.created + CreatedBy(before, chosen[..k])
      {
        assert chosen[k] !in chosen[..k];
        ProcessNext(before, chosen[..k], chosen[k], now);
        assert chosen[..k + 1] == chosen[..k] + [chosen[k]];
        Process(chosen[k], now);
        k := k + 1;
      }
      assert chosen[..k] == chosen;
    }

    method Process(i: nat, now: int)
      requires i < |rows| && IsInternal(rows[i].action)
      modifies this`rows, this`created
      ensures rows == old(rows)[i := ProcessRow(old(rows)[i], old(rows)[i].run in dispatched, now)]
      ensures created == old(created) +
        if old(rows)[i].run in dispatched then [Created(i, old(rows)[i].action)] else []
      ensures rows[i].leaseToken == None && rows[i].leaseUntil == None
      ensures rows[i].state == if old(rows)[i].run in dispatched then Delivered else DeadLetter
    {
      var item := rows[i];
      if item.run !in dispatched {
        item := item.(state := DeadLetter, lastError := Some("Run is not dispatched or not tenant-owned."));
      } else {
        if item.action.CaseCreate? {
          created := created + [Created(i, CaseCreate)];
          item := item.(result := Some("case"));
        } else {
          created := created + [Created(i, ReportGenerate)];
          item := item.(result := Some("report"));
        }
        item := item.(state := Delivered, deliveredAt := Some(now), attempts := item.attempts + 1, lastError := None);
      }
      rows := rows[i := item.(leaseToken := None, leaseUntil := None)];
    }
  }

  lemma ProcessNothing(s: State, now: int)
    ensures ProcessRows(s, [], now) == s.rows && CreatedBy(s, []) == []
  {
  }

  /** Processing one more row of a batch is processing it on the table left by the batch so far. */
  lemma ProcessNext(s: State, chosen: seq<nat>, i: nat, now: int)
    requires i < |s.rows| && i !in chosen
    ensures
      var before, after := ProcessRows(s, chosen, now), ProcessRows(s, chosen + [i], now);
      && |before| == |s.rows| && before[i] == s.rows[i]
      && after == before[i := ProcessRow(s.rows[i], s.rows[i].run in s.dispatched, now)]
    ensures CreatedBy(s, chosen + [i]) ==
      CreatedBy(s, chosen) + if s.rows[i].run in s.dispatched then [Created(i, s.rows[i].action)] else []
  {
    hide ProcessRow;
    assert (chosen + [i])[..|chosen|] == chosen;
    assert forall x :: x in chosen + [i] <==> x in chosen || x == i;
  }

  /** What the claiming transaction does is a possible step of the protocol, whatever the other workers are doing. */
  lemma ClaimIsPossible(c: Config, s: State, worker: string, token: string, now: int, chosen: seq<nat>)
    requires worker in s.workers ==> s.workers[worker].held == []
    requires Oldest(ClaimFilter(c, s.rows, now), c.batch, chosen)
    ensures Possible(c, s, Claim(worker, chosen, token, now))
  {
  }

  /** So is the internal worker's transaction. */
  lemma InternalIsPossible(c: Config, s: State, limit: nat, now: int, chosen: seq<nat>)
    requires Oldest(InternalFilter(s.rows, now), limit, chosen)
    ensures Possible(c, s, Internal(chosen, now))
  {
  }
}
