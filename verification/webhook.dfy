/** Webhook delivery: what the recorded results of the attempts make of a delivery. Times are in seconds. */
module Webhook {
  import opened Wrappers

  const MAX_ATTEMPTS := 10
  const HOUR := 3600

  datatype DeliveryState = Pending | Delivered | Dead
  datatype Delivery = Delivery(state: DeliveryState, attempts: nat, nextAttemptAt: int)

  /** One attempt's outcome, recorded at a time. */
  datatype Outcome = Outcome(responseCode: int, error: string, at: int)

  predicate Succeeded(o: Outcome) {
    200 <= o.responseCode < 300 && o.error == ""
  }

  function Pow2(n: nat): (p: nat)
    ensures p > 0
  {
    if n == 0 then 1 else 2 * Pow2(n - 1)
  }

  function Min(a: int, b: int): int {
    if a < b then a else b
  }

  /** The wait after failure number `n`, as the source computes it: doubling, shift at most 10, an hour at most. */
  function Backoff(n: nat): int
    requires n > 0
  {
    Min(5 * Pow2(Min(n - 1, 10)), HOUR)
  }

  /** The deliveries table; a row's identifier is its position. */
  class Deliveries {
    var rows: seq<Delivery>

    constructor ()
      ensures rows == []
    {
      rows := [];
    }

    /** A row enters with its firing, due at once. */
    method Enqueue(now: int) returns (id: nat)
      modifies this
      ensures id == |old(rows)| && rows == old(rows) + [Delivery(Pending, 0, now)]
    {
      id := |rows|;
      rows := rows + [Delivery(Pending, 0, now)];
    }

    /** RecordWebhookResult; false when there is no such delivery. */
    method RecordResult(id: nat, o: Outcome) returns (found: bool)
      modifies this
      ensures found <==> id < |old(rows)|
      ensures rows == if id < |old(rows)| then old(rows)[id := Recorded(old(rows)[id], o)] else old(rows)
    {
      if id >= |rows| {
        return false;
      }
      var row := rows[id];
      if row.state != Pending {
        return true;
      }
      var attempts := row.attempts + 1;
      if 200 <= o.responseCode && o.responseCode < 300 && o.error == "" {
        rows := rows[id := Delivery(Delivered, attempts, row.nextAttemptAt)];
      } else {
        var next := Pending;
        if attempts >= MAX_ATTEMPTS {
          next := Dead;
        }
        var shift := attempts - 1;
        if shift > 10 {
          shift := 10;
        }
        var factor := 1;
        for k := 0 to shift
          invariant factor == Pow2(k)
        {
          factor := 2 * factor;
        }
        var backoff := 5 * factor;
        if backoff > HOUR {
          backoff := HOUR;
        }
        rows := rows[id := Delivery(next, attempts, o.at + backoff)];
      }
      return true;
    }
  }

  /** One recorded result. */
  function Recorded(d: Delivery, o: Outcome): Delivery {
    if !d.state.Pending? then d
    else if Succeeded(o) then Delivery(Delivered, d.attempts + 1, d.nextAttemptAt)
    else Delivery(if d.attempts + 1 >= MAX_ATTEMPTS then Dead else Pending, d.attempts + 1, o.at + Backoff(d.attempts + 1))
  }

  function RecordedAll(d: Delivery, outcomes: seq<Outcome>): Delivery
    decreases |outcomes|
  {
    if |outcomes| == 0 then d else RecordedAll(Recorded(d, outcomes[0]), outcomes[1..])
  }

  /** How many outcomes come before the first success. */
  function FailuresBefore(outcomes: seq<Outcome>): nat
    decreases |outcomes|
  {
    if |outcomes| == 0 || Succeeded(outcomes[0]) then 0 else 1 + FailuresBefore(outcomes[1..])
  }

  lemma {:induction false} FailuresBound(outcomes: seq<Outcome>)
    ensures FailuresBefore(outcomes) <= |outcomes|
    ensures forall k :: 0 <= k < FailuresBefore(outcomes) ==> !Succeeded(outcomes[k])
    ensures FailuresBefore(outcomes) < |outcomes| ==> Succeeded(outcomes[FailuresBefore(outcomes)])
    decreases |outcomes|
  {
    if |outcomes| > 0 && !Succeeded(outcomes[0]) {
      FailuresBound(outcomes[1..]);
    }
  }

  /** A settled delivery is never written again. */
  lemma {:induction false} SettledForGood(d: Delivery, outcomes: seq<Outcome>)
    requires !d.state.Pending?
    ensures RecordedAll(d, outcomes) == d
    decreases |outcomes|
  {
    if |outcomes| > 0 {
      SettledForGood(d, outcomes[1..]);
    }
  }

  lemma {:induction false} OutcomeFrom(d: Delivery, outcomes: seq<Outcome>)
    requires d.state.Pending? && d.attempts < MAX_ATTEMPTS
    ensures var f := FailuresBefore(outcomes);
            var end := RecordedAll(d, outcomes);
            if d.attempts + f >= MAX_ATTEMPTS then end.state == Dead && end.attempts == MAX_ATTEMPTS
            else if f < |outcomes| then end.state == Delivered && end.attempts == d.attempts + f + 1
            else end.state == Pending && end.attempts == d.attempts + f
    decreases |outcomes|
  {
    FailuresBound(outcomes);
    if |outcomes| > 0 {
      var next := Recorded(d, outcomes[0]);
      if next.state.Pending? {
        OutcomeFrom(next, outcomes[1..]);
      } else {
        SettledForGood(next, outcomes[1..]);
      }
    }
  }

  /**
   What becomes of a delivery, over every sequence of results: it is delivered exactly when one of the first
   ten is a 2xx without error, dead exactly when there were ten and none is, and never counts more than ten attempts.
   */
  lemma DeliveredOrDead(now: int, outcomes: seq<Outcome>)
    ensures var end := RecordedAll(Delivery(Pending, 0, now), outcomes);
            && end.attempts <= 10
            && (end.state.Delivered? <==>
                  exists k :: 0 <= k < |outcomes| && k < 10 && 200 <= outcomes[k].responseCode <= 299 && outcomes[k].error == "")
            && (end.state.Dead? <==>
                  |outcomes| >= 10 &&
                  forall k :: 0 <= k < 10 ==> !(200 <= outcomes[k].responseCode <= 299 && outcomes[k].error == ""))
            && (end.state.Pending? ==> end.attempts == |outcomes|)
  {
    OutcomeFrom(Delivery(Pending, 0, now), outcomes);
    FailuresBound(outcomes);
    var f := FailuresBefore(outcomes);
    if f < |outcomes| && f < MAX_ATTEMPTS {
      assert Succeeded(outcomes[f]);
    }
  }

  /** Failures scheduled one exactly when the previous wait is over. */
  predicate OnTime(d: Delivery, outcomes: seq<Outcome>)
    decreases |outcomes|
  {
    |outcomes| > 0 ==>
      !Succeeded(outcomes[0]) && outcomes[0].at == d.nextAttemptAt && OnTime(Recorded(d, outcomes[0]), outcomes[1..])
  }

  /** Within ten attempts the wait doubles with every failure and the hour's cap never binds. */
  lemma BackoffDoubles(n: nat)
    requires 0 < n <= MAX_ATTEMPTS
    ensures Backoff(n) == 5 * Pow2(n - 1) && Backoff(n) < 3600
    ensures n < MAX_ATTEMPTS ==> Backoff(n + 1) == 2 * Backoff(n)
  {
    assert Pow2(9) == 512 by {
      assert Pow2(5) == 32;
    }
    PowGrows(n - 1, 9);
    if n < MAX_ATTEMPTS {
      PowGrows(n, 9);
    }
  }

  lemma {:induction false} PowGrows(a: nat, b: nat)
    requires a <= b
    ensures Pow2(a) <= Pow2(b)
    decreases b
  {
    if a < b {
      PowGrows(a, b - 1);
    }
  }

  /** After n timely failures, fewer than ten, the next attempt is due 5 * (2^n - 1) seconds after the first. */
  lemma {:induction false} WaitsAddUp(d: Delivery, outcomes: seq<Outcome>, start: int)
    requires d.state.Pending? && d.attempts + |outcomes| < MAX_ATTEMPTS && OnTime(d, outcomes)
    requires d.nextAttemptAt == start + 5 * (Pow2(d.attempts) - 1)
    ensures var end := RecordedAll(d, outcomes);
            && end.state.Pending? && end.attempts == d.attempts + |outcomes|
            && end.nextAttemptAt == start + 5 * (Pow2(end.attempts) - 1)
    decreases |outcomes|
  {
    if |outcomes| > 0 {
      BackoffDoubles(d.attempts + 1);
      WaitsAddUp(Recorded(d, outcomes[0]), outcomes[1..], start);
    }
  }

  /** The tenth attempt is due 2555 seconds after the first, the hour's cap never having bound. */
  lemma TenthAttempt(start: int, outcomes: seq<Outcome>)
    requires |outcomes| == 9 && OnTime(Delivery(Pending, 0, start), outcomes)
    ensures RecordedAll(Delivery(Pending, 0, start), outcomes) == Delivery(Pending, 9, start + 2555)
  {
    WaitsAddUp(Delivery(Pending, 0, start), outcomes, start);
    assert Pow2(9) == 512 by {
      assert Pow2(5) == 32;
    }
  }

  /******* Which deliveries are due *******/

  /** Pending, its time come, and its target not revoked. */
  predicate IsDue(rows: seq<Delivery>, revoked: set<nat>, now: int, id: nat)
    requires id < |rows|
  {
    rows[id].state.Pending? && rows[id].nextAttemptAt <= now && id !in revoked
  }

  /** Earlier due first, then in row order. */
  predicate Sooner(rows: seq<Delivery>, a: nat, b: nat)
    requires a < |rows| && b < |rows|
  {
    rows[a].nextAttemptAt < rows[b].nextAttemptAt || (rows[a].nextAttemptAt == rows[b].nextAttemptAt && a < b)
  }

  predicate InRange(rows: seq<Delivery>, ids: seq<nat>) {
    forall k :: 0 <= k < |ids| ==> ids[k] < |rows|
  }

  predicate InOrder(rows: seq<Delivery>, ids: seq<nat>)
    requires InRange(rows, ids)
  {
    forall i, k :: 0 <= i < k < |ids| ==> Sooner(rows, ids[i], ids[k])
  }

  function InsertDue(rows: seq<Delivery>, id: nat, ids: seq<nat>): (more: seq<nat>)
    requires id < |rows| && InRange(rows, ids)
    ensures InRange(rows, more) && |more| == |ids| + 1
  {
    if |ids| == 0 then [id]
    else if Sooner(rows, id, ids[0]) then [id] + ids
    else [ids[0]] + InsertDue(rows, id, ids[1..])
  }

  lemma {:induction false} InsertDueSorts(rows: seq<Delivery>, id: nat, ids: seq<nat>)
    requires id < |rows| && id !in ids && InRange(rows, ids) && InOrder(rows, ids)
    ensures InOrder(rows, InsertDue(rows, id, ids))
    ensures forall x :: x in InsertDue(rows, id, ids) <==> x == id || x in ids
  {
    if |ids| > 0 && !Sooner(rows, id, ids[0]) {
      var rest := ids[1..];
      assert forall k :: 0 <= k < |rest| ==> rest[k] == ids[k + 1];
      InsertDueSorts(rows, id, rest);
      var tail := InsertDue(rows, id, rest);
      assert forall x :: x in ids <==> x == ids[0] || x in rest;
      forall k | 0 <= k < |tail| ensures Sooner(rows, ids[0], tail[k]) {
        assert tail[k] in tail;
        if tail[k] != id {
          var m :| 0 <= m < |rest| && rest[m] == tail[k];
          assert ids[m + 1] == tail[k];
        } else {
          assert ids[0] in ids;
        }
      }
    }
  }

  /** At most a hundred per pass, twenty by default: a bound out of range means the default. */
  function Limit(limit: int): nat {
    if limit <= 0 || limit > 100 then 20 else limit
  }

  /**
   The deliveries to attempt now: due ones only, the longest due first, each once; and one left out is left
   out because the list is full of deliveries due before it.
   */
  method DueDeliveries(rows: seq<Delivery>, revoked: set<nat>, now: int, limit: int) returns (ids: seq<nat>)
    ensures |ids| <= (if 1 <= limit <= 100 then limit else 20)
    ensures forall k :: 0 <= k < |ids| ==>
              && ids[k] < |rows| && rows[ids[k]].state == Pending && rows[ids[k]].nextAttemptAt <= now && ids[k] !in revoked
    ensures forall i, k :: 0 <= i < k < |ids| ==>
              || rows[ids[i]].nextAttemptAt < rows[ids[k]].nextAttemptAt
              || (rows[ids[i]].nextAttemptAt == rows[ids[k]].nextAttemptAt && ids[i] < ids[k])
    ensures forall id :: 0 <= id < |rows| && rows[id].state == Pending && rows[id].nextAttemptAt <= now && id !in revoked && id !in ids ==>
              && |ids| == (if 1 <= limit <= 100 then limit else 20)
              && forall k :: 0 <= k < |ids| ==>
                   || rows[ids[k]].nextAttemptAt < rows[id].nextAttemptAt
                   || (rows[ids[k]].nextAttemptAt == rows[id].nextAttemptAt && ids[k] < id)
  {
    ids := [];
    var i := 0;
    while i < |rows|
      invariant 0 <= i <= |rows| && InRange(rows, ids) && InOrder(rows, ids)
      invariant forall x :: x in ids <==> 0 <= x < i && IsDue(rows, revoked, now, x)
    {
      if IsDue(rows, revoked, now, i) {
        InsertDueSorts(rows, i, ids);
        ids := InsertDue(rows, i, ids);
      }
      i := i + 1;
    }
    forall k | 0 <= k < |ids| ensures IsDue(rows, revoked, now, ids[k]) {
      assert ids[k] in ids;
    }
    if |ids| > Limit(limit) {
      ghost var all := ids;
      ids := ids[..Limit(limit)];
      forall id | 0 <= id < |rows| && IsDue(rows, revoked, now, id) && id !in ids
        ensures forall k :: 0 <= k < |ids| ==> Sooner(rows, ids[k], id)
      {
        var m :| 0 <= m < |all| && all[m] == id;
        assert forall j :: 0 <= j < |ids| ==> all[j] == ids[j] && ids[j] in ids;
      }
    }
  }
}
