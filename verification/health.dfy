/**
 Health policies: what an evaluation fires, and that over any run every firing key fires once.
 Instants and windows are in nanoseconds.
 */
module Health {
  import opened Wrappers
  import opened Domain
  import opened Stall

  datatype FiringKey = PeriodicKey(bucket: int) | StalledKey | FinishedKey

  /** What a firing row is unique by; the job is the attempt's. */
  datatype Due = Due(attempt: AttemptId, policy: nat, key: FiringKey, target: string)

  /** The delivery row of a firing is stored with the firing's row number. */
  datatype DeliveryRow = DeliveryRow(firing: nat, target: string)
  datatype Tables = Tables(firings: seq<Due>, deliveries: seq<DeliveryRow>)

  const NO_TABLES := Tables([], [])

  predicate SameKey(a: Due, b: Due) {
    a.attempt == b.attempt && a.policy == b.policy && a.key == b.key
  }

  predicate Fired(tables: Tables, due: Due) {
    exists k :: 0 <= k < |tables.firings| && SameKey(tables.firings[k], due)
  }

  /** INSERT OR IGNORE of the firing, and its delivery when the firing is new. */
  function Fire(tables: Tables, targets: set<string>, due: Due): Option<Tables> {
    if due.target !in targets then None
    else if Fired(tables, due) then Some(tables)
    else Some(Tables(tables.firings + [due], tables.deliveries + [DeliveryRow(|tables.firings|, due.target)]))
  }

  /******* Evaluation *******/

  /** An attempt that was running, on a running job, when the evaluation looked. */
  datatype Candidate = Candidate(attempt: AttemptId, startedAt: int, policies: seq<HealthPolicy>)

  type Readings = (AttemptId, string) -> seq<Observation>

  /** Whether the policy is due, and under which key. */
  function DueKey(c: Candidate, policy: HealthPolicy, readings: Readings, now: int): Option<FiringKey> {
    if policy.window <= 0 then None
    else match policy.kind
      case KindPeriodic =>
        // an elapsed time before the start divides to something below one, rounded either way
        var bucket := (now - c.startedAt) / policy.window;
        if bucket < 1 then None else Some(PeriodicKey(bucket))
      case KindMetricStalled =>
        if now - c.startedAt < policy.window then None
        else if Stalled(InWindow(readings(c.attempt, policy.metric), now - policy.window), policy.mode, policy.minimumDelta)
        then Some(StalledKey) else None
      case KindFinished => None
  }

  /** Everything due for the first n policies of a candidate, in order. */
  function DueOf(c: Candidate, readings: Readings, now: int, n: nat): seq<Due>
    requires n <= |c.policies|
  {
    if n == 0 then []
    else
      var policy := c.policies[n - 1];
      var key := DueKey(c, policy, readings, now);
      DueOf(c, readings, now, n - 1) + if key.Some? then [Due(c.attempt, n - 1, key.value, policy.target)] else []
  }

  function AllDue(candidates: seq<Candidate>, readings: Readings, now: int): seq<Due> {
    if |candidates| == 0 then []
    else
      var c := candidates[|candidates| - 1];
      AllDue(candidates[..|candidates| - 1], readings, now) + DueOf(c, readings, now, |c.policies|)
  }

  /** Each firing commits on its own; the first unknown target ends the evaluation. */
  datatype Evaluation = Evaluation(tables: Tables, fired: nat, ok: bool)

  function FireAll(tables: Tables, targets: set<string>, dues: seq<Due>): Evaluation {
    if |dues| == 0 then Evaluation(tables, 0, true)
    else
      var before := FireAll(tables, targets, dues[..|dues| - 1]);
      if !before.ok then before
      else
        var next := Fire(before.tables, targets, dues[|dues| - 1]);
        if next.None? then before.(ok := false)
        else Evaluation(next.value, before.fired + if Fired(before.tables, dues[|dues| - 1]) then 0 else 1, true)
  }

  function Evaluate(tables: Tables, targets: set<string>, candidates: seq<Candidate>, readings: Readings, now: int): Evaluation {
    FireAll(tables, targets, AllDue(candidates, readings, now))
  }

  /** When an attempt finishes, its finished policies fire; an unknown target is only logged. */
  function FireFinished(tables: Tables, targets: set<string>, attempt: AttemptId, policies: seq<HealthPolicy>, n: nat): Tables
    requires n <= |policies|
  {
    if n == 0 then tables
    else
      var before := FireFinished(tables, targets, attempt, policies, n - 1);
      if !policies[n - 1].kind.KindFinished? then before
      else
        var next := Fire(before, targets, Due(attempt, n - 1, FinishedKey, policies[n - 1].target));
        if next.Some? then next.value else before
  }

  /******* The tables, updated in place *******/

  class HealthStore {
    var firings: seq<Due>
    var deliveries: seq<DeliveryRow>

    function Value(): Tables
      reads this
    {
      Tables(firings, deliveries)
    }

    constructor ()
      ensures Value() == NO_TABLES
    {
      firings, deliveries := [], [];
    }

    /** Whether a new row was inserted; None when the target is not configured. */
    method FirePolicy(targets: set<string>, due: Due) returns (inserted: Option<bool>)
      modifies this
      ensures inserted.None? <==> due.target !in targets
      ensures inserted.None? ==> Value() == old(Value())
      ensures Fire(old(Value()), targets, due) == if inserted.None? then None else Some(Value())
      ensures inserted.Some? ==> (inserted.value <==> !old(Fired(Value(), due)))
    {
      if due.target !in targets {
        return None;
      }
      if exists k :: 0 <= k < |firings| && SameKey(firings[k], due) {
        return Some(false);
      }
      deliveries := deliveries + [DeliveryRow(|firings|, due.target)];
      firings := firings + [due];
      return Some(true);
    }

    /** Whether a policy is due, and under which key; a stall policy reads its metric's samples. */
    method PolicyKey(c: Candidate, policy: HealthPolicy, readings: Readings, now: int) returns (key: Option<FiringKey>)
      ensures key == DueKey(c, policy, readings, now)
    {
      if policy.window <= 0 {
        return None;
      }
      match policy.kind {
        case KindPeriodic =>
          var bucket := (now - c.startedAt) / policy.window;
          if bucket < 1 {
            return None;
          }
          return Some(PeriodicKey(bucket));
        case KindMetricStalled =>
          if now - c.startedAt < policy.window {
            return None;
          }
          var stalled, delta, count :=
            MetricStalled(readings(c.attempt, policy.metric), policy.mode, policy.minimumDelta, now - policy.window);
          if !stalled {
            return None;
          }
          return Some(StalledKey);
        case KindFinished =>
          return None;
      }
    }

    method EvaluateHealthPolicies(targets: set<string>, candidates: seq<Candidate>, readings: Readings, now: int)
      returns (fired: nat, ok: bool)
      modifies this
      ensures Evaluation(Value(), fired, ok) == Evaluate(old(Value()), targets, candidates, readings, now)
    {
      hide Fire, Fired, DueKey;
      fired := 0;
      ghost var done: seq<Due> := [];
      var i := 0;
      while i < |candidates|
        invariant 0 <= i <= |candidates|
        invariant done == AllDue(candidates[..i], readings, now)
        invariant Evaluation(Value(), fired, true) == FireAll(old(Value()), targets, done)
      {
        var c := candidates[i];
        assert candidates[..i + 1][..i] == candidates[..i];
        var index := 0;
        while index < |c.policies|
          invariant 0 <= index <= |c.policies|
          invariant done == AllDue(candidates[..i], readings, now) + DueOf(c, readings, now, index)
          invariant Evaluation(Value(), fired, true) == FireAll(old(Value()), targets, done)
        {
          var policy := c.policies[index];
          var key := PolicyKey(c, policy, readings, now);
          if key.Some? {
            var due := Due(c.attempt, index, key.value, policy.target);
            ghost var more := done + [due];
            assert more[..|done|] == done;
            assert AllDue(candidates[..i], readings, now) + DueOf(c, readings, now, index + 1) == more;
            var inserted := FirePolicy(targets, due);
            if inserted.None? {
              StopsThere(old(Value()), targets, more, AllDue(candidates, readings, now), candidates, i, index, readings, now);
              return fired, false;
            }
            if inserted.value {
              fired := fired + 1;
            }
            done := more;
          } else {
            assert DueOf(c, readings, now, index + 1) == DueOf(c, readings, now, index);
          }
          index := index + 1;
        }
        i := i + 1;
      }
      assert candidates[..i] == candidates;
      return fired, true;
    }
  }

  lemma {:induction false} DueOfGrows(c: Candidate, readings: Readings, now: int, m: nat, n: nat)
    requires m <= n <= |c.policies|
    ensures DueOf(c, readings, now, m) <= DueOf(c, readings, now, n)
    decreases n
  {
    if m < n {
      DueOfGrows(c, readings, now, m, n - 1);
    }
  }

  lemma {:induction false} AllDueGrows(candidates: seq<Candidate>, readings: Readings, now: int, i: nat)
    requires i <= |candidates|
    ensures AllDue(candidates[..i], readings, now) <= AllDue(candidates, readings, now)
    decreases |candidates|
  {
    if i == |candidates| {
      assert candidates[..i] == candidates;
    } else {
      var init := candidates[..|candidates| - 1];
      assert init[..i] == candidates[..i];
      AllDueGrows(init, readings, now, i);
    }
  }

  /** An evaluation that fails keeps failing there, whatever was to follow. */
  lemma {:induction false} FailureStays(tables: Tables, targets: set<string>, dues: seq<Due>, all: seq<Due>)
    requires dues <= all && !FireAll(tables, targets, dues).ok
    ensures FireAll(tables, targets, all) == FireAll(tables, targets, dues)
    decreases |all|
  {
    if |dues| == |all| {
      assert dues == all;
    } else {
      FailureStays(tables, targets, dues, all[..|all| - 1]);
    }
  }

  lemma StopsThere(tables: Tables, targets: set<string>, dues: seq<Due>, all: seq<Due>, candidates: seq<Candidate>, i: nat, index: nat, readings: Readings, now: int)
    requires i < |candidates| && index < |candidates[i].policies|
    requires dues == AllDue(candidates[..i], readings, now) + DueOf(candidates[i], readings, now, index + 1)
    requires all == AllDue(candidates, readings, now) && !FireAll(tables, targets, dues).ok
    ensures FireAll(tables, targets, all) == FireAll(tables, targets, dues)
  {
    var c := candidates[i];
    DueOfGrows(c, readings, now, index + 1, |c.policies|);
    assert candidates[..i + 1][..i] == candidates[..i];
    AllDueGrows(candidates, readings, now, i + 1);
    assert AllDue(candidates[..i + 1], readings, now) == AllDue(candidates[..i], readings, now) + DueOf(c, readings, now, |c.policies|);
    FailureStays(tables, targets, dues, all);
  }

  /******* Every key fires once *******/

  /** One firing per key, and one delivery per firing. */
  predicate TablesOk(tables: Tables) {
    && (forall i, k :: 0 <= i < k < |tables.firings| ==> !SameKey(tables.firings[i], tables.firings[k]))
    && |tables.deliveries| == |tables.firings|
    && (forall i :: 0 <= i < |tables.deliveries| ==> tables.deliveries[i] == DeliveryRow(i, tables.firings[i].target))
  }

  predicate Extends(before: Tables, after: Tables) {
    before.firings <= after.firings && before.deliveries <= after.deliveries
  }

  lemma FireKeepsTables(tables: Tables, targets: set<string>, due: Due)
    requires TablesOk(tables) && Fire(tables, targets, due).Some?
    ensures var after := Fire(tables, targets, due).value;
            TablesOk(after) && Extends(tables, after) && Fired(after, due)
  {
    var after := Fire(tables, targets, due).value;
    if !Fired(tables, due) {
      assert after.firings[|tables.firings|] == due;
    }
  }

  lemma FiredStays(before: Tables, after: Tables, due: Due)
    requires Extends(before, after) && Fired(before, due)
    ensures Fired(after, due)
  {
    var k :| 0 <= k < |before.firings| && SameKey(before.firings[k], due);
    assert after.firings[k] == before.firings[k];
  }

  lemma {:induction false} FireAllKeepsTables(tables: Tables, targets: set<string>, dues: seq<Due>)
    requires TablesOk(tables)
    ensures var e := FireAll(tables, targets, dues);
            && TablesOk(e.tables) && Extends(tables, e.tables) && |e.tables.firings| == |tables.firings| + e.fired
            && (e.ok ==> forall k :: 0 <= k < |dues| ==> Fired(e.tables, dues[k]))
  {
    if |dues| > 0 {
      var last := |dues| - 1;
      FireAllKeepsTables(tables, targets, dues[..last]);
      var before := FireAll(tables, targets, dues[..last]);
      var e := FireAll(tables, targets, dues);
      if e.ok {
        FireKeepsTables(before.tables, targets, dues[last]);
        forall k | 0 <= k < |dues| ensures Fired(e.tables, dues[k]) {
          if k < last {
            assert dues[..last][k] == dues[k];
            FiredStays(before.tables, e.tables, dues[k]);
          }
        }
      }
    }
  }

  lemma {:induction false} RefireChangesNothing(tables: Tables, later: Tables, targets: set<string>, dues: seq<Due>)
    requires TablesOk(tables) && TablesOk(later) && Extends(FireAll(tables, targets, dues).tables, later)
    ensures FireAll(later, targets, dues) == Evaluation(later, 0, FireAll(tables, targets, dues).ok)
  {
    if |dues| > 0 {
      var last := |dues| - 1;
      var before := FireAll(tables, targets, dues[..last]);
      FireAllKeepsTables(tables, targets, dues[..last]);
      if before.ok && Fire(before.tables, targets, dues[last]).Some? {
        FireKeepsTables(before.tables, targets, dues[last]);
        FiredStays(FireAll(tables, targets, dues).tables, later, dues[last]);
      }
      RefireChangesNothing(tables, later, targets, dues[..last]);
    }
  }

  /** Evaluating again at the same instant fires nothing and changes nothing, even after a failed evaluation. */
  lemma ReevaluationFiresNothing(tables: Tables, targets: set<string>, candidates: seq<Candidate>, readings: Readings, now: int)
    requires TablesOk(tables)
    ensures var first := Evaluate(tables, targets, candidates, readings, now);
            Evaluate(first.tables, targets, candidates, readings, now) == Evaluation(first.tables, 0, first.ok)
  {
    var dues := AllDue(candidates, readings, now);
    FireAllKeepsTables(tables, targets, dues);
    RefireChangesNothing(tables, FireAll(tables, targets, dues).tables, targets, dues);
  }

  /******* Runs *******/

  datatype Event =
    | Tick(targets: set<string>, candidates: seq<Candidate>, readings: Readings, now: int)
    | End(targets: set<string>, attempt: AttemptId, policies: seq<HealthPolicy>)

  function After(tables: Tables, event: Event): Tables {
    match event
    case Tick(targets, candidates, readings, now) => Evaluate(tables, targets, candidates, readings, now).tables
    case End(targets, attempt, policies) => FireFinished(tables, targets, attempt, policies, |policies|)
  }

  function AfterAll(tables: Tables, events: seq<Event>): Tables {
    if |events| == 0 then tables else After(AfterAll(tables, events[..|events| - 1]), events[|events| - 1])
  }

  /** A periodic firing names a whole number of windows that has passed; a stall firing comes after a whole window. */
  predicate BucketAt(firing: Due, startedAt: int, window: int, latest: int) {
    match firing.key
    case PeriodicKey(bucket) => window > 0 && 1 <= bucket <= (latest - startedAt) / window
    case StalledKey => window > 0 && latest - startedAt >= window
    case FinishedKey => true
  }

  /** The evaluation sees the attempt, if at all, as started then and with that window, and not after `latest`. */
  predicate Sees(event: Event, attempt: AttemptId, policy: nat, startedAt: int, window: int, latest: int) {
    event.Tick? ==>
      && event.now <= latest
      && forall i :: 0 <= i < |event.candidates| && event.candidates[i].attempt == attempt ==>
           && event.candidates[i].startedAt == startedAt
           && (policy < |event.candidates[i].policies| ==> event.candidates[i].policies[policy].window == window)
  }

  predicate BucketsOk(firings: seq<Due>, attempt: AttemptId, policy: nat, startedAt: int, window: int, latest: int) {
    forall k :: 0 <= k < |firings| && firings[k].attempt == attempt && firings[k].policy == policy ==>
      BucketAt(firings[k], startedAt, window, latest)
  }

  lemma {:induction false} FireFinishedKeeps(tables: Tables, targets: set<string>, attempt: AttemptId, policies: seq<HealthPolicy>, n: nat)
    requires TablesOk(tables) && n <= |policies|
    ensures var after := FireFinished(tables, targets, attempt, policies, n);
            && TablesOk(after) && Extends(tables, after)
            && (forall k :: |tables.firings| <= k < |after.firings| ==> after.firings[k].key.FinishedKey?)
  {
    if n > 0 {
      FireFinishedKeeps(tables, targets, attempt, policies, n - 1);
      var before := FireFinished(tables, targets, attempt, policies, n - 1);
      var due := Due(attempt, n - 1, FinishedKey, policies[n - 1].target);
      if Fire(before, targets, due).Some? {
        FireKeepsTables(before, targets, due);
      }
    }
  }

  lemma AtLeastOnce(d: int, k: int)
    requires d > 0 && k >= 1
    ensures d * k >= d
  {
  }

  lemma QuotientsOrdered(d: int, p: int, r: int, q: int, s: int)
    requires 0 <= r < d && 0 <= s < d && d * p + r <= d * q + s
    ensures p <= q
  {
    assert d * (p - q) == d * p - d * q;
    if p - q >= 1 {
      AtLeastOnce(d, p - q);
    }
  }

  lemma DivideMonotone(a: int, b: int, d: int)
    requires a <= b && d > 0
    ensures a / d <= b / d
  {
    QuotientsOrdered(d, a / d, a % d, b / d, b % d);
  }

  lemma {:induction false} DueBuckets(c: Candidate, readings: Readings, now: int, n: nat, policy: nat, latest: int)
    requires n <= |c.policies| && now <= latest
    ensures forall k :: 0 <= k < |DueOf(c, readings, now, n)| ==>
              var due := DueOf(c, readings, now, n)[k];
              && due.attempt == c.attempt && due.policy < n
              && BucketAt(due, c.startedAt, c.policies[due.policy].window, latest)
  {
    if n > 0 {
      DueBuckets(c, readings, now, n - 1, policy, latest);
      var window := c.policies[n - 1].window;
      if window > 0 {
        DivideMonotone(now - c.startedAt, latest - c.startedAt, window);
      }
    }
  }

  lemma {:induction false} AllDueBuckets(event: Event, n: nat, attempt: AttemptId, policy: nat, startedAt: int, window: int, latest: int)
    requires event.Tick? && n <= |event.candidates| && Sees(event, attempt, policy, startedAt, window, latest)
    ensures BucketsOk(AllDue(event.candidates[..n], event.readings, event.now), attempt, policy, startedAt, window, latest)
  {
    if n > 0 {
      var c := event.candidates[n - 1];
      assert event.candidates[..n][..n - 1] == event.candidates[..n - 1];
      AllDueBuckets(event, n - 1, attempt, policy, startedAt, window, latest);
      DueBuckets(c, event.readings, event.now, |c.policies|, policy, latest);
    }
  }

  lemma {:induction false} FireAllBuckets(tables: Tables, targets: set<string>, dues: seq<Due>, attempt: AttemptId, policy: nat, startedAt: int, window: int, latest: int)
    requires BucketsOk(tables.firings, attempt, policy, startedAt, window, latest)
    requires BucketsOk(dues, attempt, policy, startedAt, window, latest)
    ensures BucketsOk(FireAll(tables, targets, dues).tables.firings, attempt, policy, startedAt, window, latest)
  {
    if |dues| > 0 {
      FireAllBuckets(tables, targets, dues[..|dues| - 1], attempt, policy, startedAt, window, latest);
    }
  }

  lemma AfterKeeps(tables: Tables, event: Event, attempt: AttemptId, policy: nat, startedAt: int, window: int, latest: int)
    requires TablesOk(tables) && BucketsOk(tables.firings, attempt, policy, startedAt, window, latest)
    requires Sees(event, attempt, policy, startedAt, window, latest)
    ensures var after := After(tables, event);
            && TablesOk(after) && Extends(tables, after)
            && BucketsOk(after.firings, attempt, policy, startedAt, window, latest)
  {
    match event
    case Tick(targets, candidates, readings, now) =>
      var dues := AllDue(candidates, readings, now);
      FireAllKeepsTables(tables, targets, dues);
      assert candidates[..|candidates|] == candidates;
      AllDueBuckets(event, |candidates|, attempt, policy, startedAt, window, latest);
      FireAllBuckets(tables, targets, dues, attempt, policy, startedAt, window, latest);
    case End(targets, ended, policies) =>
      FireFinishedKeeps(tables, targets, ended, policies, |policies|);
  }

  predicate SeesAll(events: seq<Event>, attempt: AttemptId, policy: nat, startedAt: int, window: int, latest: int) {
    forall i :: 0 <= i < |events| ==> Sees(events[i], attempt, policy, startedAt, window, latest)
  }

  lemma {:induction false} AfterAllKeeps(events: seq<Event>, attempt: AttemptId, policy: nat, startedAt: int, window: int, latest: int)
    requires SeesAll(events, attempt, policy, startedAt, window, latest)
    ensures var tables := AfterAll(NO_TABLES, events);
            TablesOk(tables) && BucketsOk(tables.firings, attempt, policy, startedAt, window, latest)
  {
    if |events| > 0 {
      var last := |events| - 1;
      AfterAllKeeps(events[..last], attempt, policy, startedAt, window, latest);
      AfterKeeps(AfterAll(NO_TABLES, events[..last]), events[last], attempt, policy, startedAt, window, latest);
    }
  }

  /** Each key fires once, with one delivery of its own, over every run of evaluations and finished attempts. */
  lemma {:induction false} OneFiringPerKey(events: seq<Event>)
    ensures TablesOk(AfterAll(NO_TABLES, events))
  {
    if |events| > 0 {
      var last := |events| - 1;
      OneFiringPerKey(events[..last]);
      var tables := AfterAll(NO_TABLES, events[..last]);
      match events[last]
      case Tick(targets, candidates, readings, now) => FireAllKeepsTables(tables, targets, AllDue(candidates, readings, now));
      case End(targets, ended, policies) => FireFinishedKeeps(tables, targets, ended, policies, |policies|);
    }
  }

  /** The buckets of a policy's periodic firings. */
  function Buckets(firings: seq<Due>, attempt: AttemptId, policy: nat): set<int> {
    set k | 0 <= k < |firings| && firings[k].attempt == attempt && firings[k].policy == policy && firings[k].key.PeriodicKey? ::
      firings[k].key.bucket
  }

  function PeriodicFirings(firings: seq<Due>, attempt: AttemptId, policy: nat): nat {
    if |firings| == 0 then 0
    else
      var last := firings[|firings| - 1];
      PeriodicFirings(firings[..|firings| - 1], attempt, policy) +
      if last.attempt == attempt && last.policy == policy && last.key.PeriodicKey? then 1 else 0
  }

  predicate UniqueKeys(firings: seq<Due>) {
    forall i, k :: 0 <= i < k < |firings| ==> !SameKey(firings[i], firings[k])
  }

  lemma {:induction false} FiringsAreBuckets(firings: seq<Due>, attempt: AttemptId, policy: nat)
    requires UniqueKeys(firings)
    ensures PeriodicFirings(firings, attempt, policy) == |Buckets(firings, attempt, policy)|
  {
    if |firings| == 0 {
      assert Buckets(firings, attempt, policy) == {};
    } else {
      var n := |firings| - 1;
      var init, last := firings[..n], firings[n];
      FiringsAreBuckets(init, attempt, policy);
      var before := Buckets(init, attempt, policy);
      if last.attempt == attempt && last.policy == policy && last.key.PeriodicKey? {
        BucketsOfLast(firings, attempt, policy);
      } else {
        BucketsWithoutLast(firings, attempt, policy);
      }
    }
  }

  lemma BucketsWithoutLast(firings: seq<Due>, attempt: AttemptId, policy: nat)
    requires |firings| > 0
    requires var last := firings[|firings| - 1]; !(last.attempt == attempt && last.policy == policy && last.key.PeriodicKey?)
    ensures Buckets(firings, attempt, policy) == Buckets(firings[..|firings| - 1], attempt, policy)
  {
    var init := firings[..|firings| - 1];
    assert forall k :: 0 <= k < |init| ==> init[k] == firings[k];
  }

  lemma BucketsOfLast(firings: seq<Due>, attempt: AttemptId, policy: nat)
    requires |firings| > 0 && UniqueKeys(firings)
    requires var last := firings[|firings| - 1]; last.attempt == attempt && last.policy == policy && last.key.PeriodicKey?
    ensures var before := Buckets(firings[..|firings| - 1], attempt, policy);
            var bucket := firings[|firings| - 1].key.bucket;
            bucket !in before && Buckets(firings, attempt, policy) == before + {bucket}
  {
    var n := |firings| - 1;
    var init, last := firings[..n], firings[n];
    var before := Buckets(init, attempt, policy);
    assert forall k :: 0 <= k < n ==> init[k] == firings[k];
    if last.key.bucket in before {
      var k :| 0 <= k < |init| && init[k].attempt == attempt && init[k].policy == policy && init[k].key.PeriodicKey?
               && init[k].key.bucket == last.key.bucket;
      assert SameKey(firings[k], firings[n]);
    }
    forall b ensures b in Buckets(firings, attempt, policy) <==> b in before + {last.key.bucket} {
      if b in before {
        var k :| 0 <= k < |init| && init[k].attempt == attempt && init[k].policy == policy && init[k].key.PeriodicKey?
                 && init[k].key.bucket == b;
        assert firings[k].key.bucket == b;
      }
      if b in Buckets(firings, attempt, policy) {
        var k :| 0 <= k < |firings| && firings[k].attempt == attempt && firings[k].policy == policy && firings[k].key.PeriodicKey?
                 && firings[k].key.bucket == b;
        assert k < n ==> init[k].key.bucket == b;
      }
      if b == last.key.bucket {
        assert firings[n].key.bucket == b;
      }
    }
  }

  /**
   A periodic policy fires at most once per whole window since the attempt started: whatever the evaluations
   and however often, no more than floor(elapsed / window) times up to the latest of them.
   */
  lemma PeriodicFiringsBounded(events: seq<Event>, attempt: AttemptId, policy: nat, startedAt: int, window: int, latest: int)
    requires window > 0 && startedAt <= latest && SeesAll(events, attempt, policy, startedAt, window, latest)
    ensures PeriodicFirings(AfterAll(NO_TABLES, events).firings, attempt, policy) <= (latest - startedAt) / window
  {
    AfterAllKeeps(events, attempt, policy, startedAt, window, latest);
    var firings := AfterAll(NO_TABLES, events).firings;
    assert UniqueKeys(firings);
    FiringsAreBuckets(firings, attempt, policy);
    forall b | b in Buckets(firings, attempt, policy) ensures 1 <= b <= (latest - startedAt) / window {
      var k :| 0 <= k < |firings| && firings[k].attempt == attempt && firings[k].policy == policy && firings[k].key.PeriodicKey?
               && firings[k].key.bucket == b;
      assert BucketAt(firings[k], startedAt, window, latest);
    }
    RangeBound(Buckets(firings, attempt, policy), (latest - startedAt) / window);
  }

  /** A stall policy fires at most once per attempt, and not before the attempt has run for a whole window. */
  lemma StallFiresOnce(events: seq<Event>, attempt: AttemptId, policy: nat, startedAt: int, window: int, latest: int, i: nat, k: nat)
    requires SeesAll(events, attempt, policy, startedAt, window, latest)
    requires var firings := AfterAll(NO_TABLES, events).firings;
             && i < |firings| && firings[i].attempt == attempt && firings[i].policy == policy && firings[i].key.StalledKey?
             && k < |firings| && firings[k].attempt == attempt && firings[k].policy == policy && firings[k].key.StalledKey?
    ensures i == k && latest - startedAt >= window > 0
  {
    AfterAllKeeps(events, attempt, policy, startedAt, window, latest);
    var firings := AfterAll(NO_TABLES, events).firings;
    assert BucketAt(firings[i], startedAt, window, latest);
    assert SameKey(firings[i], firings[k]);
  }

  /******* Exactly what fires *******/

  /** Firing one due adds its key and no other. */
  lemma FireIff(tables: Tables, targets: set<string>, due: Due, other: Due)
    requires Fire(tables, targets, due).Some?
    ensures Fired(Fire(tables, targets, due).value, other) <==> Fired(tables, other) || SameKey(due, other)
  {
    var after := Fire(tables, targets, due).value;
    if Fired(tables, due) {
      var k :| 0 <= k < |tables.firings| && SameKey(tables.firings[k], due);
    } else {
      assert after.firings[|tables.firings|] == due;
      assert forall k :: 0 <= k < |tables.firings| ==> after.firings[k] == tables.firings[k];
    }
  }

  /** Every due up to the q-th has a configured target. */
  predicate Reaches(targets: set<string>, dues: seq<Due>, q: int) {
    forall k :: 0 <= k <= q && k < |dues| ==> dues[k].target in targets
  }

  predicate FiresAt(targets: set<string>, dues: seq<Due>, due: Due, q: int) {
    0 <= q < |dues| && SameKey(dues[q], due) && Reaches(targets, dues, q)
  }

  /**
   What an evaluation fires, completed or not: a key has fired afterwards exactly if it had before, or is due and
   its own target and those of all dues before it are configured.
   */
  lemma {:induction false} FiredIff(tables: Tables, targets: set<string>, dues: seq<Due>, due: Due)
    ensures FireAll(tables, targets, dues).ok <==> Reaches(targets, dues, |dues|)
    ensures Fired(FireAll(tables, targets, dues).tables, due) <==>
            Fired(tables, due) || exists q :: FiresAt(targets, dues, due, q)
  {
    if |dues| > 0 {
      var last := |dues| - 1;
      var init := dues[..last];
      FiredIff(tables, targets, init, due);
      assert forall q :: 0 <= q < last ==> init[q] == dues[q];
      assert forall q :: 0 <= q < last ==> (FiresAt(targets, init, due, q) <==> FiresAt(targets, dues, due, q));
      assert FiresAt(targets, dues, due, last) <==>
             SameKey(dues[last], due) && Reaches(targets, init, |init|) && dues[last].target in targets;
      var before := FireAll(tables, targets, init);
      if before.ok && Fire(before.tables, targets, dues[last]).Some? {
        FireIff(before.tables, targets, dues[last], due);
      }
    }
  }

  /** The finished policy of that number fires. */
  predicate FinishFires(targets: set<string>, attempt: AttemptId, policies: seq<HealthPolicy>, due: Due) {
    && due.attempt == attempt && due.key == FinishedKey && due.policy < |policies|
    && policies[due.policy].kind.KindFinished? && policies[due.policy].target in targets
  }

  lemma {:induction false} FinishedIff(tables: Tables, targets: set<string>, attempt: AttemptId, policies: seq<HealthPolicy>, n: nat, due: Due)
    requires n <= |policies|
    ensures Fired(FireFinished(tables, targets, attempt, policies, n), due) <==>
            Fired(tables, due) || FinishFires(targets, attempt, policies[..n], due)
  {
    if n > 0 {
      FinishedIff(tables, targets, attempt, policies, n - 1, due);
      var before := FireFinished(tables, targets, attempt, policies, n - 1);
      var last := Due(attempt, n - 1, FinishedKey, policies[n - 1].target);
      if policies[n - 1].kind.KindFinished? && Fire(before, targets, last).Some? {
        FireIff(before, targets, last, due);
      }
    }
  }

  /** What the evaluation finds due up to and including a policy of its i-th candidate. */
  function DueUpTo(event: Event, i: nat, policy: nat): seq<Due>
    requires event.Tick? && i < |event.candidates| && policy < |event.candidates[i].policies|
  {
    AllDue(event.candidates[..i], event.readings, event.now) + DueOf(event.candidates[i], event.readings, event.now, policy + 1)
  }

  /** The evaluation lists the attempt i-th, and comes as far as that policy. */
  predicate Examines(event: Event, i: int, attempt: AttemptId, policy: nat) {
    && event.Tick? && 0 <= i < |event.candidates| && event.candidates[i].attempt == attempt
    && policy < |event.candidates[i].policies|
    && forall k :: 0 <= k < |DueUpTo(event, i, policy)| ==> DueUpTo(event, i, policy)[k].target in event.targets
  }

  predicate Finds(event: Event, i: int, due: Due) {
    && Examines(event, i, due.attempt, due.policy)
    && DueKey(event.candidates[i], event.candidates[i].policies[due.policy], event.readings, event.now) == Some(due.key)
  }

  ghost predicate Fires(event: Event, due: Due) {
    match event
    case Tick(_, _, _, _) => exists i :: Finds(event, i, due)
    case End(targets, attempt, policies) => FinishFires(targets, attempt, policies, due)
  }

  lemma DueUpToIsPrefix(event: Event, i: nat, p: nat)
    requires event.Tick? && i < |event.candidates| && p < |event.candidates[i].policies|
    ensures DueUpTo(event, i, p) <= AllDue(event.candidates, event.readings, event.now)
  {
    var c := event.candidates[i];
    DueOfGrows(c, event.readings, event.now, p + 1, |c.policies|);
    assert event.candidates[..i + 1][..i] == event.candidates[..i];
    AllDueGrows(event.candidates, event.readings, event.now, i + 1);
  }

  /** The q-th due of a candidate is that of one of its policies, the last found up to there. */
  lemma {:induction false} DueHasPolicy(c: Candidate, readings: Readings, now: int, n: nat, q: nat) returns (p: nat)
    requires n <= |c.policies| && q < |DueOf(c, readings, now, n)|
    ensures p < n && DueOf(c, readings, now, p + 1) == DueOf(c, readings, now, n)[..q + 1]
    ensures DueKey(c, c.policies[p], readings, now) == Some(DueOf(c, readings, now, n)[q].key)
    ensures DueOf(c, readings, now, n)[q].policy == p && DueOf(c, readings, now, n)[q].attempt == c.attempt
  {
    var before := DueOf(c, readings, now, n - 1);
    if q < |before| {
      p := DueHasPolicy(c, readings, now, n - 1, q);
      assert DueOf(c, readings, now, n)[..q + 1] == before[..q + 1];
    } else {
      p := n - 1;
    }
  }

  lemma {:induction false} DueHasOrigin(event: Event, n: nat, q: nat) returns (i: nat, p: nat)
    requires event.Tick? && n <= |event.candidates| && q < |AllDue(event.candidates[..n], event.readings, event.now)|
    ensures i < n && p < |event.candidates[i].policies|
    ensures var dues := AllDue(event.candidates[..n], event.readings, event.now);
            && DueUpTo(event, i, p) == dues[..q + 1]
            && dues[q].attempt == event.candidates[i].attempt && dues[q].policy == p
            && DueKey(event.candidates[i], event.candidates[i].policies[p], event.readings, event.now) == Some(dues[q].key)
  {
    var readings, now := event.readings, event.now;
    assert event.candidates[..n][..n - 1] == event.candidates[..n - 1];
    var before := AllDue(event.candidates[..n - 1], readings, now);
    var dues := AllDue(event.candidates[..n], readings, now);
    var c := event.candidates[n - 1];
    if q < |before| {
      i, p := DueHasOrigin(event, n - 1, q);
      assert dues[..q + 1] == before[..q + 1];
    } else {
      i := n - 1;
      p := DueHasPolicy(c, readings, now, |c.policies|, q - |before|);
      assert dues == before + DueOf(c, readings, now, |c.policies|);
      assert dues[..q + 1] == before + DueOf(c, readings, now, |c.policies|)[..q - |before| + 1];
    }
  }

  lemma FoundFires(event: Event, i: nat, due: Due)
    requires event.Tick? && Finds(event, i, due)
    ensures exists q :: FiresAt(event.targets, AllDue(event.candidates, event.readings, event.now), due, q)
  {
    var dues := AllDue(event.candidates, event.readings, event.now);
    var upTo := DueUpTo(event, i, due.policy);
    DueUpToIsPrefix(event, i, due.policy);
    var q := |upTo| - 1;
    assert upTo[q] == Due(due.attempt, due.policy, due.key, event.candidates[i].policies[due.policy].target);
    assert forall k :: 0 <= k <= q ==> dues[k] == upTo[k];
    assert FiresAt(event.targets, dues, due, q);
  }

  lemma FiringIsFound(event: Event, q: nat, due: Due)
    requires event.Tick? && FiresAt(event.targets, AllDue(event.candidates, event.readings, event.now), due, q)
    ensures exists i :: Finds(event, i, due)
  {
    var dues := AllDue(event.candidates, event.readings, event.now);
    assert event.candidates[..|event.candidates|] == event.candidates;
    var i, p := DueHasOrigin(event, |event.candidates|, q);
    assert forall k :: 0 <= k <= q ==> dues[..q + 1][k] == dues[k];
    assert Finds(event, i, due);
  }

  lemma AfterIff(tables: Tables, event: Event, due: Due)
    ensures Fired(After(tables, event), due) <==> Fired(tables, due) || Fires(event, due)
  {
    match event
    case Tick(targets, candidates, readings, now) =>
      var dues := AllDue(candidates, readings, now);
      FiredIff(tables, targets, dues, due);
      if q :| FiresAt(targets, dues, due, q) {
        FiringIsFound(event, q, due);
      }
      if i :| Finds(event, i, due) {
        FoundFires(event, i, due);
      }
    case End(targets, attempt, policies) =>
      FinishedIff(tables, targets, attempt, policies, |policies|, due);
      assert policies[..|policies|] == policies;
  }

  /**
   Over every run of evaluations and finished attempts a key has fired exactly if some event fired it: an
   evaluation that listed the attempt, came as far as the policy and found it due under that key, or the finish
   of the attempt while the target was configured.  An evaluation that aborts counts for all it came to.
   */
  lemma {:induction false} FiredExactly(events: seq<Event>, due: Due)
    ensures Fired(AfterAll(NO_TABLES, events), due) <==> exists e :: 0 <= e < |events| && Fires(events[e], due)
  {
    if |events| > 0 {
      var last := |events| - 1;
      FiredExactly(events[..last], due);
      AfterIff(AfterAll(NO_TABLES, events[..last]), events[last], due);
      assert forall e :: 0 <= e < last ==> events[..last][e] == events[e];
    }
  }

  /******* Where firings go *******/

  predicate PolicyTarget(policies: seq<HealthPolicy>, f: Due) {
    f.policy < |policies| && f.target == policies[f.policy].target
  }

  /** The event is about the attempt, and the firing goes to the target of the policy it names. */
  predicate Aims(event: Event, f: Due) {
    match event
    case Tick(_, candidates, _, _) =>
      exists i :: 0 <= i < |candidates| && candidates[i].attempt == f.attempt && PolicyTarget(candidates[i].policies, f)
    case End(_, attempt, policies) => attempt == f.attempt && PolicyTarget(policies, f)
  }

  lemma {:induction false} FiredFromDues(tables: Tables, targets: set<string>, dues: seq<Due>, f: Due)
    ensures f in FireAll(tables, targets, dues).tables.firings ==> f in tables.firings || f in dues
  {
    if |dues| > 0 {
      FiredFromDues(tables, targets, dues[..|dues| - 1], f);
    }
  }

  lemma {:induction false} FinishedFromPolicies(tables: Tables, targets: set<string>, attempt: AttemptId, policies: seq<HealthPolicy>, n: nat, f: Due)
    requires n <= |policies|
    ensures f in FireFinished(tables, targets, attempt, policies, n).firings ==>
              f in tables.firings || (f.attempt == attempt && PolicyTarget(policies, f))
  {
    if n > 0 {
      FinishedFromPolicies(tables, targets, attempt, policies, n - 1, f);
    }
  }

  lemma {:induction false} DueOfPolicies(c: Candidate, readings: Readings, now: int, n: nat, f: Due)
    requires n <= |c.policies| && f in DueOf(c, readings, now, n)
    ensures f.attempt == c.attempt && PolicyTarget(c.policies, f)
  {
    hide DueKey;
    if f in DueOf(c, readings, now, n - 1) {
      DueOfPolicies(c, readings, now, n - 1, f);
    }
  }

  lemma {:induction false} AllDueOfCandidates(candidates: seq<Candidate>, readings: Readings, now: int, f: Due)
    requires f in AllDue(candidates, readings, now)
    ensures exists i :: 0 <= i < |candidates| && candidates[i].attempt == f.attempt && PolicyTarget(candidates[i].policies, f)
  {
    var last := |candidates| - 1;
    if f in AllDue(candidates[..last], readings, now) {
      AllDueOfCandidates(candidates[..last], readings, now, f);
      var i :| 0 <= i < last && candidates[..last][i].attempt == f.attempt && PolicyTarget(candidates[..last][i].policies, f);
      assert candidates[i] == candidates[..last][i];
    } else {
      DueOfPolicies(candidates[last], readings, now, |candidates[last].policies|, f);
    }
  }

  /** Every firing goes to the target of the policy of an attempt that some event was about. */
  lemma {:induction false} FiringsAreAimed(events: seq<Event>, f: Due)
    requires f in AfterAll(NO_TABLES, events).firings
    ensures exists e :: 0 <= e < |events| && Aims(events[e], f)
  {
    var last := |events| - 1;
    var tables := AfterAll(NO_TABLES, events[..last]);
    match events[last] {
      case Tick(targets, candidates, readings, now) =>
        FiredFromDues(tables, targets, AllDue(candidates, readings, now), f);
        if f in AllDue(candidates, readings, now) {
          AllDueOfCandidates(candidates, readings, now, f);
        }
      case End(targets, attempt, policies) =>
        FinishedFromPolicies(tables, targets, attempt, policies, |policies|, f);
    }
    if f in tables.firings {
      FiringsAreAimed(events[..last], f);
      var e :| 0 <= e < last && Aims(events[..last][e], f);
      assert Aims(events[e], f);
    } else {
      assert Aims(events[last], f);
    }
  }

  /** The evaluation comes as far as the policy, which is periodic, in the attempt's b-th interval. */
  predicate InInterval(event: Event, i: int, attempt: AttemptId, policy: nat, b: int) {
    && Examines(event, i, attempt, policy)
    && var c := event.candidates[i];
       && c.policies[policy].kind.KindPeriodic? && c.policies[policy].window > 0
       && (event.now - c.startedAt) / c.policies[policy].window == b >= 1
  }

  ghost predicate EvaluatedIn(event: Event, attempt: AttemptId, policy: nat, b: int) {
    exists i :: InInterval(event, i, attempt, policy, b)
  }

  lemma PeriodicFindsIff(event: Event, i: int, attempt: AttemptId, policy: nat, b: int, target: string)
    ensures Finds(event, i, Due(attempt, policy, PeriodicKey(b), target)) <==> InInterval(event, i, attempt, policy, b)
  {
    hide DueUpTo, Stalled;
  }

  lemma PeriodicFiresBy(event: Event, attempt: AttemptId, policy: nat, b: int, target: string)
    ensures Fires(event, Due(attempt, policy, PeriodicKey(b), target)) <==> EvaluatedIn(event, attempt, policy, b)
  {
    hide Finds, InInterval;
    var due := Due(attempt, policy, PeriodicKey(b), target);
    forall i ensures Finds(event, i, due) <==> InInterval(event, i, attempt, policy, b) {
      PeriodicFindsIff(event, i, attempt, policy, b, target);
    }
    assert event.End? ==> !EvaluatedIn(event, attempt, policy, b) by {
      if event.End? {
        forall i ensures !InInterval(event, i, attempt, policy, b) {
          NothingInEnd(event, i, attempt, policy, b);
        }
      }
    }
  }

  lemma NothingInEnd(event: Event, i: int, attempt: AttemptId, policy: nat, b: int)
    requires event.End?
    ensures !InInterval(event, i, attempt, policy, b)
  {
  }

  /** The interval of number b fires exactly if some evaluation falls into it. */
  lemma PeriodicFiresIff(events: seq<Event>, attempt: AttemptId, policy: nat, b: int, target: string)
    ensures Fired(AfterAll(NO_TABLES, events), Due(attempt, policy, PeriodicKey(b), target)) <==>
            exists e :: 0 <= e < |events| && EvaluatedIn(events[e], attempt, policy, b)
  {
    hide AfterAll, Fires, EvaluatedIn, Fired;
    var due := Due(attempt, policy, PeriodicKey(b), target);
    FiredExactly(events, due);
    forall e | 0 <= e < |events| ensures Fires(events[e], due) <==> EvaluatedIn(events[e], attempt, policy, b) {
      PeriodicFiresBy(events[e], attempt, policy, b, target);
    }
  }

  const SECOND := 1_000_000_000
  const CHECK_IN := HealthPolicy(KindPeriodic, "", ModeMax, 10 * SECOND, 0.0, "hook")
  const CHECKED := Candidate(0, 0, [CHECK_IN])

  lemma OneCheckIn(readings: Readings, now: int)
    ensures AllDue([CHECKED], readings, now) ==
            if now / (10 * SECOND) < 1 then [] else [Due(0, 0, PeriodicKey(now / (10 * SECOND)), "hook")]
  {
    var bucket := now / (10 * SECOND);
    var key := DueKey(CHECKED, CHECK_IN, readings, now);
    assert key == if bucket < 1 then None else Some(PeriodicKey(bucket));
    assert DueOf(CHECKED, readings, now, 0) == [];
    assert DueOf(CHECKED, readings, now, 1) == if key.Some? then [Due(0, 0, key.value, "hook")] else [];
    assert [CHECKED][..0] == [];
  }

  /**
   The documentation promises a notification after every completed interval; the code fires the interval an
   evaluation falls into and never an earlier one.  An attempt that runs throughout, evaluated 5 and 25 seconds
   after its start, has completed the first interval of 10 seconds and is never reported for it.
   */
  lemma IntervalIsSkipped(readings: Readings)
    ensures var tables := AfterAll(NO_TABLES, [Tick({"hook"}, [CHECKED], readings, 5 * SECOND), Tick({"hook"}, [CHECKED], readings, 25 * SECOND)]);
            && tables.firings == [Due(0, 0, PeriodicKey(2), "hook")]
            && !Fired(tables, Due(0, 0, PeriodicKey(1), "hook"))
  {
    var early, late := Tick({"hook"}, [CHECKED], readings, 5 * SECOND), Tick({"hook"}, [CHECKED], readings, 25 * SECOND);
    assert [early, late][..1] == [early] && [early][..0] == [];
    OneCheckIn(readings, 5 * SECOND);
    OneCheckIn(readings, 25 * SECOND);
    var due := Due(0, 0, PeriodicKey(2), "hook");
    assert [due][..0] == [];
    assert AfterAll(NO_TABLES, [early]) == NO_TABLES;
  }
}
