/**
 What every transaction keeps, whatever workers report: the relation between a job's row and its
 attempts, attempt numbering, retry accounting, and how rows may evolve.
 */
module Lifecycle {
  import opened Wrappers
  import opened Domain
  import opened JobSpecs
  import opened Scheduler
  import opened ControlPlane

  /******* A job's attempts *******/

  function Count(attempts: seq<Attempt>, job: JobId): nat {
    if |attempts| == 0 then 0
    else Count(attempts[..|attempts| - 1], job) + if attempts[|attempts| - 1].job == job then 1 else 0
  }

  /** The state of the attempt offered last. */
  function LastState(attempts: seq<Attempt>, job: JobId): Option<AttemptState> {
    if |attempts| == 0 then None
    else if attempts[|attempts| - 1].job == job then Some(attempts[|attempts| - 1].state)
    else LastState(attempts[..|attempts| - 1], job)
  }

  predicate IsLast(attempts: seq<Attempt>, a: AttemptId)
    requires a < |attempts|
  {
    forall b :: a < b < |attempts| ==> attempts[b].job != attempts[a].job
  }

  lemma {:induction false} LastStateAt(attempts: seq<Attempt>, a: AttemptId)
    requires a < |attempts| && IsLast(attempts, a)
    ensures LastState(attempts, attempts[a].job) == Some(attempts[a].state)
  {
    if a < |attempts| - 1 {
      var init := attempts[..|attempts| - 1];
      assert forall b :: a < b < |init| ==> init[b] == attempts[b];
      LastStateAt(init, a);
    }
  }

  /** Where the last state comes from. */
  lemma {:induction false} LastStateWitness(attempts: seq<Attempt>, job: JobId) returns (a: AttemptId)
    ensures LastState(attempts, job).None? ==> forall b :: 0 <= b < |attempts| ==> attempts[b].job != job
    ensures LastState(attempts, job).Some? ==>
              && a < |attempts| && attempts[a].job == job && IsLast(attempts, a)
              && LastState(attempts, job) == Some(attempts[a].state)
  {
    if |attempts| == 0 {
      a := 0;
    } else if attempts[|attempts| - 1].job == job {
      a := |attempts| - 1;
    } else {
      var init := attempts[..|attempts| - 1];
      a := LastStateWitness(init, job);
      assert forall b :: 0 <= b < |init| ==> init[b] == attempts[b];
    }
  }

  lemma {:induction false} CountIgnoresState(attempts: seq<Attempt>, id: AttemptId, row: Attempt, job: JobId)
    requires id < |attempts| && row.job == attempts[id].job
    ensures Count(attempts[id := row], job) == Count(attempts, job)
    ensures job != row.job ==> LastState(attempts[id := row], job) == LastState(attempts, job)
  {
    var n := |attempts| - 1;
    if id < n {
      assert attempts[id := row][..n] == attempts[..n][id := row];
      CountIgnoresState(attempts[..n], id, row, job);
    } else {
      assert attempts[id := row][..n] == attempts[..n];
    }
  }

  lemma {:induction false} CountPositive(attempts: seq<Attempt>, a: AttemptId)
    requires a < |attempts|
    ensures 1 <= Count(attempts[..a + 1], attempts[a].job) <= Count(attempts, attempts[a].job)
    decreases |attempts|
  {
    assert attempts[..a + 1][..a] == attempts[..a];
    if a + 1 == |attempts| {
      assert attempts[..a + 1] == attempts;
    } else {
      var n := |attempts| - 1;
      assert attempts[..n][..a + 1] == attempts[..a + 1];
      CountPositive(attempts[..n], a);
    }
  }

  /******* The invariant *******/

  /** Attempts of a job are numbered 1, 2, 3, ... in the order they were offered. */
  predicate Numbered(s: Server) {
    && (forall a :: 0 <= a < |s.attempts| ==> s.attempts[a].job < |s.jobs|)
    && (forall a :: 0 <= a < |s.attempts| ==> NumberedAt(s, a))
  }

  predicate NumberedAt(s: Server, a: int)
    requires 0 <= a < |s.attempts|
  {
    s.attempts[a].number == Count(s.attempts[..a + 1], s.attempts[a].job)
  }

  /** A job gets another attempt only after the previous one failed. */
  predicate EarlierFailed(s: Server) {
    forall a, b :: 0 <= a < b < |s.attempts| ==> EarlierFailedAt(s, a, b)
  }

  predicate EarlierFailedAt(s: Server, a: int, b: int)
    requires 0 <= a < b < |s.attempts|
  {
    s.attempts[a].job == s.attempts[b].job ==> s.attempts[a].state.AttemptFailed?
  }

  /** The job row against the number of its attempts and the state of the last one. */
  predicate JobView(job: Job, n: nat, last: Option<AttemptState>) {
    && 0 < job.spec.maxAttempts
    && n <= job.spec.maxAttempts
    && (n == 0 <==> last.None?)
    && var finished := if last.Some? && Live(last.value) then n - 1 else n;
    match job.state
    case JobQueued =>
      && (last.None? || (last.value.AttemptFailed? && n < job.spec.maxAttempts) ||
          last.value.AttemptOffered? || last.value.AttemptAccepted?)
      && job.revision <= 1 + 2 * finished
    case JobRunning =>
      last == Some(AttemptRunning) && job.revision <= 2 + 2 * finished
    case JobCanceling =>
      last.Some? && Live(last.value) && job.revision <= 3 + 2 * finished
    case JobSucceeded =>
      last == Some(AttemptSucceeded) && job.revision <= 1 + 2 * n
    case JobFailed =>
      last == Some(AttemptFailed) && n == job.spec.maxAttempts && job.revision <= 1 + 2 * n
    case JobCanceled =>
      && (last.None? || last.value.AttemptCanceled? || (last.value.AttemptFailed? && n < job.spec.maxAttempts))
      && job.revision <= 2 + 2 * n
  }

  /** How often an attempt row can have been written in each state. */
  predicate AttemptView(attempt: Attempt) {
    match attempt.state
    case AttemptOffered => attempt.revision == 1 && attempt.startedAt.None?
    case AttemptAccepted => attempt.revision == 2 && attempt.startedAt.None?
    case AttemptRunning => 2 <= attempt.revision <= 3 && attempt.startedAt.Some?
    case _ => 3 <= attempt.revision <= 4
  }

  predicate Views(s: Server) {
    && (forall j :: 0 <= j < |s.jobs| ==> JobViewAt(s, j))
    && (forall a :: 0 <= a < |s.attempts| ==> AttemptView(s.attempts[a]))
  }

  predicate JobViewAt(s: Server, j: int)
    requires 0 <= j < |s.jobs|
  {
    JobView(s.jobs[j], Count(s.attempts, j), LastState(s.attempts, j))
  }

  predicate Inv(s: Server) {
    Numbered(s) && EarlierFailed(s) && Views(s)
  }

  /******* How rows may evolve *******/

  /** Progress of an attempt's state: it never goes back. */
  function Stage(state: AttemptState): nat {
    match state
    case AttemptOffered => 0
    case AttemptAccepted => 1
    case AttemptRunning => 2
    case _ => 3
  }

  predicate JobEvolves(before: Job, after: Job) {
    && after.spec == before.spec && after.createdAt == before.createdAt
    && before.revision <= after.revision
    && (before.revision == after.revision ==> after == before)
    && (TerminalJob(before.state) ==> after == before)
    && (before.state.JobCanceling? ==> after == before || after.state.JobCanceled?)
  }

  predicate AttemptEvolves(before: Attempt, after: Attempt) {
    && after.job == before.job && after.number == before.number && after.worker == before.worker
    && (before.startedAt.Some? ==> after.startedAt == before.startedAt)
    && Stage(before.state) <= Stage(after.state)
    && (Stage(before.state) == Stage(after.state) ==> after == before)
  }

  /** No attempt was added to the job between the two states. */
  predicate NoNewAttempt(before: Server, after: Server, job: JobId) {
    forall a :: |before.attempts| <= a < |after.attempts| ==> after.attempts[a].job != job
  }

  predicate Evolves(before: Server, after: Server) {
    && |before.jobs| <= |after.jobs|
    && |before.attempts| <= |after.attempts|
    && (forall j :: 0 <= j < |before.jobs| ==> JobEvolvesAt(before, after, j))
    && (forall a :: 0 <= a < |before.attempts| ==> AttemptEvolvesAt(before, after, a))
  }

  predicate JobEvolvesAt(before: Server, after: Server, j: int)
    requires 0 <= j < |before.jobs| <= |after.jobs|
  {
    && JobEvolves(before.jobs[j], after.jobs[j])
    && (TerminalJob(before.jobs[j].state) || before.jobs[j].state.JobCanceling? ==> NoNewAttempt(before, after, j))
  }

  predicate AttemptEvolvesAt(before: Server, after: Server, a: int)
    requires 0 <= a < |before.attempts| <= |after.attempts|
  {
    AttemptEvolves(before.attempts[a], after.attempts[a])
  }

  lemma EvolvesTransitive(a: Server, b: Server, c: Server)
    requires Evolves(a, b) && Evolves(b, c)
    ensures Evolves(a, c)
  {
    forall j | 0 <= j < |a.jobs| ensures JobEvolvesAt(a, c, j) {
      assert JobEvolvesAt(a, b, j) && JobEvolvesAt(b, c, j);
      if TerminalJob(a.jobs[j].state) || a.jobs[j].state.JobCanceling? {
        forall i | |a.attempts| <= i < |c.attempts| ensures c.attempts[i].job != j {
          if i < |b.attempts| {
            assert AttemptEvolvesAt(b, c, i);
          }
        }
      }
    }
    forall i | 0 <= i < |a.attempts| ensures AttemptEvolvesAt(a, c, i) {
      assert AttemptEvolvesAt(a, b, i) && AttemptEvolvesAt(b, c, i);
    }
  }

  /******* Single transitions *******/

  /** A live attempt is the last one of its job. */
  lemma LiveIsLast(s: Server, a: AttemptId)
    requires EarlierFailed(s) && a < |s.attempts| && Live(s.attempts[a].state)
    ensures IsLast(s.attempts, a)
    ensures LastState(s.attempts, s.attempts[a].job) == Some(s.attempts[a].state)
  {
    forall b | a < b < |s.attempts| ensures s.attempts[b].job != s.attempts[a].job {
      assert EarlierFailedAt(s, a, b);
    }
    LastStateAt(s.attempts, a);
  }

  lemma MoveNumbered(s: Server, id: AttemptId, attempt: Attempt, after: Server)
    requires Numbered(s) && id < |s.attempts| && |after.jobs| == |s.jobs|
    requires attempt.job == s.attempts[id].job && attempt.number == s.attempts[id].number
    requires after.attempts == s.attempts[id := attempt]
    ensures Numbered(after)
  {
    forall a | 0 <= a < |after.attempts|
      ensures NumberedAt(after, a)
    {
      assert NumberedAt(s, a);
      if id <= a {
        assert after.attempts[..a + 1] == s.attempts[..a + 1][id := attempt];
        CountIgnoresState(s.attempts[..a + 1], id, attempt, after.attempts[a].job);
      } else {
        assert after.attempts[..a + 1] == s.attempts[..a + 1];
      }
    }
  }

  /** The move a transaction makes: one live attempt row and its job row. */
  ghost predicate Move(s: Server, id: AttemptId, attempt: Attempt, job: Job, after: Server) {
    && id < |s.attempts| && Live(s.attempts[id].state) && s.attempts[id].job < |s.jobs|
    && AttemptEvolves(s.attempts[id], attempt) && AttemptView(attempt)
    && JobEvolves(s.jobs[s.attempts[id].job], job)
    && after.attempts == s.attempts[id := attempt] && after.jobs == s.jobs[attempt.job := job]
  }

  lemma MoveViews(s: Server, id: AttemptId, attempt: Attempt, job: Job, after: Server)
    requires EarlierFailed(s) && Views(s) && Move(s, id, attempt, job, after)
    requires JobView(job, Count(s.attempts, attempt.job), Some(attempt.state))
    ensures EarlierFailed(after) && Views(after)
  {
    LiveIsLast(s, id);
    forall a, b | 0 <= a < b < |after.attempts| ensures EarlierFailedAt(after, a, b) {
      assert EarlierFailedAt(s, a, b);
    }
    assert IsLast(after.attempts, id);
    LastStateAt(after.attempts, id);
    forall j | 0 <= j < |after.jobs|
      ensures JobViewAt(after, j)
    {
      assert JobViewAt(s, j);
      CountIgnoresState(s.attempts, id, attempt, j);
    }
  }

  lemma MoveEvolves(s: Server, id: AttemptId, attempt: Attempt, job: Job, after: Server)
    requires Move(s, id, attempt, job, after)
    ensures Evolves(s, after)
  {
    forall j | 0 <= j < |s.jobs| ensures JobEvolvesAt(s, after, j) {
    }
    forall a | 0 <= a < |s.attempts| ensures AttemptEvolvesAt(s, after, a) {
    }
  }

  /** Moving a live attempt on, together with its job row. */
  lemma MovePreserves(s: Server, id: AttemptId, attempt: Attempt, job: Job, after: Server)
    requires Inv(s) && Move(s, id, attempt, job, after)
    requires JobView(job, Count(s.attempts, attempt.job), Some(attempt.state))
    ensures Inv(after) && Evolves(s, after)
  {
    MoveNumbered(s, id, attempt, after);
    MoveViews(s, id, attempt, job, after);
    MoveEvolves(s, id, attempt, job, after);
  }

  /** Accept, start and finish are moves whose new job row fits its attempts. */
  lemma ApplyIsMove(s: Server, worker: WorkerId, event: WorkerEvent)
    requires Inv(s) && ApplyWorkerEvent(s, worker, event).Ok?
    requires event.body.EventAccepted? || event.body.EventStarted? || event.body.EventFinished?
    ensures var after := ApplyWorkerEvent(s, worker, event).value;
            var id := event.attemptId;
            && id < |s.attempts| && s.attempts[id].job < |s.jobs|
            && id < |after.attempts| && s.attempts[id].job < |after.jobs|
            && Move(s, id, after.attempts[id], after.jobs[s.attempts[id].job], after)
            && JobView(after.jobs[s.attempts[id].job], Count(s.attempts, s.attempts[id].job), Some(after.attempts[id].state))
  {
    var id := event.attemptId;
    var attempt := s.attempts[id];
    assert AttemptView(attempt);
    LiveIsLast(s, id);
    LastNumber(s, id);
    assert JobViewAt(s, attempt.job);
  }

  /** A transaction that leaves the attempts alone has only its job rows to answer for. */
  lemma SameAttempts(s: Server, t: Server)
    requires Inv(s) && t.attempts == s.attempts && |s.jobs| <= |t.jobs|
    requires forall j :: 0 <= j < |t.jobs| ==> JobViewAt(t, j)
    requires forall j :: 0 <= j < |s.jobs| ==> JobEvolves(s.jobs[j], t.jobs[j])
    ensures Inv(t) && Evolves(s, t)
  {
    forall a | 0 <= a < |t.attempts| ensures NumberedAt(t, a) && AttemptEvolvesAt(s, t, a) {
      assert NumberedAt(s, a);
    }
    forall a, b | 0 <= a < b < |t.attempts| ensures EarlierFailedAt(t, a, b) {
      assert EarlierFailedAt(s, a, b);
    }
    forall j | 0 <= j < |s.jobs| ensures JobEvolvesAt(s, t, j) {
    }
  }

  lemma SameTables(s: Server, t: Server)
    requires Inv(s) && t.jobs == s.jobs && t.attempts == s.attempts
    ensures Inv(t) && Evolves(s, t)
  {
    forall j | 0 <= j < |t.jobs| ensures JobViewAt(t, j) {
      assert JobViewAt(s, j);
    }
    SameAttempts(s, t);
  }

  lemma ApplyPreserves(s: Server, worker: WorkerId, event: WorkerEvent)
    requires Inv(s)
    ensures var r := ApplyWorkerEvent(s, worker, event); r.Ok? ==> Inv(r.value) && Evolves(s, r.value)
  {
    var r := ApplyWorkerEvent(s, worker, event);
    if r.Ok? {
      var id := event.attemptId;
      match event.body
      case EventArtifacts(_) => SameTables(s, r.value);
      case EventMetric(_) => SameTables(s, r.value);
      case EventUnknown =>
      case _ =>
        ApplyIsMove(s, worker, event);
        MovePreserves(s, id, r.value.attempts[id], r.value.jobs[s.attempts[id].job], r.value);
    }
  }

  /** The last attempt's number is how many attempts the job has had. */
  lemma LastNumber(s: Server, a: AttemptId)
    requires Numbered(s) && a < |s.attempts| && IsLast(s.attempts, a)
    ensures s.attempts[a].number == Count(s.attempts, s.attempts[a].job)
  {
    assert NumberedAt(s, a);
    CountStopsAtLast(s.attempts, a, |s.attempts|);
    assert s.attempts[..|s.attempts|] == s.attempts;
  }

  lemma {:induction false} CountStopsAtLast(attempts: seq<Attempt>, a: AttemptId, n: nat)
    requires a < n <= |attempts| && IsLast(attempts, a)
    ensures Count(attempts[..n], attempts[a].job) == Count(attempts[..a + 1], attempts[a].job)
  {
    if a + 1 < n {
      assert attempts[..n][..n - 1] == attempts[..n - 1];
      CountStopsAtLast(attempts, a, n - 1);
    }
  }

  lemma RecordPreserves(s: Server, worker: WorkerId, session: SessionId, event: WorkerEvent)
    requires Inv(s)
    ensures var r := RecordWorkerEvent(s, worker, session, event); r.Ok? ==> Inv(r.value) && Evolves(s, r.value)
  {
    SameTables(s, s);
    var logged := s.(log := s.log + [LogEntry(worker, session, event)]);
    SameTables(s, logged);
    ApplyPreserves(logged, worker, event);
    var applied := ApplyWorkerEvent(logged, worker, event);
    if applied.Ok? {
      EvolvesTransitive(s, logged, applied.value);
    }
  }

  lemma {:induction false} RecordAllPreserves(s: Server, worker: WorkerId, session: SessionId, events: seq<WorkerEvent>)
    requires Inv(s)
    ensures var r := RecordAll(s, worker, session, events); r.Ok? ==> Inv(r.value) && Evolves(s, r.value)
    decreases |events|
  {
    if |events| == 0 {
      SameTables(s, s);
    } else {
      RecordPreserves(s, worker, session, events[0]);
      var first := RecordWorkerEvent(s, worker, session, events[0]);
      if first.Ok? {
        RecordAllPreserves(first.value, worker, session, events[1..]);
        var rest := RecordAll(first.value, worker, session, events[1..]);
        if rest.Ok? {
          EvolvesTransitive(s, first.value, rest.value);
        }
      }
    }
  }

  /******* Offering *******/

  /** The number the source reads back with MAX is the number of attempts so far. */
  lemma {:induction false} MaxNumberIsCount(s: Server, job: JobId, n: nat)
    requires Numbered(s) && n <= |s.attempts|
    ensures MaxNumber(s.attempts[..n], job) == Count(s.attempts[..n], job)
  {
    if n > 0 {
      MaxNumberIsCount(s, job, n - 1);
      assert s.attempts[..n][..n - 1] == s.attempts[..n - 1];
      assert NumberedAt(s, n - 1);
    }
  }

  lemma OfferNumbered(s: Server, worker: WorkerId, job: JobId)
    requires Numbered(s) && job < |s.jobs|
    ensures Numbered(Offer(s, worker, job))
  {
    var after := Offer(s, worker, job);
    var n := |s.attempts|;
    MaxNumberIsCount(s, job, n);
    assert s.attempts[..n] == s.attempts == after.attempts[..n];
    assert after.attempts[..n + 1] == after.attempts;
    forall a | 0 <= a < |after.attempts|
      ensures NumberedAt(after, a)
    {
      if a < n {
        assert NumberedAt(s, a);
        assert after.attempts[..a + 1] == s.attempts[..a + 1];
      }
    }
  }

  /** A schedulable job has no attempt yet, or a last one that failed with budget left. */
  lemma SchedulableHasBudget(s: Server, job: JobId)
    requires Views(s) && job < |s.jobs| && Schedulable(s, job)
    ensures var last := LastState(s.attempts, job);
            && (last.None? || last.value.AttemptFailed?)
            && Count(s.attempts, job) < s.jobs[job].spec.maxAttempts
  {
    assert JobViewAt(s, job);
    var a := LastStateWitness(s.attempts, job);
  }

  lemma OfferViews(s: Server, worker: WorkerId, job: JobId)
    requires Views(s) && job < |s.jobs| && Schedulable(s, job)
    ensures Views(Offer(s, worker, job))
  {
    var after := Offer(s, worker, job);
    SchedulableHasBudget(s, job);
    assert after.attempts[..|s.attempts|] == s.attempts;
    forall j | 0 <= j < |s.jobs|
      ensures JobViewAt(after, j)
    {
      assert JobViewAt(s, j);
    }
  }

  lemma OfferEarlierFailed(s: Server, worker: WorkerId, job: JobId)
    requires EarlierFailed(s) && Views(s) && job < |s.jobs| && Schedulable(s, job)
    ensures EarlierFailed(Offer(s, worker, job))
  {
    var after := Offer(s, worker, job);
    SchedulableHasBudget(s, job);
    var last := LastStateWitness(s.attempts, job);
    forall a, b | 0 <= a < b < |after.attempts| ensures EarlierFailedAt(after, a, b) {
      assert after.attempts[a] == s.attempts[a];
      if b < |s.attempts| {
        assert EarlierFailedAt(s, a, b);
      } else if s.attempts[a].job == job && last != a {
        assert IsLast(s.attempts, last);
        assert EarlierFailedAt(s, a, last);
      }
    }
  }

  lemma OfferPreserves(s: Server, worker: WorkerId, job: JobId)
    requires Inv(s) && job < |s.jobs| && Schedulable(s, job)
    ensures Inv(Offer(s, worker, job)) && Evolves(s, Offer(s, worker, job))
  {
    OfferNumbered(s, worker, job);
    OfferViews(s, worker, job);
    OfferEarlierFailed(s, worker, job);
    var after := Offer(s, worker, job);
    forall j | 0 <= j < |s.jobs| ensures JobEvolvesAt(s, after, j) {
    }
    forall a | 0 <= a < |s.attempts| ensures AttemptEvolvesAt(s, after, a) {
    }
  }

  lemma OfferLeavesOthersSchedulable(s: Server, worker: WorkerId, job: JobId)
    requires job < |s.jobs|
    ensures forall j :: 0 <= j < |s.jobs| && j != job && Schedulable(s, j) ==> Schedulable(Offer(s, worker, job), j)
  {
  }

  predicate Distinct(ids: seq<JobId>) {
    forall i, k :: 0 <= i < k < |ids| ==> ids[i] != ids[k]
  }

  predicate AllSchedulable(s: Server, ids: seq<JobId>) {
    forall k :: 0 <= k < |ids| ==> ids[k] < |s.jobs| && Schedulable(s, ids[k])
  }

  lemma OfferFirst(s: Server, worker: WorkerId, ids: seq<JobId>)
    requires Inv(s) && AllSchedulable(s, ids) && Distinct(ids) && |ids| > 0
    ensures var next := Offer(s, worker, ids[0]);
            Inv(next) && Evolves(s, next) && AllSchedulable(next, ids[1..])
  {
    OfferPreserves(s, worker, ids[0]);
    OfferLeavesOthersSchedulable(s, worker, ids[0]);
  }

  lemma {:induction false} OfferFromPreserves(s: Server, worker: WorkerId, capacity: Capacity, allocation: Allocation, ids: seq<JobId>)
    requires Inv(s) && AllSchedulable(s, ids) && Distinct(ids)
    ensures Inv(OfferFrom(s, worker, capacity, allocation, ids))
    ensures Evolves(s, OfferFrom(s, worker, capacity, allocation, ids))
    decreases |ids|
  {
    if |ids| == 0 || allocation.active >= capacity.maxParallel {
      SameTables(s, s);
    } else {
      var spec := s.jobs[ids[0]].spec;
      var next := Offer(s, worker, ids[0]);
      if JobFits(spec, capacity, allocation) {
        OfferFirst(s, worker, ids);
        OfferFromPreserves(next, worker, capacity, Occupy(allocation, spec.resources), ids[1..]);
        EvolvesTransitive(s, next, OfferFrom(next, worker, capacity, Occupy(allocation, spec.resources), ids[1..]));
      } else {
        OfferFromPreserves(s, worker, capacity, allocation, ids[1..]);
      }
    }
  }

  /******* The queue *******/

  predicate InOrder(jobs: seq<Job>, ids: seq<JobId>)
    requires forall k :: 0 <= k < |ids| ==> ids[k] < |jobs|
  {
    forall i, k :: 0 <= i < k < |ids| ==> Before(jobs, ids[i], ids[k])
  }

  lemma {:induction false} InsertRankedIsSorted(jobs: seq<Job>, id: JobId, ranked: seq<JobId>)
    requires id < |jobs| && id !in ranked && forall k :: 0 <= k < |ranked| ==> ranked[k] < |jobs|
    requires InOrder(jobs, ranked)
    ensures var r := InsertRanked(jobs, id, ranked);
            && (forall k :: 0 <= k < |r| ==> r[k] < |jobs|)
            && InOrder(jobs, r)
            && (forall x :: x in r <==> x == id || x in ranked)
  {
    InsertRankedInRange(jobs, id, ranked);
    var r := InsertRanked(jobs, id, ranked);
    if |ranked| > 0 {
      if Before(jobs, id, ranked[0]) {
        assert forall x :: x in r <==> x == id || x in ranked;
      } else {
        assert forall k :: 0 <= k < |ranked[1..]| ==> ranked[1..][k] == ranked[k + 1];
        InsertRankedIsSorted(jobs, id, ranked[1..]);
        var tail := InsertRanked(jobs, id, ranked[1..]);
        assert forall x :: x in ranked <==> x == ranked[0] || x in ranked[1..];
        forall k | 0 <= k < |tail| ensures Before(jobs, ranked[0], tail[k]) {
          assert tail[k] in tail;
          if tail[k] != id {
            var m :| 0 <= m < |ranked[1..]| && ranked[1..][m] == tail[k];
            assert ranked[m + 1] == tail[k];
          } else {
            assert ranked[0] in ranked && ranked[0] != id;
          }
        }
        forall i, k | 0 <= i < k < |r| ensures Before(jobs, r[i], r[k]) {
          if i > 0 {
            assert r[i] == tail[i - 1] && r[k] == tail[k - 1];
          }
        }
      }
    }
  }

  /** The list is the queue over the first n jobs. */
  ghost predicate IsQueue(s: Server, n: nat, ids: seq<JobId>)
    requires n <= |s.jobs| && forall k :: 0 <= k < |ids| ==> ids[k] < |s.jobs|
  {
    InOrder(s.jobs, ids) && forall j :: j in ids <==> 0 <= j < n && Schedulable(s, j)
  }

  /** One more schedulable job. */
  lemma QueueGrows(s: Server, n: nat, ids: seq<JobId>)
    requires n < |s.jobs| && Schedulable(s, n)
    requires forall k :: 0 <= k < |ids| ==> ids[k] < |s.jobs|
    requires IsQueue(s, n, ids)
    ensures forall k :: 0 <= k < |InsertRanked(s.jobs, n, ids)| ==> InsertRanked(s.jobs, n, ids)[k] < |s.jobs|
    ensures IsQueue(s, n + 1, InsertRanked(s.jobs, n, ids))
  {
    assert n !in ids;
    InsertRankedIsSorted(s.jobs, n, ids);
    var more := InsertRanked(s.jobs, n, ids);
    forall j ensures j in more <==> 0 <= j < n + 1 && Schedulable(s, j) {
      assert j in more <==> j == n || j in ids;
    }
  }

  /** A job that is not schedulable. */
  lemma QueueStays(s: Server, n: nat, ids: seq<JobId>)
    requires n < |s.jobs| && !Schedulable(s, n)
    requires forall k :: 0 <= k < |ids| ==> ids[k] < |s.jobs|
    requires IsQueue(s, n, ids)
    ensures IsQueue(s, n + 1, ids)
  {
  }

  /** The queue holds exactly the schedulable jobs, in strict queue order, hence each once. */
  lemma {:induction false} RankedIsTheQueue(s: Server, n: nat)
    requires n <= |s.jobs|
    ensures IsQueue(s, n, Ranked(s, n))
  {
    if n > 0 {
      RankedIsTheQueue(s, n - 1);
      if Schedulable(s, n - 1) {
        QueueGrows(s, n - 1, Ranked(s, n - 1));
      } else {
        QueueStays(s, n - 1, Ranked(s, n - 1));
      }
    }
  }

  lemma CandidatesAreSchedulable(s: Server)
    ensures AllSchedulable(s, Candidates(s)) && Distinct(Candidates(s)) && InOrder(s.jobs, Candidates(s))
  {
    RankedIsTheQueue(s, |s.jobs|);
    var ranked := Ranked(s, |s.jobs|);
    forall k | 0 <= k < |Candidates(s)| ensures Schedulable(s, Candidates(s)[k]) {
      assert Candidates(s)[k] == ranked[k] && ranked[k] in ranked;
    }
  }

  lemma OfferJobsPreserves(s: Server, worker: WorkerId, capacity: Capacity)
    requires Inv(s)
    ensures Inv(OfferJobs(s, worker, capacity)) && Evolves(s, OfferJobs(s, worker, capacity))
  {
    CandidatesAreSchedulable(s);
    OfferFromPreserves(s, worker, Normalize(capacity), CurrentAllocation(s, worker), Candidates(s));
  }
}
