/**
 The control plane over whole runs: any sequence of submissions, cancellations and syncs, where the
 syncs carry arbitrary events from arbitrary workers.  A transaction that fails leaves the state alone.
 */
module Runs {
  import opened Wrappers
  import opened Domain
  import opened JobSpecs
  import opened Scheduler
  import opened ControlPlane
  import opened Lifecycle

  datatype Op =
    | AddWorker(worker: WorkerId)
    | AddTarget(target: string)
    | RevokeTarget(target: string)
    | Submit(key: string, spec: JobSpec, now: int)
    | Cancel(job: JobId)
    | Sync(request: SyncRequest)

  function Do(s: Server, op: Op): Server {
    match op
    case AddWorker(worker) => s.(workers := s.workers + {worker})
    case AddTarget(target) => s.(targets := s.targets + {target})
    case RevokeTarget(target) => s.(targets := s.targets - {target})
    case Submit(key, spec, now) =>
      var r := CreateJob(s, key, spec, now);
      if r.Ok? then r.value.0 else s
    case Cancel(job) =>
      var r := CancelJob(s, job);
      if r.Ok? then r.value else s
    case Sync(request) =>
      var r := SyncWorker(s, request);
      if r.Ok? then r.value.0 else s
  }

  function Run(s: Server, ops: seq<Op>): Server
    decreases |ops|
  {
    if |ops| == 0 then s else Run(Do(s, ops[0]), ops[1..])
  }

  lemma {:induction false} RunSplit(s: Server, first: seq<Op>, rest: seq<Op>)
    ensures Run(s, first + rest) == Run(Run(s, first), rest)
    decreases |first|
  {
    if |first| == 0 {
      assert first + rest == rest;
    } else {
      assert (first + rest)[1..] == first[1..] + rest;
      RunSplit(Do(s, first[0]), first[1..], rest);
    }
  }

  /******* Every operation keeps the invariant *******/

  lemma CreatePreserves(s: Server, key: string, spec: JobSpec, now: int)
    requires Inv(s)
    ensures Inv(Do(s, Submit(key, spec, now))) && Evolves(s, Do(s, Submit(key, spec, now)))
  {
    var after := Do(s, Submit(key, spec, now));
    if after == s {
      SameTables(s, s);
    } else {
      NoAttemptsOfNewJob(s.attempts, |s.jobs|);
      forall j | 0 <= j < |after.jobs| ensures JobViewAt(after, j) {
        if j < |s.jobs| {
          assert JobViewAt(s, j);
        }
      }
      SameAttempts(s, after);
    }
  }

  lemma {:induction false} NoAttemptsOfNewJob(attempts: seq<Attempt>, job: JobId)
    requires forall a :: 0 <= a < |attempts| ==> attempts[a].job < job
    ensures Count(attempts, job) == 0 && LastState(attempts, job) == None
  {
    if |attempts| > 0 {
      NoAttemptsOfNewJob(attempts[..|attempts| - 1], job);
    }
  }

  lemma CancelPreserves(s: Server, job: JobId)
    requires Inv(s)
    ensures Inv(Do(s, Cancel(job))) && Evolves(s, Do(s, Cancel(job)))
  {
    var after := Do(s, Cancel(job));
    if after == s {
      SameTables(s, s);
    } else {
      CanceledView(s, job);
      forall j | 0 <= j < |after.jobs| ensures JobViewAt(after, j) {
        assert JobViewAt(s, j);
      }
      SameAttempts(s, after);
    }
  }

  /** Whether a job has a live attempt is whether its last attempt is live. */
  lemma CanceledView(s: Server, job: JobId)
    requires Inv(s)
    ensures HasLiveAttempt(s.attempts, job) <==>
            LastState(s.attempts, job).Some? && Live(LastState(s.attempts, job).value)
  {
    var last := LastStateWitness(s.attempts, job);
    if HasLiveAttempt(s.attempts, job) {
      var a :| 0 <= a < |s.attempts| && s.attempts[a].job == job && Live(s.attempts[a].state);
      LiveIsLast(s, a);
    }
  }

  lemma SyncPreserves(s: Server, request: SyncRequest)
    requires Inv(s)
    ensures Inv(Do(s, Sync(request))) && Evolves(s, Do(s, Sync(request)))
  {
    SameTables(s, s);
    RecordAllPreserves(s, request.worker, request.session, request.events);
    var recorded := RecordAll(s, request.worker, request.session, request.events);
    if recorded.Ok? {
      OfferJobsPreserves(recorded.value, request.worker, request.capacity);
      EvolvesTransitive(s, recorded.value, OfferJobs(recorded.value, request.worker, request.capacity));
    }
  }

  lemma DoPreserves(s: Server, op: Op)
    requires Inv(s)
    ensures Inv(Do(s, op)) && Evolves(s, Do(s, op))
  {
    match op
    case Submit(key, spec, now) => CreatePreserves(s, key, spec, now);
    case Cancel(job) => CancelPreserves(s, job);
    case Sync(request) => SyncPreserves(s, request);
    case _ => SameTables(s, Do(s, op));
  }

  lemma {:induction false} RunPreserves(s: Server, ops: seq<Op>)
    requires Inv(s)
    ensures Inv(Run(s, ops)) && Evolves(s, Run(s, ops))
    decreases |ops|
  {
    if |ops| == 0 {
      SameTables(s, s);
    } else {
      DoPreserves(s, ops[0]);
      RunPreserves(Do(s, ops[0]), ops[1..]);
      EvolvesTransitive(s, Do(s, ops[0]), Run(s, ops));
    }
  }

  lemma EmptyInv()
    ensures Inv(EMPTY)
  {
  }

  /******* What holds in every reachable state *******/

  predicate LiveAttemptOf(s: Server, a: int, job: JobId) {
    0 <= a < |s.attempts| && s.attempts[a].job == job && Live(s.attempts[a].state)
  }

  /** At most one live attempt per job, and exactly which jobs have one. */
  lemma LiveAttemptsByJobState(ops: seq<Op>, job: JobId)
    requires job < |Run(EMPTY, ops).jobs|
    ensures var s := Run(EMPTY, ops);
            && (forall a, b :: LiveAttemptOf(s, a, job) && LiveAttemptOf(s, b, job) ==> a == b)
            && match s.jobs[job].state
               case JobQueued => forall a :: LiveAttemptOf(s, a, job) ==> !s.attempts[a].state.AttemptRunning?
               case JobRunning => exists a :: LiveAttemptOf(s, a, job) && s.attempts[a].state.AttemptRunning?
               case JobCanceling => exists a :: LiveAttemptOf(s, a, job)
               case _ => forall a :: !LiveAttemptOf(s, a, job)
  {
    EmptyInv();
    RunPreserves(EMPTY, ops);
    LiveAttemptsByView(Run(EMPTY, ops), job);
  }

  lemma LiveAttemptsByView(s: Server, job: JobId)
    requires Inv(s) && job < |s.jobs|
    ensures forall a, b :: LiveAttemptOf(s, a, job) && LiveAttemptOf(s, b, job) ==> a == b
    ensures match s.jobs[job].state
            case JobQueued => forall a :: LiveAttemptOf(s, a, job) ==> !s.attempts[a].state.AttemptRunning?
            case JobRunning => exists a :: LiveAttemptOf(s, a, job) && s.attempts[a].state.AttemptRunning?
            case JobCanceling => exists a :: LiveAttemptOf(s, a, job)
            case _ => forall a :: !LiveAttemptOf(s, a, job)
  {
    assert JobViewAt(s, job);
    forall a | LiveAttemptOf(s, a, job)
      ensures LastState(s.attempts, job) == Some(s.attempts[a].state)
    {
      LiveIsLast(s, a);
    }
    forall a, b | LiveAttemptOf(s, a, job) && LiveAttemptOf(s, b, job) ensures a == b {
      LiveIsLast(s, a);
      LiveIsLast(s, b);
    }
    var last := LastStateWitness(s.attempts, job);
    if LastState(s.attempts, job).Some? && Live(LastState(s.attempts, job).value) {
      assert LiveAttemptOf(s, last, job);
    }
  }

  /** Retry accounting: the attempts are numbered 1..n with n within the budget, and what each final state means. */
  lemma RetryAccounting(ops: seq<Op>, job: JobId)
    requires job < |Run(EMPTY, ops).jobs|
    ensures var s := Run(EMPTY, ops);
            var n := Count(s.attempts, job);
            && n <= s.jobs[job].spec.maxAttempts
            && (forall a :: 0 <= a < |s.attempts| && s.attempts[a].job == job ==> 1 <= s.attempts[a].number <= n)
            && (forall a, b :: 0 <= a < b < |s.attempts| && s.attempts[a].job == s.attempts[b].job == job ==>
                  s.attempts[a].number < s.attempts[b].number && s.attempts[a].state.AttemptFailed?)
            && (s.jobs[job].state.JobFailed? ==> n == s.jobs[job].spec.maxAttempts)
            && (s.jobs[job].state.JobFailed? ==>
                  forall a :: 0 <= a < |s.attempts| && s.attempts[a].job == job ==> s.attempts[a].state.AttemptFailed?)
            && (s.jobs[job].state.JobSucceeded? ==> n > 0)
            && (s.jobs[job].state.JobSucceeded? ==>
                  forall a :: 0 <= a < |s.attempts| && s.attempts[a].job == job ==>
                    (s.attempts[a].state.AttemptSucceeded? <==> s.attempts[a].number == n))
            && (Schedulable(s, job) ==> n < s.jobs[job].spec.maxAttempts)
  {
    EmptyInv();
    RunPreserves(EMPTY, ops);
    var s := Run(EMPTY, ops);
    assert JobViewAt(s, job);
    var last := LastStateWitness(s.attempts, job);
    forall a | 0 <= a < |s.attempts| && s.attempts[a].job == job
      ensures 1 <= s.attempts[a].number <= Count(s.attempts, job)
      ensures a == last <==> s.attempts[a].number == Count(s.attempts, job)
      ensures a != last ==> s.attempts[a].state.AttemptFailed?
    {
      assert NumberedAt(s, a);
      CountPositive(s.attempts, a);
      LastNumber(s, last);
      if a != last {
        assert a < last by {
          assert IsLast(s.attempts, last);
        }
        assert EarlierFailedAt(s, a, last);
        NumbersIncrease(s, a, last);
      }
    }
    forall a, b | 0 <= a < b < |s.attempts| && s.attempts[a].job == s.attempts[b].job == job
      ensures s.attempts[a].number < s.attempts[b].number
    {
      NumbersIncrease(s, a, b);
      assert EarlierFailedAt(s, a, b);
    }
    if Schedulable(s, job) {
      SchedulableHasBudget(s, job);
    }
  }

  lemma NumbersIncrease(s: Server, a: AttemptId, b: AttemptId)
    requires Numbered(s) && a < b < |s.attempts| && s.attempts[a].job == s.attempts[b].job
    ensures s.attempts[a].number < s.attempts[b].number
  {
    assert NumberedAt(s, a) && NumberedAt(s, b);
    assert s.attempts[..b + 1][..b] == s.attempts[..b];
    CountPositive(s.attempts[..b], a);
    assert s.attempts[..b][..a + 1] == s.attempts[..a + 1];
  }

  /** A job row is written at most 2 * max_attempts + 2 times. */
  lemma RevisionBound(ops: seq<Op>, job: JobId)
    requires job < |Run(EMPTY, ops).jobs|
    ensures var row := Run(EMPTY, ops).jobs[job];
            row.revision <= 2 * row.spec.maxAttempts + 2
  {
    EmptyInv();
    RunPreserves(EMPTY, ops);
    var s := Run(EMPTY, ops);
    assert JobViewAt(s, job);
  }

  /** How many operations of a run change the job's row. */
  function RowChanges(s: Server, ops: seq<Op>, job: JobId): nat
    requires job < |s.jobs|
    decreases |ops|
  {
    if |ops| == 0 then 0
    else
      var next := Do(s, ops[0]);
      if job >= |next.jobs| then 0
      else (if next.jobs[job] != s.jobs[job] then 1 else 0) + RowChanges(next, ops[1..], job)
  }

  /** However long the run, a job's row changes finitely often: the bound depends on the job alone. */
  lemma {:induction false} EveryJobSettles(s: Server, ops: seq<Op>, job: JobId)
    requires Inv(s) && job < |s.jobs|
    ensures s.jobs[job].revision + RowChanges(s, ops, job) <= 2 * s.jobs[job].spec.maxAttempts + 2
    decreases |ops|
  {
    assert JobViewAt(s, job);
    if |ops| > 0 {
      DoPreserves(s, ops[0]);
      assert JobEvolvesAt(s, Do(s, ops[0]), job);
      EveryJobSettles(Do(s, ops[0]), ops[1..], job);
    }
  }

  /******* What holds from one reachable state to every later one *******/

  /** Although the finish transaction writes the job row unguarded, no terminal job is ever touched again. */
  lemma TerminalForever(before: seq<Op>, after: seq<Op>, job: JobId)
    requires job < |Run(EMPTY, before).jobs| && TerminalJob(Run(EMPTY, before).jobs[job].state)
    ensures var s := Run(EMPTY, before);
            var t := Run(EMPTY, before + after);
            && job < |t.jobs| && t.jobs[job] == s.jobs[job]
            && |s.attempts| <= |t.attempts|
            && (forall a :: 0 <= a < |t.attempts| && t.attempts[a].job == job ==>
                  a < |s.attempts| && t.attempts[a] == s.attempts[a])
  {
    EmptyInv();
    RunPreserves(EMPTY, before);
    RunSplit(EMPTY, before, after);
    var s := Run(EMPTY, before);
    var t := Run(s, after);
    RunPreserves(s, after);
    assert JobEvolvesAt(s, t, job);
    forall a | 0 <= a < |t.attempts| && t.attempts[a].job == job
      ensures a < |s.attempts| && t.attempts[a] == s.attempts[a]
    {
      assert a < |s.attempts|;
      assert AttemptEvolvesAt(s, t, a);
      LiveAttemptsByView(s, job);
      assert !LiveAttemptOf(s, a, job);
    }
  }

  /** From canceling the only way on is canceled, and no further attempt is ever offered. */
  lemma CancelWins(before: seq<Op>, after: seq<Op>, job: JobId)
    requires job < |Run(EMPTY, before).jobs| && Run(EMPTY, before).jobs[job].state.JobCanceling?
    ensures var s := Run(EMPTY, before);
            var t := Run(EMPTY, before + after);
            && job < |t.jobs| && (t.jobs[job] == s.jobs[job] || t.jobs[job].state.JobCanceled?)
            && NoNewAttempt(s, t, job)
  {
    EmptyInv();
    RunPreserves(EMPTY, before);
    RunSplit(EMPTY, before, after);
    var s := Run(EMPTY, before);
    RunPreserves(s, after);
    assert JobEvolvesAt(s, Run(s, after), job);
  }

  lemma {:induction false} OfferFromKeepsJobs(s: Server, worker: WorkerId, capacity: Capacity, allocation: Allocation, ids: seq<JobId>)
    requires forall k :: 0 <= k < |ids| ==> ids[k] < |s.jobs|
    ensures OfferFrom(s, worker, capacity, allocation, ids).jobs == s.jobs
    decreases |ids|
  {
    if |ids| > 0 && allocation.active < capacity.maxParallel {
      var spec := s.jobs[ids[0]].spec;
      if JobFits(spec, capacity, allocation) {
        OfferFromKeepsJobs(Offer(s, worker, ids[0]), worker, capacity, Occupy(allocation, spec.resources), ids[1..]);
      } else {
        OfferFromKeepsJobs(s, worker, capacity, allocation, ids[1..]);
      }
    }
  }

  /******* Idempotent submission *******/

  /** Keys and jobs are in one-to-one correspondence, and a key's row names its job's specification. */
  predicate KeysOk(s: Server) {
    && (forall k :: k in s.keys ==> s.keys[k].job < |s.jobs| && s.jobs[s.keys[k].job].spec == s.keys[k].spec)
    && (forall k, l :: k in s.keys && l in s.keys && s.keys[k].job == s.keys[l].job ==> k == l)
    && |s.jobs| == |s.keys|
  }

  predicate SpecsOk(s: Server) {
    forall j :: 0 <= j < |s.jobs| ==> ValidSpec(s.jobs[j].spec)
  }

  /** Existing keys keep their rows. */
  predicate KeysKept(s: Server, after: Server) {
    forall k :: k in s.keys ==> k in after.keys && after.keys[k] == s.keys[k]
  }

  /** A new row under a new key names the new job. */
  lemma NewKeyKeepsKeys(s: Server, key: string, spec: JobSpec, now: int)
    requires KeysOk(s) && key !in s.keys
    ensures var after := s.(jobs := s.jobs + [Job(spec, JobQueued, 1, now)], keys := s.keys[key := KeyRow(spec, |s.jobs|)]);
            KeysOk(after) && KeysKept(s, after)
  {
    var after := s.(jobs := s.jobs + [Job(spec, JobQueued, 1, now)], keys := s.keys[key := KeyRow(spec, |s.jobs|)]);
    forall k | k in after.keys
      ensures after.keys[k].job < |after.jobs| && after.jobs[after.keys[k].job].spec == after.keys[k].spec
    {
      assert k == key || after.keys[k] == s.keys[k];
    }
  }

  lemma SubmitKeepsKeys(s: Server, key: string, spec: JobSpec, now: int)
    requires KeysOk(s)
    ensures KeysOk(Do(s, Submit(key, spec, now))) && KeysKept(s, Do(s, Submit(key, spec, now)))
  {
    hide ValidSpec, KeysOk;
    if key !in s.keys {
      NewKeyKeepsKeys(s, key, spec, now);
    }
  }

  lemma SyncKeepsKeyTable(s: Server, request: SyncRequest)
    ensures Do(s, Sync(request)).keys == s.keys && |Do(s, Sync(request)).jobs| == |s.jobs|
  {
    var r := request;
    var recorded := RecordAll(s, r.worker, r.session, r.events);
    if r.worker in s.workers && recorded.Ok? {
      RecordAllKeepsKeys(s, r.worker, r.session, r.events);
      OfferFromKeepsJobs(recorded.value, r.worker, Normalize(r.capacity), CurrentAllocation(recorded.value, r.worker),
                         Candidates(recorded.value));
      OfferFromKeepsKeys(recorded.value, r.worker, Normalize(r.capacity), CurrentAllocation(recorded.value, r.worker),
                         Candidates(recorded.value));
    }
  }

  lemma SameSpecsKeepKeys(s: Server, after: Server)
    requires KeysOk(s) && Evolves(s, after) && after.keys == s.keys && |after.jobs| == |s.jobs|
    ensures KeysOk(after)
  {
    forall k | k in s.keys ensures after.jobs[s.keys[k].job].spec == s.keys[k].spec {
      assert JobEvolvesAt(s, after, s.keys[k].job);
    }
  }

  lemma DoKeepsKeys(s: Server, op: Op)
    requires Inv(s) && KeysOk(s)
    ensures KeysOk(Do(s, op)) && KeysKept(s, Do(s, op))
  {
    if op.Submit? {
      SubmitKeepsKeys(s, op.key, op.spec, op.now);
    } else {
      DoPreserves(s, op);
      if op.Sync? {
        SyncKeepsKeyTable(s, op.request);
      }
      SameSpecsKeepKeys(s, Do(s, op));
    }
  }

  lemma DoKeepsSpecs(s: Server, op: Op)
    requires Inv(s) && SpecsOk(s)
    ensures SpecsOk(Do(s, op))
  {
    DoPreserves(s, op);
    var after := Do(s, op);
    forall j | 0 <= j < |after.jobs| ensures ValidSpec(after.jobs[j].spec) {
      if j < |s.jobs| {
        assert JobEvolvesAt(s, after, j);
      } else if op.Sync? {
        SyncKeepsKeyTable(s, op.request);
      }
    }
  }

  lemma {:induction false} RecordAllKeepsKeys(s: Server, worker: WorkerId, session: SessionId, events: seq<WorkerEvent>)
    ensures var r := RecordAll(s, worker, session, events);
            r.Ok? ==> r.value.keys == s.keys && |r.value.jobs| == |s.jobs|
    decreases |events|
  {
    if |events| > 0 {
      var first := RecordWorkerEvent(s, worker, session, events[0]);
      if first.Ok? {
        RecordAllKeepsKeys(first.value, worker, session, events[1..]);
      }
    }
  }

  lemma {:induction false} OfferFromKeepsKeys(s: Server, worker: WorkerId, capacity: Capacity, allocation: Allocation, ids: seq<JobId>)
    requires forall k :: 0 <= k < |ids| ==> ids[k] < |s.jobs|
    ensures OfferFrom(s, worker, capacity, allocation, ids).keys == s.keys
    ensures OfferFrom(s, worker, capacity, allocation, ids).log == s.log
    ensures OfferFrom(s, worker, capacity, allocation, ids).samples == s.samples
    ensures OfferFrom(s, worker, capacity, allocation, ids).workers == s.workers
    decreases |ids|
  {
    if |ids| > 0 && allocation.active < capacity.maxParallel {
      var spec := s.jobs[ids[0]].spec;
      if JobFits(spec, capacity, allocation) {
        OfferFromKeepsKeys(Offer(s, worker, ids[0]), worker, capacity, Occupy(allocation, spec.resources), ids[1..]);
      } else {
        OfferFromKeepsKeys(s, worker, capacity, allocation, ids[1..]);
      }
    }
  }

  lemma {:induction false} RunKeepsKeys(s: Server, ops: seq<Op>)
    requires Inv(s) && KeysOk(s)
    ensures Inv(Run(s, ops)) && KeysOk(Run(s, ops)) && KeysKept(s, Run(s, ops))
    decreases |ops|
  {
    if |ops| > 0 {
      DoPreserves(s, ops[0]);
      DoKeepsKeys(s, ops[0]);
      RunKeepsKeys(Do(s, ops[0]), ops[1..]);
    }
  }

  lemma {:induction false} RunKeepsSpecs(s: Server, ops: seq<Op>)
    requires Inv(s) && SpecsOk(s)
    ensures SpecsOk(Run(s, ops))
    decreases |ops|
  {
    if |ops| > 0 {
      DoPreserves(s, ops[0]);
      DoKeepsSpecs(s, ops[0]);
      RunKeepsSpecs(Do(s, ops[0]), ops[1..]);
    }
  }

  /** A bound key answers with its job, or refuses another specification; either way nothing changes. */
  lemma BoundKeyAnswers(t: Server, key: string, spec: JobSpec, now: int)
    requires KeysOk(t) && key in t.keys && key != "" && ValidSpec(spec)
    ensures CreateJob(t, key, spec, now) ==
            if spec == t.keys[key].spec then Ok((t, CreateResult(t.keys[key].job, false))) else Err(IdempotencyConflict)
  {
  }

  lemma SubmitBindsKey(s: Server, key: string, spec: JobSpec, now: int)
    requires KeysOk(s) && CreateJob(s, key, spec, now).Ok?
    ensures var after := Do(s, Submit(key, spec, now));
            key != "" && key in after.keys && after.keys[key] == KeyRow(spec, CreateJob(s, key, spec, now).value.1.job)
  {
  }

  /**
   When a submission is accepted, in any reachable state: the specification is valid, and either the key is
   bound to this very specification or it is new and every health target is configured.
   */
  lemma SubmissionAcceptedIff(ops: seq<Op>, key: string, spec: JobSpec, now: int)
    ensures var s := Run(EMPTY, ops);
            var r := CreateJob(s, key, spec, now);
            && (r.Ok? <==> key != "" && ValidSpec(spec) &&
                           if key in s.keys then s.keys[key].spec == spec else TargetsConfigured(spec, s.targets))
            && (r.Ok? ==>
                  && r.value.1.job < |r.value.0.jobs| && r.value.0.jobs[r.value.1.job].spec == spec
                  && (r.value.1.created <==> key !in s.keys)
                  && (r.value.1.created ==> r.value.0.jobs[r.value.1.job].state.JobQueued? && s.jobs <= r.value.0.jobs)
                  && (!r.value.1.created ==> r.value.0 == s))
  {
    EmptyInv();
    RunKeepsKeys(EMPTY, ops);
  }

  /**
   Once a key has created a job, submitting under that key again, after anything else has happened,
   returns that job and changes nothing when the specification is the same, and is refused otherwise;
   over the whole run there are exactly as many jobs as keys.
   */
  lemma SubmitOncePerKey(before: seq<Op>, key: string, spec: JobSpec, now: int, after: seq<Op>, again: JobSpec, later: int)
    requires CreateJob(Run(EMPTY, before), key, spec, now).Ok?
    requires ValidSpec(again)
    ensures var s := Run(EMPTY, before);
            var t := Run(EMPTY, before + [Submit(key, spec, now)] + after);
            && |t.jobs| == |t.keys|
            && CreateJob(t, key, again, later) ==
               if again == spec
               then Ok((t, CreateResult(CreateJob(s, key, spec, now).value.1.job, false)))
               else Err(IdempotencyConflict)
  {
    EmptyInv();
    var s := Run(EMPTY, before);
    var op := Submit(key, spec, now);
    var created := Do(s, op);
    RunKeepsKeys(EMPTY, before);
    assert Run(EMPTY, before + [op] + after) == Run(created, after) by {
      RunSplit(EMPTY, before, [op]);
      RunSplit(EMPTY, before + [op], after);
      assert [op][1..] == [];
    }
    SubmitBindsKey(s, key, spec, now);
    DoPreserves(s, op);
    DoKeepsKeys(s, op);
    RunKeepsKeys(created, after);
    BoundKeyAnswers(Run(created, after), key, again, later);
  }
}
