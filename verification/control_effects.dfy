/**
 What each transaction of the control plane does to its rows, field by field, and what follows for whole runs:
 a cancel is heeded, a start time is the reported one, the urgent job goes first, and a worker is only offered
 what it advertises.
 */
module ControlEffects {
  import opened Wrappers
  import opened Domain
  import opened JobSpecs
  import opened Scheduler
  import opened ControlPlane
  import opened Lifecycle
  import opened Runs
  import opened CapacityPromises
  import opened Tracking
  import opened Exchange

  /******* Submitting *******/

  /** A submission under a new key adds one queued row with that specification and time, and binds the key to it. */
  lemma CreateEffect(s: Server, key: string, spec: JobSpec, now: int)
    ensures key !in s.keys && CreateJob(s, key, spec, now).Ok? ==>
              var (t, answer) := CreateJob(s, key, spec, now).value;
              && answer == CreateResult(|s.jobs|, true)
              && t == s.(jobs := s.jobs + [Job(spec, JobQueued, 1, now)], keys := s.keys[key := KeyRow(spec, |s.jobs|)])
    ensures key !in s.keys ==>
              (CreateJob(s, key, spec, now).Ok? <==>
               key != "" && ValidSpec(spec) && forall k :: 0 <= k < |spec.health| ==> spec.health[k].target in s.targets)
    ensures key != "" && ValidSpec(spec) && key in s.keys && s.keys[key].job < |s.jobs| ==>
              CreateJob(s, key, spec, now) ==
              if s.keys[key].spec == spec then Ok((s, CreateResult(s.keys[key].job, false))) else Err(IdempotencyConflict)
  {
  }

  /** The target was configured by one of the operations and by none after it revoked. */
  predicate LastConfigured(ops: seq<Op>, target: string) {
    exists i :: 0 <= i < |ops| && ops[i] == AddTarget(target) && forall k :: i < k < |ops| ==> ops[k] != RevokeTarget(target)
  }

  lemma LastConfiguredStep(ops: seq<Op>, target: string)
    requires |ops| > 0
    ensures var last := |ops| - 1;
            LastConfigured(ops, target) <==>
            ops[last] == AddTarget(target) || (ops[last] != RevokeTarget(target) && LastConfigured(ops[..last], target))
  {
    var last := |ops| - 1;
    assert forall k :: 0 <= k < last ==> ops[..last][k] == ops[k];
    if LastConfigured(ops[..last], target) && ops[last] != RevokeTarget(target) {
      var i :| 0 <= i < last && ops[..last][i] == AddTarget(target) && forall k :: i < k < last ==> ops[..last][k] != RevokeTarget(target);
      assert ops[i] == AddTarget(target);
    }
    if LastConfigured(ops, target) && ops[last] != AddTarget(target) {
      var i :| 0 <= i < |ops| && ops[i] == AddTarget(target) && forall k :: i < k < |ops| ==> ops[k] != RevokeTarget(target);
      assert ops[..last][i] == AddTarget(target);
    }
  }

  /** Targets are changed by configuring and revoking only. */
  lemma TargetsAfter(s: Server, op: Op, target: string)
    ensures target in Do(s, op).targets <==>
            op == AddTarget(target) || (op != RevokeTarget(target) && target in s.targets)
  {
    hide RecordAll, OfferFrom, ValidSpec;
    if op.Sync? && SyncWorker(s, op.request).Ok? {
      var r := op.request;
      var m := RecordAll(s, r.worker, r.session, r.events).value;
      BatchKeepsTargets(s, r.worker, r.session, r.events);
      OfferEffect(m, r.worker, Normalize(r.capacity), CurrentAllocation(m, r.worker), Candidates(m));
    }
  }

  lemma {:induction false} BatchKeepsTargets(s: Server, worker: WorkerId, session: SessionId, events: seq<WorkerEvent>)
    requires RecordAll(s, worker, session, events).Ok?
    ensures RecordAll(s, worker, session, events).value.targets == s.targets
    decreases |events|
  {
    if |events| > 0 {
      BatchKeepsTargets(RecordWorkerEvent(s, worker, session, events[0]).value, worker, session, events[1..]);
    }
  }

  /** Over every run a target is configured exactly if it was and has not been revoked since. */
  lemma {:induction false} TargetConfiguredIff(ops: seq<Op>, target: string)
    ensures target in Run(EMPTY, ops).targets <==> LastConfigured(ops, target)
    decreases |ops|
  {
    hide Do, LastConfigured;
    if |ops| == 0 {
      NothingConfigured(ops, target);
    } else {
      var last := |ops| - 1;
      TargetConfiguredIff(ops[..last], target);
      LastConfiguredStep(ops, target);
      assert ops == ops[..last] + [ops[last]];
      RunSplit(EMPTY, ops[..last], [ops[last]]);
      RunOne(Run(EMPTY, ops[..last]), ops[last]);
      TargetsAfter(Run(EMPTY, ops[..last]), ops[last], target);
    }
  }

  lemma NothingConfigured(ops: seq<Op>, target: string)
    requires |ops| == 0
    ensures !LastConfigured(ops, target) && Run(EMPTY, ops) == EMPTY
  {
  }

  lemma RunOne(s: Server, op: Op)
    ensures Run(s, [op]) == Do(s, op)
  {
    assert [op][1..] == [];
  }

  /******* Canceling *******/

  /** Some attempt of the job is offered, accepted or running. */
  predicate InHand(attempts: seq<Attempt>, job: JobId) {
    exists a :: 0 <= a < |attempts| && attempts[a].job == job &&
                attempts[a].state in {AttemptOffered, AttemptAccepted, AttemptRunning}
  }

  /**
   A cancel takes a queued or running job to canceling when an attempt is in hand and to canceled otherwise,
   repeats without effect, and is refused once the job has succeeded or failed.
   */
  lemma CancelAnswers(s: Server, job: JobId)
    ensures job >= |s.jobs| ==> CancelJob(s, job) == Err(NotFound)
    ensures job < |s.jobs| && s.jobs[job].state in {JobQueued, JobRunning} ==>
              CancelJob(s, job) ==
              Ok(s.(jobs := s.jobs[job := s.jobs[job].(state := if InHand(s.attempts, job) then JobCanceling else JobCanceled,
                                                       revision := s.jobs[job].revision + 1)]))
    ensures job < |s.jobs| && s.jobs[job].state in {JobCanceling, JobCanceled} ==> CancelJob(s, job) == Ok(s)
    ensures job < |s.jobs| && s.jobs[job].state in {JobSucceeded, JobFailed} ==> CancelJob(s, job) == Err(InvalidTransition)
  {
    assert HasLiveAttempt(s.attempts, job) <==> InHand(s.attempts, job);
  }

  /**
   After any run, a cancel of a job that exists is refused exactly if the job has succeeded or failed; otherwise
   the job is canceling or canceled from then on, whatever happens, and gets no further attempt.
   */
  lemma CancelIsHeeded(ops: seq<Op>, job: JobId, more: seq<Op>)
    requires job < |Run(EMPTY, ops).jobs|
    ensures var s := Run(EMPTY, ops);
            var t := Run(EMPTY, ops + [Cancel(job)] + more);
            && job < |t.jobs|
            && (CancelJob(s, job).Err? <==> s.jobs[job].state.JobSucceeded? || s.jobs[job].state.JobFailed?)
            && (CancelJob(s, job).Ok? ==>
                  && (t.jobs[job].state.JobCanceling? || t.jobs[job].state.JobCanceled?)
                  && NoNewAttempt(s, t, job))
            && (CancelJob(s, job).Err? ==> t.jobs[job] == s.jobs[job])
  {
    hide Inv, CancelJob, CreateJob, SyncWorker;
    var s := Run(EMPTY, ops);
    var canceled := Do(s, Cancel(job));
    EmptyInv();
    RunPreserves(EMPTY, ops);
    RunSplit(EMPTY, ops, [Cancel(job)]);
    RunSplit(EMPTY, ops + [Cancel(job)], more);
    assert Run(s, [Cancel(job)]) == canceled by {
      assert [Cancel(job)][1..] == [];
    }
    CancelAnswers(s, job);
    CancelPreserves(s, job);
    RunPreserves(canceled, more);
    assert JobEvolvesAt(canceled, Run(canceled, more), job);
  }

  /******* Events *******/

  /** An event of the worker recorded under that session and sequence. */
  predicate HasSlot(log: seq<LogEntry>, worker: WorkerId, session: SessionId, sequence: nat, id: EventId) {
    exists k :: 0 <= k < |log| && log[k].worker == worker && log[k].session == session && log[k].event.sequence == sequence &&
                log[k].event.eventId == id
  }

  predicate HasId(log: seq<LogEntry>, id: EventId) {
    exists k :: 0 <= k < |log| && log[k].event.eventId == id
  }

  lemma {:induction false} SlotIsRecordedAt(log: seq<LogEntry>, worker: WorkerId, session: SessionId, sequence: nat)
    ensures var r := RecordedAt(log, worker, session, sequence);
            && (r.Some? ==> HasSlot(log, worker, session, sequence, r.value))
            && (r.None? ==> forall id :: !HasSlot(log, worker, session, sequence, id))
  {
    if |log| > 0 {
      var last := |log| - 1;
      var init := log[..last];
      SlotIsRecordedAt(init, worker, session, sequence);
      assert forall k :: 0 <= k < last ==> init[k] == log[k];
      var r := RecordedAt(init, worker, session, sequence);
      if r.Some? {
        var k :| 0 <= k < |init| && init[k].worker == worker && init[k].session == session && init[k].event.sequence == sequence &&
                 init[k].event.eventId == r.value;
        assert log[k].event.eventId == r.value;
      }
      var found := RecordedAt(log, worker, session, sequence);
      if found.Some? && found != r {
        assert log[last].event.eventId == found.value;
      }
      forall id | found.None? ensures !HasSlot(log, worker, session, sequence, id) {
        assert !HasSlot(init, worker, session, sequence, id);
      }
    }
  }

  /**
   An event whose slot and identifier are unused joins the log as it is and is applied.  Otherwise nothing changes:
   it is taken for recorded if the slot holds its identifier, and refused if the slot is free or holds another.
   */
  lemma RecordEffect(s: Server, worker: WorkerId, session: SessionId, e: WorkerEvent)
    ensures var r := RecordWorkerEvent(s, worker, session, e);
            && (e.sequence == 0 ==> r.Err?)
            && (e.sequence > 0 && !HasId(s.log, e.eventId) && (forall id :: !HasSlot(s.log, worker, session, e.sequence, id)) ==>
                  r == ApplyWorkerEvent(s.(log := s.log + [LogEntry(worker, session, e)]), worker, e))
            && (e.sequence > 0 && HasId(s.log, e.eventId) && (forall id :: !HasSlot(s.log, worker, session, e.sequence, id)) ==>
                  r == Err(NoDuplicateRow))
            && (e.sequence > 0 && (exists id :: HasSlot(s.log, worker, session, e.sequence, id)) ==>
                  r == Ok(s) || r == Err(SequenceConflict))
            && (r == Ok(s) && e.sequence > 0 && (exists id :: HasSlot(s.log, worker, session, e.sequence, id)) ==>
                  HasSlot(s.log, worker, session, e.sequence, e.eventId))
            && (r == Err(SequenceConflict) && e.sequence > 0 && (exists id :: HasSlot(s.log, worker, session, e.sequence, id)) ==>
                  exists id :: id != e.eventId && HasSlot(s.log, worker, session, e.sequence, id))
  {
    hide RecordedAt, ApplyWorkerEvent, HasSlot;
    SlotIsRecordedAt(s.log, worker, session, e.sequence);
    var existing := RecordedAt(s.log, worker, session, e.sequence);
    assert existing.Some? ==> HasSlot(s.log, worker, session, e.sequence, existing.value);
    assert HasEventId(s.log, e.eventId) <==> HasId(s.log, e.eventId);
  }

  /** Everything but the attempt's row is as it was. */
  predicate OnlyAttempt(s: Server, t: Server, a: AttemptId)
    requires a < |s.attempts|
  {
    |t.attempts| == |s.attempts| && t == s.(attempts := s.attempts[a := t.attempts[a]])
  }

  /** Everything but the attempt's row and its job's is as it was. */
  predicate OnlyAttemptAndJob(s: Server, t: Server, a: AttemptId)
    requires a < |s.attempts| && s.attempts[a].job < |s.jobs|
  {
    && |t.attempts| == |s.attempts| && |t.jobs| == |s.jobs|
    && t == s.(attempts := s.attempts[a := t.attempts[a]], jobs := s.jobs[s.attempts[a].job := t.jobs[s.attempts[a].job]])
  }

  lemma AcceptedEffect(s: Server, worker: WorkerId, e: WorkerEvent)
    requires e.body.EventAccepted? && ApplyWorkerEvent(s, worker, e).Ok?
    ensures var t, a := ApplyWorkerEvent(s, worker, e).value, e.attemptId;
            && a < |s.attempts| && s.attempts[a].state == AttemptOffered && OnlyAttempt(s, t, a)
            && t.attempts[a] == s.attempts[a].(state := AttemptAccepted, revision := s.attempts[a].revision + 1)
  {
  }

  /** A start is stored with the time the event carries; a queued job runs, a job being canceled goes on being canceled. */
  lemma StartedEffect(s: Server, worker: WorkerId, e: WorkerEvent)
    requires e.body.EventStarted? && ApplyWorkerEvent(s, worker, e).Ok?
    ensures var t, a := ApplyWorkerEvent(s, worker, e).value, e.attemptId;
            && a < |s.attempts| && s.attempts[a].state in {AttemptOffered, AttemptAccepted}
            && s.attempts[a].job < |s.jobs| && OnlyAttemptAndJob(s, t, a)
            && t.attempts[a] == s.attempts[a].(state := AttemptRunning, revision := s.attempts[a].revision + 1, startedAt := Some(e.body.at))
            && var before, after := s.jobs[s.attempts[a].job], t.jobs[s.attempts[a].job];
               if before.state == JobQueued then after == before.(state := JobRunning, revision := before.revision + 1) else after == before
  {
  }

  /** How a job and its attempt end: canceled if that was asked for, by the exit code otherwise, retried within the budget. */
  lemma FinishedEffect(s: Server, worker: WorkerId, e: WorkerEvent)
    requires e.body.EventFinished? && ApplyWorkerEvent(s, worker, e).Ok?
    ensures var t, a := ApplyWorkerEvent(s, worker, e).value, e.attemptId;
            && a < |s.attempts| && s.attempts[a].state in {AttemptAccepted, AttemptRunning}
            && s.attempts[a].job < |s.jobs| && OnlyAttemptAndJob(s, t, a)
            && var attempt, job := s.attempts[a], s.jobs[s.attempts[a].job];
               var clean := e.body.exitCode == Some(0) && e.body.error == "";
               var canceled := job.state == JobCanceling || job.state == JobCanceled;
               && t.attempts[a] == attempt.(
                    state := if canceled then AttemptCanceled else if clean then AttemptSucceeded else AttemptFailed,
                    revision := attempt.revision + 1)
               && t.jobs[attempt.job] == job.(
                    state := if canceled then JobCanceled else if clean then JobSucceeded
                             else if attempt.number < job.spec.maxAttempts then JobQueued else JobFailed,
                    revision := job.revision + 1)
  {
  }

  lemma OtherEffects(s: Server, worker: WorkerId, e: WorkerEvent)
    requires ApplyWorkerEvent(s, worker, e).Ok?
    ensures var t := ApplyWorkerEvent(s, worker, e).value;
            && !e.body.EventUnknown?
            && (e.body.EventArtifacts? ==> t == s)
            && (e.body.EventMetric? ==> t == s.(samples := s.samples + [Sample(e.attemptId, e.eventId, e.body.sample)]))
  {
  }

  /** Everything stored inline is within 64 KiB. */
  predicate Inline(artifacts: seq<Artifact>) {
    forall k :: 0 <= k < |artifacts| ==> artifacts[k].contentLength <= 65536
  }

  /**
   When an event is applied: exactly if it is about an attempt of that worker, in a state in which it makes sense,
   and its contents are within bounds and declared.
   */
  lemma AppliedIff(s: Server, worker: WorkerId, e: WorkerEvent)
    ensures ApplyWorkerEvent(s, worker, e).Ok? <==>
            && e.attemptId < |s.attempts| && s.attempts[e.attemptId].worker == worker && s.attempts[e.attemptId].job < |s.jobs|
            && var state := s.attempts[e.attemptId].state;
               match e.body
               case EventAccepted => state == AttemptOffered
               case EventStarted(_) => state == AttemptOffered || state == AttemptAccepted
               case EventFinished(_, _, tail, artifacts) =>
                 (state == AttemptAccepted || state == AttemptRunning) && tail <= 65536 && Inline(artifacts)
               case EventArtifacts(artifacts) => |artifacts| > 0 && Inline(artifacts)
               case EventMetric(sample) =>
                 && |sample.name| > 0 && sample.value.Finite?
                 && DefinedMetric(s.jobs[s.attempts[e.attemptId].job].spec.metrics, sample.name, sample.value.v)
               case EventUnknown => false
  {
  }

  /******* Start times *******/

  /** The attempt's worker reported that it started then, and it was recorded. */
  predicate StartRecorded(s: Server, a: AttemptId, at: int) {
    a < |s.attempts| &&
    exists k :: 0 <= k < |s.log| && s.log[k].worker == s.attempts[a].worker && s.log[k].event.attemptId == a &&
                s.log[k].event.body == EventStarted(at)
  }

  predicate ToldAt(s: Server, a: AttemptId, at: int)
    requires a < |s.attempts|
  {
    s.attempts[a].startedAt == Some(at) <==> StartRecorded(s, a, at)
  }

  predicate KnownAt(s: Server, k: int)
    requires 0 <= k < |s.log|
  {
    s.log[k].event.attemptId < |s.attempts|
  }

  /** Every recorded event is about an attempt that exists, and start times are what was reported. */
  ghost predicate StartsTold(s: Server) {
    && (forall k :: 0 <= k < |s.log| ==> KnownAt(s, k))
    && forall a: AttemptId, at: int | a < |s.attempts| :: ToldAt(s, a, at)
  }

  /** Whether the start is in the log once one more event is. */
  lemma OneMoreEntry(s: Server, t: Server, entry: LogEntry, a: AttemptId, at: int)
    requires a < |s.attempts| == |t.attempts| && t.attempts[a].worker == s.attempts[a].worker && t.log == s.log + [entry]
    ensures StartRecorded(t, a, at) <==>
            || StartRecorded(s, a, at)
            || (entry.worker == s.attempts[a].worker && entry.event.attemptId == a && entry.event.body == EventStarted(at))
  {
    assert t.log[|s.log|] == entry;
    assert forall k :: 0 <= k < |s.log| ==> t.log[k] == s.log[k];
    if StartRecorded(s, a, at) {
      var k :| 0 <= k < |s.log| && s.log[k].worker == s.attempts[a].worker && s.log[k].event.attemptId == a &&
               s.log[k].event.body == EventStarted(at);
      assert t.log[k].event.body == EventStarted(at);
    }
  }

  /** An event joins the log and is applied. */
  lemma EventKeepsStarts(s: Server, worker: WorkerId, session: SessionId, e: WorkerEvent)
    requires Inv(s) && StartsTold(s)
    requires ApplyWorkerEvent(s.(log := s.log + [LogEntry(worker, session, e)]), worker, e).Ok?
    ensures StartsTold(ApplyWorkerEvent(s.(log := s.log + [LogEntry(worker, session, e)]), worker, e).value)
  {
    hide StartRecorded, Numbered, EarlierFailed;
    var entry := LogEntry(worker, session, e);
    var t := ApplyWorkerEvent(s.(log := s.log + [entry]), worker, e).value;
    forall a: AttemptId, at: int | a < |t.attempts| ensures ToldAt(t, a, at) {
      assert ToldAt(s, a, at) && AttemptView(s.attempts[a]);
      OneMoreEntry(s, t, entry, a, at);
    }
    forall k | 0 <= k < |t.log| ensures KnownAt(t, k) {
      assert k < |s.log| ==> KnownAt(s, k);
    }
  }

  lemma {:induction false} BatchKeepsStarts(s: Server, worker: WorkerId, session: SessionId, events: seq<WorkerEvent>)
    requires Inv(s) && StartsTold(s) && RecordAll(s, worker, session, events).Ok?
    ensures StartsTold(RecordAll(s, worker, session, events).value)
    decreases |events|
  {
    hide Inv, StartsTold, ApplyWorkerEvent;
    if |events| > 0 {
      RecordPreserves(s, worker, session, events[0]);
      var m := RecordWorkerEvent(s, worker, session, events[0]).value;
      if m != s {
        EventKeepsStarts(s, worker, session, events[0]);
      }
      BatchKeepsStarts(m, worker, session, events[1..]);
    }
  }

  /** A new attempt has not started, and nothing is recorded about it. */
  lemma OffersKeepStarts(s: Server, t: Server)
    requires Inv(t) && StartsTold(s) && s.attempts <= t.attempts && t.log == s.log
    requires forall a :: |s.attempts| <= a < |t.attempts| ==> t.attempts[a].state.AttemptOffered?
    ensures StartsTold(t)
  {
    forall k | 0 <= k < |t.log| ensures KnownAt(t, k) {
      assert KnownAt(s, k);
    }
    forall a: AttemptId, at: int | a < |t.attempts| ensures ToldAt(t, a, at) {
      if a < |s.attempts| {
        assert ToldAt(s, a, at);
      } else {
        assert AttemptView(t.attempts[a]);
        forall k | 0 <= k < |t.log| ensures t.log[k].event.attemptId != a {
          assert KnownAt(s, k);
        }
      }
    }
  }

  lemma SyncKeepsStarts(s: Server, request: SyncRequest)
    requires Inv(s) && StartsTold(s) && SyncWorker(s, request).Ok?
    ensures StartsTold(SyncWorker(s, request).value.0)
  {
    hide Inv, StartsTold, RecordAll, OfferFrom, CurrentAllocation, Candidates, Respond;
    var w := request.worker;
    var m := RecordAll(s, w, request.session, request.events).value;
    BatchKeepsStarts(s, w, request.session, request.events);
    RecordAllPreserves(s, w, request.session, request.events);
    OfferJobsPreserves(m, w, request.capacity);
    OfferFromAppends(m, w, Normalize(request.capacity), CurrentAllocation(m, w), Candidates(m));
    OfferFromKeepsKeys(m, w, Normalize(request.capacity), CurrentAllocation(m, w), Candidates(m));
    OffersKeepStarts(m, OfferJobs(m, w, request.capacity));
  }

  /** No other operation touches attempts or log. */
  lemma OthersKeepStarts(s: Server, op: Op)
    requires StartsTold(s) && (!op.Sync? || SyncWorker(s, op.request).Err?)
    ensures StartsTold(Do(s, op))
  {
    hide SyncWorker, ValidSpec;
    var t := Do(s, op);
    assert t.attempts == s.attempts && t.log == s.log;
    forall k | 0 <= k < |t.log| ensures KnownAt(t, k) {
      assert KnownAt(s, k);
    }
    forall a: AttemptId, at: int | a < |t.attempts| ensures ToldAt(t, a, at) {
      assert ToldAt(s, a, at);
    }
  }

  lemma DoKeepsStarts(s: Server, op: Op)
    requires Inv(s) && StartsTold(s)
    ensures StartsTold(Do(s, op))
  {
    hide Inv, StartsTold, SyncWorker, CreateJob, CancelJob;
    if op.Sync? && SyncWorker(s, op.request).Ok? {
      SyncKeepsStarts(s, op.request);
    } else {
      OthersKeepStarts(s, op);
    }
  }

  lemma {:induction false} RunKeepsStarts(s: Server, ops: seq<Op>)
    requires Inv(s) && StartsTold(s)
    ensures StartsTold(Run(s, ops))
    decreases |ops|
  {
    hide Inv, StartsTold, Do;
    if |ops| > 0 {
      DoPreserves(s, ops[0]);
      DoKeepsStarts(s, ops[0]);
      RunKeepsStarts(Do(s, ops[0]), ops[1..]);
    }
  }

  /** Over every run, an attempt's start time is set exactly if its worker's report of that start was recorded. */
  lemma StartTimeIsReported(ops: seq<Op>, a: AttemptId, at: int)
    requires a < |Run(EMPTY, ops).attempts|
    ensures Run(EMPTY, ops).attempts[a].startedAt == Some(at) <==> StartRecorded(Run(EMPTY, ops), a, at)
  {
    hide StartRecorded;
    EmptyInv();
    RunKeepsStarts(EMPTY, ops);
    assert ToldAt(Run(EMPTY, ops), a, at);
  }

  /******* Offers and answers *******/

  /** The row is a fresh offer to the worker. */
  predicate FreshOffer(attempt: Attempt, worker: WorkerId) {
    attempt.worker == worker && attempt.state == AttemptOffered && attempt.revision == 1 && attempt.startedAt == None
  }

  /** Offering touches nothing but the attempts table, to which it only adds fresh offers to that worker. */
  lemma {:induction false} OfferEffect(s: Server, worker: WorkerId, capacity: Capacity, allocation: Allocation, ids: seq<JobId>)
    requires forall k :: 0 <= k < |ids| ==> ids[k] < |s.jobs|
    ensures var t := OfferFrom(s, worker, capacity, allocation, ids);
            && t == s.(attempts := t.attempts) && s.attempts <= t.attempts && |t.attempts| <= |s.attempts| + |ids|
            && forall a :: |s.attempts| <= a < |t.attempts| ==> FreshOffer(t.attempts[a], worker) && t.attempts[a].job in ids
    decreases |ids|
  {
    if |ids| > 0 && allocation.active < capacity.maxParallel {
      var spec := s.jobs[ids[0]].spec;
      if JobFits(spec, capacity, allocation) {
        OfferEffect(Offer(s, worker, ids[0]), worker, capacity, Occupy(allocation, spec.resources), ids[1..]);
      } else {
        OfferEffect(s, worker, capacity, allocation, ids[1..]);
      }
    }
  }

  /** The attempt is the worker's and may still be executed. */
  predicate HeldRow(s: Server, worker: WorkerId, a: int) {
    && 0 <= a < |s.attempts| && s.attempts[a].worker == worker && s.attempts[a].job < |s.jobs|
    && s.attempts[a].state in {AttemptOffered, AttemptAccepted, AttemptRunning}
  }

  function HeldRows(s: Server, worker: WorkerId, n: nat): seq<nat> {
    if n == 0 then [] else HeldRows(s, worker, n - 1) + if HeldRow(s, worker, n - 1) then [n - 1] else []
  }

  lemma {:induction false} HeldRowsAreExact(s: Server, worker: WorkerId, n: nat)
    ensures forall a :: a in HeldRows(s, worker, n) <==> 0 <= a < n && HeldRow(s, worker, a)
    ensures forall i, k :: 0 <= i < k < |HeldRows(s, worker, n)| ==> HeldRows(s, worker, n)[i] < HeldRows(s, worker, n)[k]
  {
    if n > 0 {
      HeldRowsAreExact(s, worker, n - 1);
      var before := HeldRows(s, worker, n - 1);
      assert forall i :: 0 <= i < |before| ==> before[i] in before;
    }
  }

  /** What counts as held is what the jobs of exactly those attempts asked for, each once. */
  lemma {:induction false} HeldIsExact(s: Server, worker: WorkerId, n: nat)
    requires n <= |s.attempts|
    ensures |HeldResources(s, worker, n)| == |HeldRows(s, worker, n)|
    ensures forall k :: 0 <= k < |HeldRows(s, worker, n)| ==>
              var a := HeldRows(s, worker, n)[k];
              HeldRow(s, worker, a) && HeldResources(s, worker, n)[k] == s.jobs[s.attempts[a].job].spec.resources
  {
    if n > 0 {
      HeldIsExact(s, worker, n - 1);
    }
  }

  /** The command of an offer carries the attempt's row and its job's as they are. */
  predicate OfferOf(s: Server, a: AttemptId, command: WorkerCommand) {
    && a < |s.attempts| && s.attempts[a].job < |s.jobs|
    && var attempt, job := s.attempts[a], s.jobs[s.attempts[a].job];
       command == RunJob(a, a, attempt.number, attempt.job, job.state, job.revision, job.spec)
  }

  /**
   The answer to a sync: the largest sequence of the session that is recorded, one offer for each attempt of the
   worker that is only offered, and one cancel for each it may execute on a job that is canceling or canceled.
   */
  lemma AnswerEffect(s: Server, request: SyncRequest)
    ensures request.worker !in s.workers ==> SyncWorker(s, request) == Err(NotFound)
    ensures SyncWorker(s, request).Ok? ==>
              var (t, p) := SyncWorker(s, request).value;
              && p.worker == request.worker
              && (p.acceptedThrough == 0 || exists id :: HasSlot(t.log, p.worker, request.session, p.acceptedThrough, id))
              && (forall q: nat, id :: HasSlot(t.log, p.worker, request.session, q, id) ==> q <= p.acceptedThrough)
              && (forall c :: c in p.commands ==>
                    || (c.RunJob? && OfferOf(t, c.attemptId, c) && FreshTo(t, c.attemptId, p.worker))
                    || (c.CancelAttempt? && ToCancel(t, c.attemptId, p.worker)))
              && (forall a :: FreshTo(t, a, p.worker) ==> exists c :: c in p.commands && OfferOf(t, a, c))
              && (forall a: AttemptId :: ToCancel(t, a, p.worker) ==> CancelAttempt(a) in p.commands)
  {
    hide RecordAll, OfferJobs, AcceptedThrough, OfferedCommands, CancelCommands, HasSlot;
    if SyncWorker(s, request).Ok? {
      var (t, p) := SyncWorker(s, request).value;
      SlotIsInSession(t.log, p.worker, request.session);
      AcceptedThroughIsMax(t.log, p.worker, request.session);
      OffersAnswered(t, p.worker);
      CancelsAnswered(t, p.worker);
      var offered, cancels := OfferedCommands(t, p.worker, |t.attempts|), CancelCommands(t, p.worker, |t.attempts|);
      assert p == SyncResponse(request.worker, AcceptedThrough(t.log, p.worker, request.session), offered + cancels);
      assert forall c :: c in p.commands <==> c in offered || c in cancels;
    }
  }

  predicate FreshTo(s: Server, a: nat, worker: WorkerId) {
    a < |s.attempts| && s.attempts[a].worker == worker && s.attempts[a].state == AttemptOffered && s.attempts[a].job < |s.jobs|
  }

  predicate ToCancel(s: Server, a: nat, worker: WorkerId) {
    HeldRow(s, worker, a) && s.jobs[s.attempts[a].job].state in {JobCanceling, JobCanceled}
  }

  lemma SlotIsInSession(log: seq<LogEntry>, worker: WorkerId, session: SessionId)
    ensures forall q: nat :: InSession(log, worker, session, q) ==> exists id :: HasSlot(log, worker, session, q, id)
    ensures forall q: nat, id :: HasSlot(log, worker, session, q, id) ==> InSession(log, worker, session, q)
  {
    forall q: nat ensures InSession(log, worker, session, q) ==> exists id :: HasSlot(log, worker, session, q, id) {
      if InSession(log, worker, session, q) {
        var k :| 0 <= k < |log| && log[k].worker == worker && log[k].session == session && log[k].event.sequence == q;
        assert HasSlot(log, worker, session, q, log[k].event.eventId);
      }
    }
  }

  lemma OffersAnswered(t: Server, worker: WorkerId)
    ensures var offered := OfferedCommands(t, worker, |t.attempts|);
            && (forall c :: c in offered ==> c.RunJob? && OfferOf(t, c.attemptId, c) && FreshTo(t, c.attemptId, worker))
            && (forall a :: FreshTo(t, a, worker) ==> exists c :: c in offered && OfferOf(t, a, c))
  {
    OfferedCommandsAreOffers(t, worker, |t.attempts|);
    forall a | FreshTo(t, a, worker) ensures exists c :: c in OfferedCommands(t, worker, |t.attempts|) && OfferOf(t, a, c) {
      assert OfferOf(t, a, RunCommand(t, a));
    }
  }

  lemma CancelsAnswered(t: Server, worker: WorkerId)
    ensures var cancels := CancelCommands(t, worker, |t.attempts|);
            && (forall c :: c in cancels ==> c.CancelAttempt? && ToCancel(t, c.attemptId, worker))
            && (forall a: AttemptId :: ToCancel(t, a, worker) ==> CancelAttempt(a) in cancels)
  {
    CancelCommandsAreExact(t, worker, |t.attempts|);
  }

  /******* The queue *******/

  /** The candidates are ordered by priority, the highest first, then by age, then by identifier. */
  lemma UrgentFirst(s: Server, i: nat, k: nat)
    requires i < k < |Candidates(s)|
    ensures var a, b := Candidates(s)[i], Candidates(s)[k];
            || s.jobs[a].spec.priority > s.jobs[b].spec.priority
            || (s.jobs[a].spec.priority == s.jobs[b].spec.priority && s.jobs[a].createdAt < s.jobs[b].createdAt)
            || (s.jobs[a].spec.priority == s.jobs[b].spec.priority && s.jobs[a].createdAt == s.jobs[b].createdAt && a < b)
  {
    CandidatesAreSchedulable(s);
    assert Before(s.jobs, Candidates(s)[i], Candidates(s)[k]);
  }

  /** Queued, and no attempt in hand. */
  predicate Waits(s: Server, job: JobId) {
    job < |s.jobs| && s.jobs[job].state == JobQueued && !InHand(s.attempts, job)
  }

  lemma WaitsIsSchedulable(s: Server, job: JobId)
    requires job < |s.jobs|
    ensures Waits(s, job) <==> Schedulable(s, job)
  {
    assert HasLiveAttempt(s.attempts, job) <==> InHand(s.attempts, job);
  }

  /** Exactly waiting jobs are candidates, all of them or the first hundred. */
  lemma CandidatesWait(s: Server, job: JobId)
    ensures job in Candidates(s) ==> Waits(s, job)
    ensures Waits(s, job) && job !in Candidates(s) ==> |Candidates(s)| == 100
  {
    RankedIsTheQueue(s, |s.jobs|);
    CandidatesAreSchedulable(s);
    if job < |s.jobs| {
      WaitsIsSchedulable(s, job);
    }
    if job in Candidates(s) {
      var k :| 0 <= k < |Candidates(s)| && Candidates(s)[k] == job;
    }
  }

  lemma InEitherOrder(jobs: seq<Job>, ids: seq<JobId>, i: nat, k: nat)
    requires i < |ids| && k < |ids| && (forall m :: 0 <= m < |ids| ==> ids[m] < |jobs|) && InOrder(jobs, ids)
    ensures i < k ==> Before(jobs, ids[i], ids[k])
  {
  }

  /** A waiting job of greater priority than a candidate is a candidate ahead of it. */
  lemma UrgentIsAhead(s: Server, urgent: JobId, other: nat) returns (p: nat)
    requires Waits(s, urgent) && other < |Candidates(s)|
    requires s.jobs[urgent].spec.priority > s.jobs[Candidates(s)[other]].spec.priority
    ensures p < other && Candidates(s)[p] == urgent
  {
    RankedIsTheQueue(s, |s.jobs|);
    WaitsIsSchedulable(s, urgent);
    var ranked := Ranked(s, |s.jobs|);
    assert urgent in ranked;
    p :| 0 <= p < |ranked| && ranked[p] == urgent;
    assert Candidates(s)[other] == ranked[other];
    InEitherOrder(s.jobs, ranked, other, p);
  }

  /** Offering does not make room again. */
  lemma ParallelismIsUsedUp(s: Server, worker: WorkerId, declared: Capacity, p: nat, q: nat)
    requires Inv(s) && p <= q <= |Candidates(s)|
    requires CurrentAllocation(Examined(s, worker, declared, p), worker).active >= Normalize(declared).maxParallel
    ensures Examined(s, worker, declared, q) == Examined(s, worker, declared, p)
  {
    var c := Candidates(s);
    CandidatesAreSchedulable(s);
    assert c[..q] == c[..p] + c[p..q];
    OfferInTwoParts(s, worker, Normalize(declared), c[..p], c[p..q]);
  }

  /**
   The urgent job goes first.  If a job gets an attempt while a waiting job of greater priority gets none, that
   one did not fit beside what the worker held and what was offered ahead of it.
   */
  lemma UrgentGoesFirst(s: Server, worker: WorkerId, declared: Capacity, urgent: JobId, other: JobId)
    requires Inv(s) && Waits(s, urgent) && Waits(s, other) && s.jobs[urgent].spec.priority > s.jobs[other].spec.priority
    requires var t := OfferJobs(s, worker, declared); InHand(t.attempts, other) && !InHand(t.attempts, urgent)
    ensures exists p :: 0 <= p < |Candidates(s)| && Candidates(s)[p] == urgent &&
              !JobFits(s.jobs[urgent].spec, Normalize(declared), CurrentAllocation(Examined(s, worker, declared, p), worker))
  {
    hide Inv, JobFits, Candidates, OfferFrom, CurrentAllocation, Examined, Waits;
    var c, t := Candidates(s), OfferJobs(s, worker, declared);
    assert Waits(s, other) ==> !HasLiveAttempt(s.attempts, other) by {
      WaitsHasNone(s, other);
    }
    LiveIsInHand(t.attempts, other);
    LiveIsInHand(t.attempts, urgent);
    if other !in c {
      OnlyCandidatesAreOffered(s, worker, declared, other);
    }
    var q :| 0 <= q < |c| && c[q] == other;
    var p := UrgentIsAhead(s, urgent, q);
    OfferedIffItFitsInTurn(s, worker, declared, q);
    OfferedIffItFitsInTurn(s, worker, declared, p);
    if CurrentAllocation(Examined(s, worker, declared, p), worker).active >= Normalize(declared).maxParallel {
      ParallelismIsUsedUp(s, worker, declared, p, q);
    }
  }

  lemma LiveIsInHand(attempts: seq<Attempt>, job: JobId)
    ensures HasLiveAttempt(attempts, job) <==> InHand(attempts, job)
  {
  }

  lemma WaitsHasNone(s: Server, job: JobId)
    requires Waits(s, job)
    ensures !HasLiveAttempt(s.attempts, job)
  {
    LiveIsInHand(s.attempts, job);
  }

  lemma OnlyCandidatesAreOffered(s: Server, worker: WorkerId, declared: Capacity, job: JobId)
    requires job !in Candidates(s)
    ensures HasLiveAttempt(OfferJobs(s, worker, declared).attempts, job) <==> HasLiveAttempt(s.attempts, job)
  {
    OnlyListedAreOffered(s, worker, Normalize(declared), CurrentAllocation(s, worker), Candidates(s), job);
  }

  /******* Projects and labels *******/

  /** The worker advertises the project and has every label the job asks for, a missing label counting as empty. */
  predicate Advertised(spec: JobSpec, capacity: Capacity) {
    && (exists i :: 0 <= i < |capacity.projects| && capacity.projects[i] == spec.project)
    && forall name :: name in spec.labels ==>
         if name in capacity.labels then capacity.labels[name] == spec.labels[name] else spec.labels[name] == ""
  }

  lemma EligibleIsAdvertised(spec: JobSpec, capacity: Capacity)
    ensures Eligible(spec, capacity) <==> Advertised(spec, capacity)
  {
  }

  /** Every attempt of the worker is of a job it advertises. */
  predicate AllAdvertised(s: Server, worker: WorkerId, capacity: Capacity) {
    forall a :: 0 <= a < |s.attempts| && s.attempts[a].worker == worker ==> AdvertisedAt(s, a, capacity)
  }

  predicate AdvertisedAt(s: Server, a: int, capacity: Capacity)
    requires 0 <= a < |s.attempts|
  {
    s.attempts[a].job < |s.jobs| && Advertised(s.jobs[s.attempts[a].job].spec, capacity)
  }

  lemma EvolvedStaysAdvertised(s: Server, t: Server, worker: WorkerId, capacity: Capacity)
    requires Evolves(s, t) && |s.attempts| == |t.attempts| && AllAdvertised(s, worker, capacity)
    ensures AllAdvertised(t, worker, capacity)
  {
    forall a | 0 <= a < |t.attempts| && t.attempts[a].worker == worker ensures AdvertisedAt(t, a, capacity) {
      assert AttemptEvolvesAt(s, t, a) && AdvertisedAt(s, a, capacity);
      assert JobEvolvesAt(s, t, s.attempts[a].job);
    }
  }

  /** What is offered is advertised; other workers' attempts do not matter. */
  lemma {:induction false} OffersAreAdvertised(s: Server, w: WorkerId, capacity: Capacity, allocation: Allocation, ids: seq<JobId>, worker: WorkerId, declared: Capacity)
    requires forall k :: 0 <= k < |ids| ==> ids[k] < |s.jobs|
    requires AllAdvertised(s, worker, declared) && (w == worker ==> capacity == declared)
    ensures AllAdvertised(OfferFrom(s, w, capacity, allocation, ids), worker, declared)
    decreases |ids|
  {
    hide Advertised, JobFits;
    if |ids| > 0 && allocation.active < capacity.maxParallel {
      var spec := s.jobs[ids[0]].spec;
      if JobFits(spec, capacity, allocation) {
        var next := Offer(s, w, ids[0]);
        FittingIsAdvertised(spec, capacity, allocation);
        forall a | 0 <= a < |next.attempts| && next.attempts[a].worker == worker ensures AdvertisedAt(next, a, declared) {
          if a < |s.attempts| {
            assert AdvertisedAt(s, a, declared);
          }
        }
        OffersAreAdvertised(next, w, capacity, Occupy(allocation, spec.resources), ids[1..], worker, declared);
      } else {
        OffersAreAdvertised(s, w, capacity, allocation, ids[1..], worker, declared);
      }
    }
  }

  lemma FittingIsAdvertised(spec: JobSpec, capacity: Capacity, allocation: Allocation)
    requires JobFits(spec, capacity, allocation)
    ensures Advertised(spec, capacity)
  {
    EligibleIsAdvertised(spec, capacity);
  }

  /** Every sync of the worker declares this capacity. */
  predicate Declares(ops: seq<Op>, worker: WorkerId, declared: Capacity) {
    forall i :: 0 <= i < |ops| && ops[i].Sync? && ops[i].request.worker == worker ==> ops[i].request.capacity == declared
  }

  lemma DoKeepsAdvertised(s: Server, op: Op, worker: WorkerId, declared: Capacity)
    requires Inv(s) && AllAdvertised(s, worker, Normalize(declared))
    requires op.Sync? && op.request.worker == worker ==> op.request.capacity == declared
    ensures AllAdvertised(Do(s, op), worker, Normalize(declared))
  {
    hide Inv, Evolves, AllAdvertised, RecordAll, OfferFrom, Candidates, CurrentAllocation, Normalize;
    DoPreserves(s, op);
    if op.Sync? && SyncWorker(s, op.request).Ok? {
      var r := op.request;
      var m := RecordAll(s, r.worker, r.session, r.events).value;
      RecordAllPreserves(s, r.worker, r.session, r.events);
      RecordAllKeepsTables(s, r.worker, r.session, r.events);
      EvolvedStaysAdvertised(s, m, worker, Normalize(declared));
      OffersAreAdvertised(m, r.worker, Normalize(r.capacity), CurrentAllocation(m, r.worker), Candidates(m), worker, Normalize(declared));
    } else {
      EvolvedStaysAdvertised(s, Do(s, op), worker, Normalize(declared));
    }
  }

  lemma {:induction false} RunKeepsAdvertised(s: Server, ops: seq<Op>, worker: WorkerId, declared: Capacity)
    requires Inv(s) && AllAdvertised(s, worker, Normalize(declared)) && Declares(ops, worker, declared)
    ensures AllAdvertised(Run(s, ops), worker, Normalize(declared))
    decreases |ops|
  {
    hide Inv, AllAdvertised, Do;
    if |ops| > 0 {
      DoPreserves(s, ops[0]);
      DoKeepsAdvertised(s, ops[0], worker, declared);
      RunKeepsAdvertised(Do(s, ops[0]), ops[1..], worker, declared);
    }
  }

  /** Over every run, a worker that declares the same capacity throughout only gets jobs of its projects and labels. */
  lemma WorkersGetWhatTheyAdvertise(ops: seq<Op>, worker: WorkerId, declared: Capacity, a: AttemptId)
    requires Declares(ops, worker, declared)
    requires a < |Run(EMPTY, ops).attempts| && Run(EMPTY, ops).attempts[a].worker == worker
    ensures var s := Run(EMPTY, ops);
            s.attempts[a].job < |s.jobs| && Advertised(s.jobs[s.attempts[a].job].spec, declared)
  {
    EmptyInv();
    RunKeepsAdvertised(EMPTY, ops, worker, declared);
    assert AdvertisedAt(Run(EMPTY, ops), a, Normalize(declared));
  }
}
