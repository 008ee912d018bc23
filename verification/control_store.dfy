/** The control plane's store, updating its tables in place inside transactions that roll back on error. */
module ControlStore {
  import opened Wrappers
  import opened Domain
  import opened JobSpecs
  import opened Scheduler
  import opened ControlPlane

  class Store {
    var workers: set<WorkerId>
    var targets: set<string>
    var jobs: seq<Job>
    var attempts: seq<Attempt>
    var log: seq<LogEntry>
    var samples: seq<Sample>
    var keys: map<string, KeyRow>

    function State(): Server
      reads this
    {
      Server(workers, targets, jobs, attempts, log, samples, keys)
    }

    constructor ()
      ensures State() == EMPTY
    {
      workers, targets, jobs, attempts, log, samples, keys := {}, {}, [], [], [], [], map[];
    }

    /******* Submission and cancellation *******/

    /** Each distinct target is looked up once. */
    method CheckTargets(policies: seq<HealthPolicy>) returns (ok: bool)
      ensures ok <==> forall i :: 0 <= i < |policies| ==> policies[i].target in targets
    {
      var checked: set<string> := {};
      var i := 0;
      while i < |policies|
        invariant 0 <= i <= |policies|
        invariant forall name :: name in checked ==> name in targets
        invariant forall k :: 0 <= k < i ==> policies[k].target in checked
      {
        if policies[i].target !in checked {
          if policies[i].target !in targets {
            return false;
          }
          checked := checked + {policies[i].target};
        }
        i := i + 1;
      }
      return true;
    }

    method CreateJob(key: string, spec: JobSpec, now: int) returns (r: Result<CreateResult, Error>)
      modifies this
      ensures match ControlPlane.CreateJob(old(State()), key, spec, now)
              case Ok(after) => r == Ok(after.1) && State() == after.0
              case Err(e) => r == Err(e) && State() == old(State())
    {
      if key == "" {
        return Err(MissingKey);
      }
      var valid := Validate(spec);
      if !valid {
        return Err(InvalidSpec);
      }
      if key in keys {
        if keys[key].spec != spec {
          return Err(IdempotencyConflict);
        }
        if keys[key].job >= |jobs| {
          return Err(NotFound);
        }
        return Ok(CreateResult(keys[key].job, false));
      }
      var configured := CheckTargets(spec.health);
      if !configured {
        return Err(UnknownTarget);
      }
      var id := |jobs|;
      jobs := jobs + [Job(spec, JobQueued, 1, now)];
      keys := keys[key := KeyRow(spec, id)];
      return Ok(CreateResult(id, true));
    }

    /** SELECT COUNT(*) of the attempts a worker may still be executing. */
    method CountLive(job: JobId) returns (live: nat)
      ensures live > 0 <==> HasLiveAttempt(attempts, job)
    {
      live := 0;
      var i := 0;
      while i < |attempts|
        invariant 0 <= i <= |attempts|
        invariant live > 0 <==> exists a :: 0 <= a < i && attempts[a].job == job && Live(attempts[a].state)
      {
        if attempts[i].job == job && Live(attempts[i].state) {
          live := live + 1;
        }
        i := i + 1;
      }
    }

    method CancelJob(job: JobId) returns (r: Result<(), Error>)
      modifies `jobs
      ensures match ControlPlane.CancelJob(old(State()), job)
              case Ok(after) => r == Ok(()) && State() == after
              case Err(e) => r == Err(e) && State() == old(State())
    {
      if job >= |jobs| {
        return Err(NotFound);
      }
      var row := jobs[job];
      if row.state.JobCanceled? || row.state.JobCanceling? {
        return Ok(());
      }
      if row.state.JobSucceeded? || row.state.JobFailed? {
        return Err(InvalidTransition);
      }
      var live := CountLive(job);
      var target := JobCanceled;
      if live > 0 {
        target := JobCanceling;
      }
      jobs := jobs[job := row.(state := target, revision := row.revision + 1)];
      return Ok(());
    }

    /******* Recording events *******/

    method UpdateAttempt(id: AttemptId, state: AttemptState)
      requires id < |attempts|
      modifies `attempts
      ensures State() == SetAttempt(old(State()), id, state)
    {
      attempts := attempts[id := attempts[id].(state := state, revision := attempts[id].revision + 1)];
    }

    method UpdateJob(id: JobId, state: JobState)
      requires id < |jobs|
      modifies `jobs
      ensures State() == SetJob(old(State()), id, state)
    {
      jobs := jobs[id := jobs[id].(state := state, revision := jobs[id].revision + 1)];
    }

    method CheckArtifacts(artifacts: seq<Artifact>) returns (ok: bool)
      ensures ok == ArtifactsFit(artifacts)
    {
      for i := 0 to |artifacts|
        invariant forall k :: 0 <= k < i ==> artifacts[k].contentLength <= MAX_INLINE
      {
        if artifacts[i].contentLength > MAX_INLINE {
          return false;
        }
      }
      return true;
    }

    /** Runs inside the sync transaction: after an error the caller rolls back. */
    method FinishAttempt(id: AttemptId, exitCode: Option<int>, error: string, logTailLength: nat, artifacts: seq<Artifact>)
      returns (r: Result<(), Error>)
      requires id < |attempts| && attempts[id].job < |jobs|
      modifies this
      ensures match ApplyWorkerEvent(old(State()), old(attempts[id].worker),
                      WorkerEvent(1, EventId(0, 0), id, EventFinished(exitCode, error, logTailLength, artifacts)))
              case Ok(after) => r == Ok(()) && State() == after
              case Err(e) => r == Err(e)
    {
      var state, number, job := attempts[id].state, attempts[id].number, attempts[id].job;
      if !state.AttemptRunning? && !state.AttemptAccepted? {
        return Err(WrongState);
      }
      var code := -1;
      if exitCode.Some? {
        code := exitCode.value;
      }
      if logTailLength > MAX_INLINE {
        return Err(LogTailTooLong);
      }
      var attemptState, nextJobState := AttemptFailed, JobFailed;
      if jobs[job].state.JobCanceling? || jobs[job].state.JobCanceled? {
        attemptState, nextJobState := AttemptCanceled, JobCanceled;
      } else if code == 0 && error == "" {
        attemptState, nextJobState := AttemptSucceeded, JobSucceeded;
      } else if number < jobs[job].spec.maxAttempts {
        nextJobState := JobQueued;
      }
      UpdateAttempt(id, attemptState);
      UpdateJob(job, nextJobState);
      var fit := CheckArtifacts(artifacts);
      if !fit {
        return Err(ArtifactTooLong);
      }
      return Ok(());
    }

    /** Runs inside the sync transaction: after an error the caller rolls back. */
    method ApplyEvent(worker: WorkerId, event: WorkerEvent) returns (r: Result<(), Error>)
      modifies this
      ensures match ApplyWorkerEvent(old(State()), worker, event)
              case Ok(after) => r == Ok(()) && State() == after
              case Err(e) => r == Err(e)
    {
      var id := event.attemptId;
      if id >= |attempts| || attempts[id].worker != worker || attempts[id].job >= |jobs| {
        return Err(NotAssigned);
      }
      var state, job := attempts[id].state, attempts[id].job;
      match event.body {
        case EventAccepted =>
          if !state.AttemptOffered? {
            return Err(WrongState);
          }
          UpdateAttempt(id, AttemptAccepted);
        case EventStarted(at) =>
          if !state.AttemptAccepted? && !state.AttemptOffered? {
            return Err(WrongState);
          }
          UpdateAttempt(id, AttemptRunning);
          attempts := attempts[id := attempts[id].(startedAt := Some(at))];
          if jobs[job].state.JobQueued? {
            UpdateJob(job, JobRunning);
          }
        case EventFinished(exitCode, error, logTailLength, artifacts) =>
          r := FinishAttempt(id, exitCode, error, logTailLength, artifacts);
          return r;
        case EventArtifacts(artifacts) =>
          if |artifacts| == 0 {
            return Err(NoArtifacts);
          }
          var fit := CheckArtifacts(artifacts);
          if !fit {
            return Err(ArtifactTooLong);
          }
        case EventMetric(sample) =>
          if sample.name == "" || sample.value.NonFinite? {
            return Err(UnnamedMetric);
          }
          if !DefinedMetric(jobs[job].spec.metrics, sample.name, sample.value.v) {
            return Err(UndefinedMetric);
          }
          samples := samples + [Sample(id, event.eventId, sample)];
        case EventUnknown =>
          return Err(UnknownEvent);
      }
      return Ok(());
    }

    /** INSERT OR IGNORE INTO worker_events. */
    method InsertEvent(worker: WorkerId, session: SessionId, event: WorkerEvent) returns (inserted: bool)
      modifies `log
      ensures inserted <==> RecordedAt(old(log), worker, session, event.sequence).None? && !HasEventId(old(log), event.eventId)
      ensures log == if inserted then old(log) + [LogEntry(worker, session, event)] else old(log)
    {
      var existing := FindEvent(worker, session, event.sequence);
      if existing.Some? || exists i :: 0 <= i < |log| && log[i].event.eventId == event.eventId {
        return false;
      }
      log := log + [LogEntry(worker, session, event)];
      return true;
    }

    /** SELECT event_id WHERE worker, session and sequence match; the last match, as there is at most one. */
    method FindEvent(worker: WorkerId, session: SessionId, sequence: nat) returns (found: Option<EventId>)
      ensures found == RecordedAt(log, worker, session, sequence)
    {
      found := None;
      var i := 0;
      while i < |log|
        invariant 0 <= i <= |log| && found == RecordedAt(log[..i], worker, session, sequence)
      {
        assert log[..i + 1][..i] == log[..i];
        if log[i].worker == worker && log[i].session == session && log[i].event.sequence == sequence {
          found := Some(log[i].event.eventId);
        }
        i := i + 1;
      }
      assert log[..i] == log;
    }

    method RecordEvent(worker: WorkerId, session: SessionId, event: WorkerEvent) returns (r: Result<(), Error>)
      modifies this
      ensures match RecordWorkerEvent(old(State()), worker, session, event)
              case Ok(after) => r == Ok(()) && State() == after
              case Err(e) => r == Err(e)
    {
      if event.sequence == 0 {
        return Err(IncompleteEvent);
      }
      var inserted := InsertEvent(worker, session, event);
      if !inserted {
        var existing := FindEvent(worker, session, event.sequence);
        if existing.None? {
          return Err(NoDuplicateRow);
        }
        if existing.value != event.eventId {
          return Err(SequenceConflict);
        }
        return Ok(());
      }
      r := ApplyEvent(worker, event);
    }

    /******* Offering *******/

    /** The allocation recomputed from the attempts table. */
    method ReadAllocation(worker: WorkerId) returns (allocation: ResourceAllocation)
      ensures fresh(allocation) && allocation.Value() == CurrentAllocation(State(), worker)
    {
      allocation := new ResourceAllocation();
      var i := 0;
      while i < |attempts|
        invariant 0 <= i <= |attempts| && fresh(allocation)
        invariant allocation.Value() == Tally(HeldResources(State(), worker, i))
      {
        if Holds(State(), attempts[i], worker) {
          ghost var held := HeldResources(State(), worker, i);
          ghost var more := HeldResources(State(), worker, i + 1);
          assert more[..|more| - 1] == held;
          allocation.Add(jobs[attempts[i].job].spec.resources);
          allocation.CountActive();
        }
        i := i + 1;
      }
    }

    /** SELECT MAX(attempt_number). */
    method NextNumber(job: JobId) returns (number: nat)
      ensures number == MaxNumber(attempts, job) + 1
    {
      var largest := 0;
      var i := 0;
      while i < |attempts|
        invariant 0 <= i <= |attempts| && largest == MaxNumber(attempts[..i], job)
      {
        assert attempts[..i + 1][..i] == attempts[..i];
        if attempts[i].job == job && attempts[i].number > largest {
          largest := attempts[i].number;
        }
        i := i + 1;
      }
      assert attempts[..i] == attempts;
      number := largest + 1;
    }

    /** INSERT INTO attempts, and the running allocation grows with it. */
    method InsertOffer(worker: WorkerId, job: JobId, allocation: ResourceAllocation)
      requires job < |jobs|
      modifies `attempts, allocation
      ensures State() == Offer(old(State()), worker, job)
      ensures allocation.Value() == Occupy(old(allocation.Value()), jobs[job].spec.resources)
    {
      var number := NextNumber(job);
      attempts := attempts + [Attempt(job, number, worker, AttemptOffered, 1, None)];
      allocation.Add(jobs[job].spec.resources);
      allocation.CountActive();
    }

    /** The greedy loop, with one running allocation. */
    method OfferJobs(worker: WorkerId, declared: Capacity)
      modifies `attempts
      ensures State() == ControlPlane.OfferJobs(old(State()), worker, declared)
    {
      var capacity := Normalize(declared);
      var allocation := ReadAllocation(worker);
      if allocation.active >= capacity.maxParallel {
        return;
      }
      var candidates := Candidates(State());
      var i := 0;
      while i < |candidates| && allocation.active < capacity.maxParallel
        invariant 0 <= i <= |candidates| && fresh(allocation)
        invariant jobs == old(jobs) && forall k :: 0 <= k < |candidates| ==> candidates[k] < |jobs|
        invariant OfferFrom(old(State()), worker, capacity, CurrentAllocation(old(State()), worker), candidates) ==
                  OfferFrom(State(), worker, capacity, allocation.Value(), candidates[i..])
      {
        var job := candidates[i];
        assert candidates[i..][0] == job && candidates[i..][1..] == candidates[i + 1..];
        var fits := allocation.Fits(jobs[job].spec, capacity);
        if fits {
          InsertOffer(worker, job, allocation);
        }
        i := i + 1;
      }
    }

    /******* The response *******/

    method ListOffered(worker: WorkerId) returns (commands: seq<WorkerCommand>)
      ensures commands == OfferedCommands(State(), worker, |attempts|)
    {
      commands := [];
      for i := 0 to |attempts|
        invariant commands == OfferedCommands(State(), worker, i)
      {
        if attempts[i].worker == worker && attempts[i].state.AttemptOffered? && attempts[i].job < |jobs| {
          commands := commands + [RunCommand(State(), i)];
        }
      }
    }

    method ListCancels(worker: WorkerId) returns (commands: seq<WorkerCommand>)
      ensures commands == CancelCommands(State(), worker, |attempts|)
    {
      commands := [];
      for i := 0 to |attempts|
        invariant commands == CancelCommands(State(), worker, i)
      {
        var a := attempts[i];
        if Holds(State(), a, worker) && (jobs[a.job].state.JobCanceling? || jobs[a.job].state.JobCanceled?) {
          commands := commands + [CancelAttempt(i)];
        }
      }
    }

    /** SELECT MAX(sequence) of this worker and session. */
    method ReadAccepted(worker: WorkerId, session: SessionId) returns (through: nat)
      ensures through == AcceptedThrough(log, worker, session)
    {
      through := 0;
      var i := 0;
      while i < |log|
        invariant 0 <= i <= |log| && through == AcceptedThrough(log[..i], worker, session)
      {
        assert log[..i + 1][..i] == log[..i];
        if log[i].worker == worker && log[i].session == session && log[i].event.sequence > through {
          through := log[i].event.sequence;
        }
        i := i + 1;
      }
      assert log[..i] == log;
    }

    /** The events of a request in order; after an error the caller rolls back. */
    method RecordEvents(worker: WorkerId, session: SessionId, events: seq<WorkerEvent>) returns (r: Result<(), Error>)
      modifies this
      ensures match RecordAll(old(State()), worker, session, events)
              case Ok(after) => r == Ok(()) && State() == after
              case Err(e) => r == Err(e)
    {
      var i := 0;
      while i < |events|
        invariant 0 <= i <= |events|
        invariant RecordAll(old(State()), worker, session, events) == RecordAll(State(), worker, session, events[i..])
      {
        assert events[i..][0] == events[i] && events[i..][1..] == events[i + 1..];
        var one := RecordEvent(worker, session, events[i]);
        if one.Err? {
          return one;
        }
        i := i + 1;
      }
      return Ok(());
    }

    method SyncWorker(request: SyncRequest) returns (r: Result<SyncResponse, Error>)
      modifies this
      ensures match ControlPlane.SyncWorker(old(State()), request)
              case Ok(after) => r == Ok(after.1) && State() == after.0
              case Err(e) => r == Err(e) && State() == old(State())
    {
      if request.worker !in workers {
        return Err(NotFound);
      }
      var workers0, targets0, jobs0, attempts0, log0, samples0, keys0 := workers, targets, jobs, attempts, log, samples, keys;
      var recorded := RecordEvents(request.worker, request.session, request.events);
      if recorded.Err? {
        workers, targets, jobs, attempts, log, samples, keys := workers0, targets0, jobs0, attempts0, log0, samples0, keys0;
        return Err(recorded.error);
      }
      OfferJobs(request.worker, request.capacity);
      var commands := ListOffered(request.worker);
      var cancels := ListCancels(request.worker);
      var through := ReadAccepted(request.worker, request.session);
      return Ok(SyncResponse(request.worker, through, commands + cancels));
    }
  }
}
