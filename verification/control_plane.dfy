/**
 The control plane's database and its transactions, as functions from one state to the next.
 A transaction that fails yields an error and no state: everything it did is rolled back.
 */
module ControlPlane {
  import opened Wrappers
  import opened Domain
  import opened JobSpecs
  import opened Scheduler

  /** One recorded worker event; (worker, session, sequence) and the event's identifier are unique. */
  datatype LogEntry = LogEntry(worker: WorkerId, session: SessionId, event: WorkerEvent)

  /** One recorded metric sample; its row number is its position. */
  datatype Sample = Sample(attempt: AttemptId, eventId: EventId, sample: MetricSample)

  /** The request hash is injective, so the row keeps the specification itself. */
  datatype KeyRow = KeyRow(spec: JobSpec, job: JobId)

  datatype Server = Server(
    workers: set<WorkerId>, targets: set<string>, jobs: seq<Job>, attempts: seq<Attempt>,
    log: seq<LogEntry>, samples: seq<Sample>, keys: map<string, KeyRow>)

  const EMPTY := Server({}, {}, [], [], [], [], map[])

  datatype Error =
    | NotFound | MissingKey | InvalidSpec | UnknownTarget | IdempotencyConflict | InvalidTransition
    | IncompleteEvent | NoDuplicateRow | SequenceConflict | NotAssigned | WrongState
    | LogTailTooLong | ArtifactTooLong | NoArtifacts | UnnamedMetric | UndefinedMetric | UnknownEvent

  const MAX_INLINE := 65536
  const CANDIDATE_LIMIT := 100

  /******* Job submission and cancellation *******/

  datatype CreateResult = CreateResult(job: JobId, created: bool)

  predicate TargetsConfigured(spec: JobSpec, targets: set<string>) {
    forall i :: 0 <= i < |spec.health| ==> spec.health[i].target in targets
  }

  function CreateJob(s: Server, key: string, spec: JobSpec, now: int): Result<(Server, CreateResult), Error> {
    if key == "" then Err(MissingKey)
    else if !ValidSpec(spec) then Err(InvalidSpec)
    else if key in s.keys then
      if s.keys[key].spec != spec then Err(IdempotencyConflict)
      else if s.keys[key].job >= |s.jobs| then Err(NotFound)
      else Ok((s, CreateResult(s.keys[key].job, false)))
    else if !TargetsConfigured(spec, s.targets) then Err(UnknownTarget)
    else
      var id := |s.jobs|;
      Ok((s.(jobs := s.jobs + [Job(spec, JobQueued, 1, now)], keys := s.keys[key := KeyRow(spec, id)]),
          CreateResult(id, true)))
  }

  predicate HasLiveAttempt(attempts: seq<Attempt>, job: JobId) {
    exists a :: 0 <= a < |attempts| && attempts[a].job == job && Live(attempts[a].state)
  }

  function CancelJob(s: Server, job: JobId): Result<Server, Error> {
    if job >= |s.jobs| then Err(NotFound)
    else
      var row := s.jobs[job];
      if row.state.JobCanceled? || row.state.JobCanceling? then Ok(s)
      else if row.state.JobSucceeded? || row.state.JobFailed? then Err(InvalidTransition)
      else
        var target := if HasLiveAttempt(s.attempts, job) then JobCanceling else JobCanceled;
        Ok(s.(jobs := s.jobs[job := row.(state := target, revision := row.revision + 1)]))
  }

  /******* Recording worker events *******/

  /** The identifier recorded under (worker, session, sequence), if any. */
  function RecordedAt(log: seq<LogEntry>, worker: WorkerId, session: SessionId, sequence: nat): Option<EventId> {
    if |log| == 0 then None
    else
      var e := log[|log| - 1];
      if e.worker == worker && e.session == session && e.event.sequence == sequence then Some(e.event.eventId)
      else RecordedAt(log[..|log| - 1], worker, session, sequence)
  }

  predicate HasEventId(log: seq<LogEntry>, id: EventId) {
    exists i :: 0 <= i < |log| && log[i].event.eventId == id
  }

  function SetAttempt(s: Server, id: AttemptId, state: AttemptState): Server
    requires id < |s.attempts|
  {
    s.(attempts := s.attempts[id := s.attempts[id].(state := state, revision := s.attempts[id].revision + 1)])
  }

  function Started(s: Server, id: AttemptId, at: int): Server
    requires id < |s.attempts|
  {
    s.(attempts := s.attempts[id := s.attempts[id].(startedAt := Some(at))])
  }

  function SetJob(s: Server, id: JobId, state: JobState): Server
    requires id < |s.jobs|
  {
    s.(jobs := s.jobs[id := s.jobs[id].(state := state, revision := s.jobs[id].revision + 1)])
  }

  predicate ArtifactsFit(artifacts: seq<Artifact>) {
    forall i :: 0 <= i < |artifacts| ==> artifacts[i].contentLength <= MAX_INLINE
  }

  /** The states an attempt and its job move to when the attempt finishes. */
  function FinishStates(job: Job, number: nat, exitCode: int, error: string): (AttemptState, JobState) {
    if job.state.JobCanceling? || job.state.JobCanceled? then (AttemptCanceled, JobCanceled)
    else if exitCode == 0 && error == "" then (AttemptSucceeded, JobSucceeded)
    else if number < job.spec.maxAttempts then (AttemptFailed, JobQueued)
    else (AttemptFailed, JobFailed)
  }

  function ApplyWorkerEvent(s: Server, worker: WorkerId, event: WorkerEvent): Result<Server, Error> {
    var id := event.attemptId;
    if id >= |s.attempts| || s.attempts[id].worker != worker || s.attempts[id].job >= |s.jobs| then
      Err(NotAssigned)
    else
      var attempt := s.attempts[id];
      var job := s.jobs[attempt.job];
      match event.body
      case EventAccepted =>
        if !attempt.state.AttemptOffered? then Err(WrongState)
        else Ok(SetAttempt(s, id, AttemptAccepted))
      case EventStarted(at) =>
        if !attempt.state.AttemptAccepted? && !attempt.state.AttemptOffered? then Err(WrongState)
        else
          var started := Started(SetAttempt(s, id, AttemptRunning), id, at);
          Ok(if job.state.JobQueued? then SetJob(started, attempt.job, JobRunning) else started)
      case EventFinished(exitCode, error, logTailLength, artifacts) =>
        if !attempt.state.AttemptRunning? && !attempt.state.AttemptAccepted? then Err(WrongState)
        else if logTailLength > MAX_INLINE then Err(LogTailTooLong)
        else if !ArtifactsFit(artifacts) then Err(ArtifactTooLong)
        else
          var code := if exitCode.Some? then exitCode.value else -1;
          var (attemptState, jobState) := FinishStates(job, attempt.number, code, error);
          Ok(SetJob(SetAttempt(s, id, attemptState), attempt.job, jobState))
      case EventArtifacts(artifacts) =>
        if |artifacts| == 0 then Err(NoArtifacts)
        else if !ArtifactsFit(artifacts) then Err(ArtifactTooLong)
        else Ok(s)
      case EventMetric(sample) =>
        if sample.name == "" || sample.value.NonFinite? then Err(UnnamedMetric)
        else if !DefinedMetric(job.spec.metrics, sample.name, sample.value.v) then Err(UndefinedMetric)
        else Ok(s.(samples := s.samples + [Sample(id, event.eventId, sample)]))
      case EventUnknown => Err(UnknownEvent)
  }

  /** Insert unless a row conflicts; a conflicting row must be this very event, recorded in this session. */
  function RecordWorkerEvent(s: Server, worker: WorkerId, session: SessionId, event: WorkerEvent): Result<Server, Error> {
    if event.sequence == 0 then Err(IncompleteEvent)
    else
      var existing := RecordedAt(s.log, worker, session, event.sequence);
      if existing.Some? || HasEventId(s.log, event.eventId) then
        if existing.None? then Err(NoDuplicateRow)
        else if existing.value != event.eventId then Err(SequenceConflict)
        else Ok(s)
      else
        ApplyWorkerEvent(s.(log := s.log + [LogEntry(worker, session, event)]), worker, event)
  }

  function RecordAll(s: Server, worker: WorkerId, session: SessionId, events: seq<WorkerEvent>): Result<Server, Error>
    decreases |events|
  {
    if |events| == 0 then Ok(s)
    else
      var recorded :- RecordWorkerEvent(s, worker, session, events[0]);
      RecordAll(recorded, worker, session, events[1..])
  }

  /******* Offering work *******/

  predicate Schedulable(s: Server, job: JobId)
    requires job < |s.jobs|
  {
    s.jobs[job].state.JobQueued? && !HasLiveAttempt(s.attempts, job)
  }

  /** Queue order: priority descending, then creation key, then identifier. */
  predicate Before(jobs: seq<Job>, a: JobId, b: JobId)
    requires a < |jobs| && b < |jobs|
  {
    || jobs[a].spec.priority > jobs[b].spec.priority
    || (jobs[a].spec.priority == jobs[b].spec.priority &&
        (jobs[a].createdAt < jobs[b].createdAt || (jobs[a].createdAt == jobs[b].createdAt && a < b)))
  }

  function InsertRanked(jobs: seq<Job>, id: JobId, ranked: seq<JobId>): seq<JobId>
    requires id < |jobs| && forall k :: 0 <= k < |ranked| ==> ranked[k] < |jobs|
  {
    if |ranked| == 0 then [id]
    else if Before(jobs, id, ranked[0]) then [id] + ranked
    else [ranked[0]] + InsertRanked(jobs, id, ranked[1..])
  }

  /** The schedulable jobs among the first `n`, in queue order. */
  function Ranked(s: Server, n: nat): (ranked: seq<JobId>)
    requires n <= |s.jobs|
    ensures forall k :: 0 <= k < |ranked| ==> ranked[k] < |s.jobs|
  {
    if n == 0 then []
    else
      var rest := Ranked(s, n - 1);
      if Schedulable(s, n - 1) then
        InsertRankedInRange(s.jobs, n - 1, rest);
        InsertRanked(s.jobs, n - 1, rest)
      else rest
  }

  lemma {:induction false} InsertRankedInRange(jobs: seq<Job>, id: JobId, ranked: seq<JobId>)
    requires id < |jobs| && forall k :: 0 <= k < |ranked| ==> ranked[k] < |jobs|
    ensures forall k :: 0 <= k < |InsertRanked(jobs, id, ranked)| ==> InsertRanked(jobs, id, ranked)[k] < |jobs|
  {
    if |ranked| > 0 && !Before(jobs, id, ranked[0]) {
      InsertRankedInRange(jobs, id, ranked[1..]);
    }
  }

  /** At most a hundred candidates are examined. */
  function Candidates(s: Server): (c: seq<JobId>)
    ensures |c| <= CANDIDATE_LIMIT
    ensures forall k :: 0 <= k < |c| ==> c[k] < |s.jobs|
  {
    var ranked := Ranked(s, |s.jobs|);
    if |ranked| <= CANDIDATE_LIMIT then ranked else ranked[..CANDIDATE_LIMIT]
  }

  function Max(a: nat, b: nat): nat {
    if a < b then b else a
  }

  /** The largest attempt number of a job, 0 when it has none. */
  function MaxNumber(attempts: seq<Attempt>, job: JobId): nat {
    if |attempts| == 0 then 0
    else
      var before := MaxNumber(attempts[..|attempts| - 1], job);
      var last := attempts[|attempts| - 1];
      if last.job == job then Max(before, last.number) else before
  }

  function Offer(s: Server, worker: WorkerId, job: JobId): Server {
    s.(attempts := s.attempts + [Attempt(job, MaxNumber(s.attempts, job) + 1, worker, AttemptOffered, 1, None)])
  }

  function OfferFrom(s: Server, worker: WorkerId, capacity: Capacity, allocation: Allocation, candidates: seq<JobId>): Server
    requires forall k :: 0 <= k < |candidates| ==> candidates[k] < |s.jobs|
    decreases |candidates|
  {
    if |candidates| == 0 || allocation.active >= capacity.maxParallel then s
    else
      var spec := s.jobs[candidates[0]].spec;
      if !JobFits(spec, capacity, allocation) then OfferFrom(s, worker, capacity, allocation, candidates[1..])
      else
        OfferFrom(Offer(s, worker, candidates[0]), worker, capacity, Occupy(allocation, spec.resources), candidates[1..])
  }

  predicate Holds(s: Server, attempt: Attempt, worker: WorkerId) {
    attempt.worker == worker && Live(attempt.state) && attempt.job < |s.jobs|
  }

  /** What the attempts a worker may still be executing reserve. */
  function HeldResources(s: Server, worker: WorkerId, n: nat): seq<Resources>
    requires n <= |s.attempts|
  {
    if n == 0 then []
    else
      var a := s.attempts[n - 1];
      if Holds(s, a, worker) then HeldResources(s, worker, n - 1) + [s.jobs[a.job].spec.resources]
      else HeldResources(s, worker, n - 1)
  }

  function CurrentAllocation(s: Server, worker: WorkerId): Allocation {
    Tally(HeldResources(s, worker, |s.attempts|))
  }

  function OfferJobs(s: Server, worker: WorkerId, declared: Capacity): Server {
    var capacity := Normalize(declared);
    OfferFrom(s, worker, capacity, CurrentAllocation(s, worker), Candidates(s))
  }

  /******* The response *******/

  function RunCommand(s: Server, id: AttemptId): WorkerCommand
    requires id < |s.attempts| && s.attempts[id].job < |s.jobs|
  {
    var a := s.attempts[id];
    var job := s.jobs[a.job];
    RunJob(id, id, a.number, a.job, job.state, job.revision, job.spec)
  }

  /** Every offer the worker has not accepted yet is sent again. */
  function OfferedCommands(s: Server, worker: WorkerId, n: nat): seq<WorkerCommand>
    requires n <= |s.attempts|
  {
    if n == 0 then []
    else
      var a := s.attempts[n - 1];
      OfferedCommands(s, worker, n - 1) +
      if a.worker == worker && a.state.AttemptOffered? && a.job < |s.jobs| then [RunCommand(s, n - 1)] else []
  }

  /** Every live attempt of a job that is to be canceled gets a cancel command. */
  function CancelCommands(s: Server, worker: WorkerId, n: nat): seq<WorkerCommand>
    requires n <= |s.attempts|
  {
    if n == 0 then []
    else
      var a := s.attempts[n - 1];
      CancelCommands(s, worker, n - 1) +
      if Holds(s, a, worker) && (s.jobs[a.job].state.JobCanceling? || s.jobs[a.job].state.JobCanceled?)
      then [CancelAttempt(n - 1)] else []
  }

  /** The largest sequence recorded for the worker in this session. */
  function AcceptedThrough(log: seq<LogEntry>, worker: WorkerId, session: SessionId): nat {
    if |log| == 0 then 0
    else
      var before := AcceptedThrough(log[..|log| - 1], worker, session);
      var e := log[|log| - 1];
      if e.worker == worker && e.session == session then Max(before, e.event.sequence) else before
  }

  function Respond(s: Server, worker: WorkerId, session: SessionId): SyncResponse {
    SyncResponse(worker, AcceptedThrough(s.log, worker, session),
      OfferedCommands(s, worker, |s.attempts|) + CancelCommands(s, worker, |s.attempts|))
  }

  /** The whole sync transaction. */
  function SyncWorker(s: Server, request: SyncRequest): Result<(Server, SyncResponse), Error> {
    if request.worker !in s.workers then Err(NotFound)
    else
      var recorded :- RecordAll(s, request.worker, request.session, request.events);
      var offered := OfferJobs(recorded, request.worker, request.capacity);
      Ok((offered, Respond(offered, request.worker, request.session)))
  }
}
