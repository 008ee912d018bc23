/**
 The scheduler's entities: jobs, attempts, worker capacity, the events a worker
 reports and the commands the control plane sends.

 Rows are identified by their position in their table, which makes every
 identifier fresh when it is issued.  A run command has the identifier of the
 attempt it offers.
 */
module Domain {
  import opened Wrappers

  const TWO32 := 0x1_0000_0000
  const TWO64 := 0x1_0000_0000_0000_0000
  type uint32 = x: int | 0 <= x < 0x1_0000_0000
  type uint64 = x: int | 0 <= x < 0x1_0000_0000_0000_0000

  type WorkerId = nat
  type JobId = nat
  type AttemptId = nat
  type CommandId = nat
  type SessionId = nat

  datatype JobState =
    | JobQueued | JobRunning | JobSucceeded | JobFailed | JobCanceling | JobCanceled

  datatype AttemptState =
    | AttemptOffered | AttemptAccepted | AttemptRunning
    | AttemptSucceeded | AttemptFailed | AttemptCanceled

  /** The states in which a worker may still be executing the attempt. */
  predicate Live(state: AttemptState) {
    state.AttemptOffered? || state.AttemptAccepted? || state.AttemptRunning?
  }

  predicate TerminalJob(state: JobState) {
    state.JobSucceeded? || state.JobFailed? || state.JobCanceled?
  }

  datatype GpuSharing = GpuExclusive | GpuShared
  datatype GpuRequest = GpuRequest(count: uint32, sharing: GpuSharing)
  datatype Resources = Resources(cpu: uint32, memoryBytes: uint64, gpus: seq<GpuRequest>)

  datatype MetricFormat = FormatNumber | FormatPercent | FormatBytes
  datatype MetricDefinition = MetricDefinition(name: string, format: MetricFormat)

  datatype HealthKind = KindMetricStalled | KindPeriodic | KindFinished
  datatype HealthMode = ModeMax | ModeMin

  /** `window` is in nanoseconds; a window that does not parse is 0. */
  datatype HealthPolicy = HealthPolicy(
    kind: HealthKind, metric: string, mode: HealthMode, window: int, minimumDelta: real, target: string)

  datatype JobSpec = JobSpec(
    project: string, priority: int, labels: map<string, string>, resources: Resources,
    maxAttempts: uint32, metrics: seq<MetricDefinition>, health: seq<HealthPolicy>)

  /** `createdAt` is an abstract ordered key. */
  datatype Job = Job(spec: JobSpec, state: JobState, revision: nat, createdAt: int)

  datatype Attempt = Attempt(
    job: JobId, number: nat, worker: WorkerId, state: AttemptState, revision: nat, startedAt: Option<int>)

  datatype Capacity = Capacity(
    cpu: uint32, memoryBytes: uint64, gpuCount: uint32, gpuSharedSlots: uint32,
    maxParallel: uint32, labels: map<string, string>, projects: seq<string>)

  datatype Value = Finite(v: real) | NonFinite
  datatype MetricSample = MetricSample(name: string, value: Value, step: Option<int>, observedAt: int)
  datatype Artifact = Artifact(name: string, uri: string, contentLength: nat)

  /** A worker-chosen identifier, unique over all workers: who enqueued, and its how-manieth event. */
  datatype EventId = EventId(origin: WorkerId, serial: nat)

  datatype EventBody =
    | EventAccepted
    | EventStarted(at: int)
    | EventFinished(exitCode: Option<int>, error: string, logTailLength: nat, artifacts: seq<Artifact>)
    | EventArtifacts(artifacts: seq<Artifact>)
    | EventMetric(sample: MetricSample)
    | EventUnknown

  datatype WorkerEvent = WorkerEvent(sequence: nat, eventId: EventId, attemptId: AttemptId, body: EventBody)

  /** A run command carries the job row as it was read, state and revision included. */
  datatype WorkerCommand =
    | RunJob(commandId: CommandId, attemptId: AttemptId, attemptNumber: nat,
             job: JobId, jobState: JobState, jobRevision: nat, spec: JobSpec)
    | CancelAttempt(attemptId: AttemptId)
    | UnknownCommand

  datatype SyncRequest = SyncRequest(worker: WorkerId, session: SessionId, capacity: Capacity, events: seq<WorkerEvent>)
  datatype SyncResponse = SyncResponse(worker: WorkerId, acceptedThrough: nat, commands: seq<WorkerCommand>)

  /** A run command before the k-th command is about the attempt. */
  predicate OfferedEarlier(commands: seq<WorkerCommand>, k: int, attempt: AttemptId) {
    exists e :: 0 <= e < k && e < |commands| && commands[e].RunJob? && commands[e].attemptId == attempt
  }

  /** No run command is repeated. */
  predicate RunOnce(commands: seq<WorkerCommand>) {
    forall i, k :: 0 <= i < k < |commands| && commands[i].RunJob? && commands[k].RunJob? ==>
      commands[i].commandId != commands[k].commandId
  }
}
