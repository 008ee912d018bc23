# The long-compute job scheduler, verified

A Dafny model of the durable part of the scheduler: the control plane's store, the worker's store, the sync
protocol between them over an unreliable network, the greedy scheduler, and the timed and incremental readers
around them. `dafny verify dfyconfig.toml` checks everything.

## What is modelled

**Two databases and what updates them.** `ControlStore.Store` and `WorkerStore.Store` are classes over the
tables (jobs, attempts, worker events, metric samples, idempotency keys; commands and outbox), with the loops,
branches and rollbacks of the transactions. Each method is proved equal to a function on table values
(`ControlPlane`, `WorkerDb`); the theorems are about those functions. What each transaction does to the rows is
stated once more, field by field and without those functions' own helpers (`ControlEffects`, `WorkerEffects`). `WorkerStore.Agent` holds the order of a
cycle: events are read, the response's commands are stored, and only then is anything acknowledged.

**The system.** `Protocol.System` is one control plane, any number of workers, and every request and response
ever sent. Messages are never removed, so they may be lost, repeated, delayed and reordered; any step may be
taken at any time, so an agent may stop between any two transactions and start again under a new session. The
worker's database is durable. `Protocol.ReachableInv` carries the invariant over every run from the empty system;
`Guarantees`, `Progress`, `Outcomes` and `Causes` draw the promises from it. A worker's session is a number that grows with
every start; identifiers are positions in their tables, hence fresh; an event's identifier is its worker and its
sequence, hence unique over all workers. A run command carries the job's state and revision as the stored JSON
does; the job's other fields in it change only together with the revision.

**The scheduler.** The allocation is kept in machine words, as in the source, beside the exact sums; the two agree
under a condition that is shown to be necessary (`Scheduler.FitIsExactIff`).

**Around them.** Reading a metrics file that is still written, polling a series with a cursor, health firings over
runs of the control plane and the stall test, webhook retries, timestamps as text, and browser sessions.

## Where the code and its documentation part

Five promises do not hold of the code as they are written. The code was followed; each has the exact condition
under which the promise holds, for all inputs, and an input on which it fails.

- `README.md:74-75` of the repository promises that worker events survive restarts, are delivered at least once and
  applied idempotently, and `internal/worker/agent.go:166-167` that repeating either side of the exchange is
  harmless. The duplicate test looks only inside the current session
  (`internal/store/sqlite/workers.go:161`), so a batch recorded under one session and sent again by the next is
  refused, and with it every later sync (`Witness.ResentBatchIsRefused`, `Progress.LostResponseWedgesForEver`). A request
  is accepted exactly when its oldest event was not recorded by an earlier session and the new contents pass
  (`Progress.FreshRequestAcceptedIff`). Nothing is lost or repeated either way.
- A repeated offer must equal the stored one, but it embeds the job's state and revision. When a job is canceled
  while its acceptance is more than a batch of 1000 events back in the outbox, the next answer repeats the offer
  changed, and the worker refuses it together with the cancel it carries; nothing is acknowledged, so it is the same
  ever after (`Progress.CancelWedgesForEver`, and `Backlog.CanceledDuringBacklog` on a concrete run). The answer to
  a fresh request can be stored exactly when every command about which nothing is recorded or in the batch still has
  its job untouched (`Progress.FreshResponseStorableIff`). A cycle that gets through removes its whole batch at any backlog
  (`Progress.CycleRemovesItsBatch`); with the whole outbox in one batch it always gets through
  (`Progress.CycleDrainsTheOutbox`).
- The fit test adds in 32 and 64 bits and can wrap (`Scheduler.WrappedRequestOvercommits`); it decides like
  exact arithmetic on every list of attempts within the capacity exactly when request and capacity together stay
  below the word size or the guards refuse the job whatever the worker holds (`Scheduler.FitIsExactIff`).
- The timestamps of most columns drop trailing zeros, and are misordered by the database exactly when the earlier
  fraction is a prefix of the later one's within a second (`Timestamps.TrimmedMisordersIff`). The fixed-width
  format of the session table is an order embedding (`Timestamps.SortableIsChronological`), and every field can
  be read back from its place in the text (`TimestampLayout.SortableReadsBack`); the calendar behind both has
  years of 366 days exactly in leap years (`TimestampLayout.YearLength`).
- `docs/health-hooks.md:41-42` promises a periodic notification after every completed interval. The code fires the
  interval an evaluation falls into and never an earlier one: interval b has fired exactly if some evaluation found
  the attempt running between b and b + 1 windows after its start and came as far as the policy
  (`HealthRuns.IntervalFiresIff`); two evaluations 20 seconds apart skip one (`Health.IntervalIsSkipped`).

A smaller one: a stall policy whose minimum delta is zero never fires (`Stall.StalledMeans`). Leases, the
lost-worker policy and `retry_wait` are documented but not implemented, and are not modelled.

## Model

| member | source | states |
|---|---|---|
| Protocol.ReachableInv | internal/worker/agent.go:130-182 | the system invariant (lifecycle, tracking of every attempt by its worker's recorded events, worker rows against histories, sessions in order, every message in flight well-formed) holds after any steps, under loss, repetition, reordering and restarts |
| Protocol.NextPreserves | internal/store/sqlite/workers.go:87-138 | every step keeps the system invariant, job and attempt rows evolve forward only, the log only grows, and worker rows and files only move on |
| Guarantees.OneUnfinishedCommandPerJob | internal/worker/store.go:105-167 | over all workers a job has at most one unfinished command, and it is the job's one live attempt |
| Guarantees.UnfinishedAtMostActive | internal/store/sqlite/workers.go:451-475 | a worker never has more unfinished commands than the attempts the scheduler counts for it |
| Guarantees.ExecutionWithinCapacity | internal/store/sqlite/workers.go:372-449 | under the same conditions, unfinished commands never exceed max_parallel (zero means one), and one holding a GPU exclusively is the only one holding any |
| Guarantees.ServerRunsAlone | internal/store/sqlite/workers.go:87-138 | the control plane inside a system run is the control plane run alone on the delivered requests, so all its theorems hold inside the system |
| Guarantees.RecordedInOrderNothingLost | internal/worker/store.go:328-368 | what is recorded of a worker is a prefix of everything it enqueued, once each, in order; what is not recorded is still in the outbox |
| Guarantees.AcknowledgementIsSafe | internal/worker/store.go:370-378 | any response ever sent, however stale, makes the worker drop a prefix of its outbox holding only recorded events |
| Guarantees.RecordsOnlyGrow | internal/store/sqlite/workers.go:140-170 | redelivered and stale requests never change or reorder what is recorded of a worker |
| Guarantees.WorkerStreams | internal/worker/store.go:157-298 | every attempt's event stream is a prefix of accepted (started (metric or artifacts)*)? finished, with at most one start |
| Guarantees.StoredSamplesArePrefixOfFile | internal/worker/executor.go:349-408 | the samples stored for an attempt are, in order and once each, a prefix of the well-formed samples on the complete lines of its metrics file |
| Guarantees.IngestionIsExact | internal/worker/store.go:302-326 | the stored offset is always a line boundary and the samples enqueued are exactly those before it |
| Guarantees.WorkersRunWhatWasSubmitted | internal/store/sqlite/workers.go:524-563 | a worker's command carries the submitted specification and its attempt's job and number |
| Progress.FreshRequestAcceptedIff | internal/store/sqlite/workers.go:140-170 | a request sent now is accepted exactly when its oldest event was not recorded by an earlier session and its new events pass the content checks |
| Progress.LostResponseWedges | internal/store/sqlite/workers.go:159-168 | when a batch was recorded, its response lost and the agent restarted, every later sync is refused until an earlier response arrives |
| Progress.LostResponseWedgesForEver | internal/worker/agent.go:130-182 | in the agent's own order, where only the answer to the last request is handled, that is for ever |
| Witness.ResentBatchIsRefused | internal/store/sqlite/workers.go:161-163 | the same on a concrete run from the empty system |
| Progress.BadEventBlocksTheRest | internal/store/sqlite/workers.go:312-318 | an event that fails the content checks is never recorded, nor is anything its worker enqueued after it |
| Progress.ResponseStorableIff | internal/worker/store.go:132-156 | a response can be stored exactly when no run command in it differs from the one already stored |
| Progress.FreshResponseStorableIff | internal/worker/store.go:132-156 | the response to a request sent now can be stored exactly when, before the call, every command about which nothing is recorded and nothing is in the batch still has its job in the state and revision it was offered with |
| Progress.CycleRemovesItsBatch | internal/worker/agent.go:134-173 | at any backlog, once the sync was accepted and its response stored, acknowledging leaves the end of the outbox without any event of the batch, and all that is gone is recorded |
| Progress.CycleDrainsTheOutbox | internal/worker/agent.go:134-173 | with the whole outbox in one batch, its head not stuck and contents valid, the cycle succeeds: everything is recorded, the response can be stored, and only the new acceptances remain |
| Progress.CancelDuringBacklogWedges | internal/worker/store.go:147-156 | when a job is canceled whose acceptance lies more than a batch back in the outbox, every later fresh request that is accepted is answered with the cancel and an offer the worker refuses, until an earlier response arrives |
| Progress.CancelWedgesForEver | internal/worker/agent.go:130-182 | in the agent's own order, where only the answer to the last request is handled, that is for ever |
| Backlog.CanceledDuringBacklog | internal/worker/agent.go:130-182 | the same on a concrete run from the empty system in the agent's own order: a running job announces 2000 results unheard, a second job is offered, stored and canceled, and the next answer is refused with its cancel |
| Progress.EverySyncRepeatsCancels | internal/store/sqlite/workers.go:565-594 | every response carries a cancel exactly for the live attempts the worker holds on canceling or canceled jobs |
| Progress.CancelStopsTheCommand | internal/worker/store.go:111-178 | once a response with a cancel is stored, the command is marked or finished for ever, and never starts running if it was not |
| Causes.OnlyCanceledAreStopped | internal/worker/store.go:115-125 | over every run, a worker's command is marked for stopping only if the job of that very attempt was canceled |
| Outcomes.OutcomesAreReported | internal/store/sqlite/workers.go:219-250 | over every run, a succeeded attempt has a recorded report of exit code 0 without error, a failed one a report that is not that, a canceled one a report on a canceled job |
| Outcomes.SucceededMeansExitZero | internal/worker/store.go:246-273 | a succeeded attempt's own worker enqueued a finish event with exit code 0 and no error |
| Causes.EveryEventIsCaused | internal/worker/store.go:105-298 | over every run, every event a worker enqueued was caused by a step of its own that says the same: a stored offer, a launch at that time, a process end with that exit code, error, log tail and artifacts, an announcement, a metrics line |
| Causes.AttemptsEndAsTheirProcess | internal/store/sqlite/workers.go:219-250 | over every run, an attempt succeeds only if the process on its own worker returned zero without error, fails only if it returned something else, and is canceled only on a canceled job |
| Causes.StartTimeIsLaunchTime | internal/store/sqlite/workers.go:200-214 | over every run, an attempt's start time is the time at which its worker launched it |
| Exchange.SyncBatch | internal/store/sqlite/workers.go:87-138 | a sync of consecutive events succeeds exactly when every one is acceptable; then the batch is recorded in this session, other workers' records are untouched, and the response acknowledges and names only what it may |
| Exchange.RecordBatch | internal/store/sqlite/workers.go:110-114 | a batch is recorded exactly when each event is either new with valid contents or was recorded in this very session |
| Exchange.RespondIsOk | internal/store/sqlite/workers.go:118-137 | a response acknowledges only recorded events, offers each attempt once, and never cancels an attempt the worker cannot know |
| Exchange.AcceptedThroughIsMax | internal/store/sqlite/workers.go:127-130 | the acknowledgement is the largest sequence recorded in the session |
| Exchange.OfferedCommandsAreOffers | internal/store/sqlite/workers.go:524-563 | the run commands are exactly the worker's offered attempts with their job rows |
| Exchange.CancelCommandsAreExact | internal/store/sqlite/workers.go:570-594 | the cancels are exactly those of the live attempts on jobs to be canceled |
| Tracking.RecordNext | internal/store/sqlite/workers.go:172-329 | a worker's next event is accepted exactly when its contents pass, whatever cancellations and other attempts did in between: no state guard ever rejects it |
| Tracking.RecordOld | internal/store/sqlite/workers.go:159-168 | an event recorded before is accepted exactly when this session recorded it, and changes nothing |
| Tracking.GuardsFollowPhase | internal/store/sqlite/workers.go:193-222 | the state guards let through exactly the events an attempt's phase allows |
| Tracking.DuplicateTest | internal/store/sqlite/migrations/0007_session_scoped_event_sequences.sql:10-16 | the uniqueness constraints recognise exactly the recorded events, and sessions keep sequences apart |
| SessionLog.InSessionByPosition | internal/store/sqlite/workers.go:161-163 | a session recorded a sequence exactly when the event at that position was recorded under it |
| Streams.StreamsAreInLanguage | internal/worker/store.go:157-298 | histories whose every event was allowed have, per attempt, a stream of the language, and its end is the attempt's phase |
| Streams.LanguageIsAllowed | internal/worker/store.go:157-298 | conversely, streams of the language are allowed event by event |
| Nodes.AcceptKeepsNode | internal/worker/store.go:105-167 | storing a response keeps history, rows, phases, offsets and outbox consistent, and new rows come from its run commands |
| Nodes.RunCommandsHaveRows | internal/worker/store.go:132-162 | every run command of a stored response has its row |
| Nodes.CancelsTakeEffect | internal/worker/store.go:115-125 | a cancel marks the attempt's row if the worker had one or the same response brought it |
| Nodes.AcceptSucceedsIff | internal/worker/store.go:136-156 | storing succeeds exactly when every run command already stored is unchanged |
| Nodes.AcknowledgeIsExact | internal/worker/store.go:370-378 | acknowledging through a sequence keeps exactly the events after it |
| Nodes.IngestKeepsNode | internal/worker/executor.go:363-406 | one line read moves the offset to the next line and enqueues exactly that line's sample, atomically |
| Nodes.IngestAll | internal/worker/executor.go:349-408 | reading to the end enqueues exactly the well-formed samples on the complete lines of the file |
| MetricFile.ReadLineIsExact | internal/worker/executor.go:363-406 | a line is taken or skipped from boundary to boundary, accounting for exactly that line; a partial line is never consumed |
| WorkerStore.Store.AcceptCommands | internal/worker/store.go:105-167 | the transaction's loop computes the specified new tables, or fails and changes nothing |
| WorkerStore.Store.RequestCancel | internal/worker/store.go:119-124 | marks exactly the unfinished rows of the attempt |
| WorkerStore.Store.MarkStarted | internal/worker/store.go:219-244 | a pending command runs and its start is enqueued with it, else an error and no change |
| WorkerStore.Store.MarkFinished | internal/worker/store.go:246-273 | an unfinished command finishes and its report is enqueued with it, else an error and no change |
| WorkerStore.Store.AnnounceArtifacts | internal/worker/store.go:277-298 | only a running command announces artifacts |
| WorkerStore.Store.EnqueueMetric | internal/worker/store.go:309-326 | the sample and the offset behind it are stored together |
| WorkerStore.Store.Events | internal/worker/store.go:344-368 | the oldest events, at most a thousand |
| WorkerStore.Store.Acknowledge | internal/worker/store.go:370-378 | drops the events up to the sequence |
| WorkerStore.Agent.IngestMetrics | internal/worker/executor.go:349-408 | the line loop computes the specified tables and fails only at a line that is too long |
| WorkerStore.Agent.HandleResponse | internal/worker/agent.go:166-173 | nothing is acknowledged unless the commands were stored |
| WorkerStore.Agent.FinishCanceled | internal/worker/executor.go:192-201 | the pending commands whose cancellation was requested, all or a thousand of them, are finished with one report each and no start, and no other row changes |
| WorkerStore.Agent.Launch | internal/worker/executor.go:84-111 | a command either starts, or is recorded as started and failed at once |
| WorkerEffects.CancelEffect | internal/worker/store.go:115-125 | a cancel marks the unfinished rows of its own attempt; every other row and the outbox stay as they were |
| WorkerEffects.NewCommandEffect | internal/worker/store.go:132-162 | a command the worker does not know brings one unmarked pending row and its acceptance |
| WorkerEffects.KnownCommandEffect | internal/worker/store.go:147-156 | a command it knows changes nothing if it is the same, and fails otherwise |
| WorkerEffects.OnlyNamedAreMarked | internal/worker/store.go:105-167 | storing a response marks a row only if some cancel in it names the row's own attempt, and changes no known row in any other way |
| WorkerEffects.StartEffect | internal/worker/store.go:219-244 | a pending command runs, and the report carries its attempt and the time |
| WorkerEffects.FinishEffect | internal/worker/store.go:246-273 | an unfinished command finishes, and the report carries its attempt, exit code, error, log tail and artifacts as returned |
| WorkerEffects.AnnounceEffect | internal/worker/store.go:277-298 | a running command's artifacts are reported as they are, and nothing else changes |
| WorkerEffects.MetricEffect | internal/worker/store.go:309-326 | a sample is reported for the command's attempt, with the offset behind it stored in its row and nothing else changed |
| ControlStore.Store.SyncWorker | internal/store/sqlite/workers.go:87-138 | the transaction computes the specified tables and response, or fails and changes nothing |
| ControlStore.Store.RecordEvent | internal/store/sqlite/workers.go:140-170 | insert or recognise a duplicate of this session, else an error |
| ControlStore.Store.ApplyEvent | internal/store/sqlite/workers.go:172-329 | each kind of event updates attempt, job and samples as specified, or is an error |
| ControlStore.Store.FinishAttempt | internal/store/sqlite/workers.go:219-270 | the finish branch sets the attempt and writes the job row unguarded, as specified |
| ControlStore.Store.OfferJobs | internal/store/sqlite/workers.go:372-449 | the greedy loop with its running allocation offers what the specification offers |
| ControlStore.Store.ReadAllocation | internal/store/sqlite/workers.go:451-475 | the allocation recomputed from the attempts table |
| ControlStore.Store.ListOffered | internal/store/sqlite/workers.go:524-563 | one run command per offered attempt of the worker |
| ControlStore.Store.ListCancels | internal/store/sqlite/workers.go:570-594 | one cancel per live attempt of the worker on a job to be canceled |
| ControlStore.Store.CreateJob | internal/store/sqlite/store.go:165-263 | the transaction computes the specified tables and answer, or fails and changes nothing |
| ControlStore.Store.CancelJob | internal/store/sqlite/store.go:269-319 | the transaction computes the specified job row, or fails and changes nothing |
| ControlEffects.CreateEffect | internal/store/sqlite/store.go:165-263 | a submission under a new key adds one queued row with that specification and time, exactly if it is valid and its targets are configured; a bound key answers with its job or a conflict |
| ControlEffects.TargetConfiguredIff | internal/store/sqlite/health.go:262-266 | over every run a webhook target is configured exactly if it was configured and has not been revoked since |
| ControlEffects.CancelAnswers | internal/store/sqlite/store.go:269-319 | a cancel takes a queued or running job to canceling exactly when an attempt is in hand, to canceled otherwise, with the revision one higher; it repeats without effect, and is refused once the job has succeeded or failed |
| ControlEffects.CancelIsHeeded | internal/store/sqlite/store.go:269-319 | after any run, a job whose cancel was not refused is canceling or canceled from then on, whatever happens, and gets no further attempt; one whose cancel was refused stays as it is |
| ControlEffects.RecordEffect | internal/store/sqlite/workers.go:140-170 | an event whose slot and identifier are unused joins the log and is applied; otherwise nothing changes, and it is taken for recorded or refused by what its slot holds |
| ControlEffects.AppliedIff | internal/store/sqlite/workers.go:172-329 | an event is applied exactly if it is about an attempt of that worker in a state in which it makes sense, and its contents are within 64 KiB, finite and declared |
| ControlEffects.StartedEffect | internal/store/sqlite/workers.go:200-218 | a start is stored with the time the event carries; a queued job runs, any other job stays as it is |
| ControlEffects.AcceptedEffect | internal/store/sqlite/workers.go:194-199 | an acceptance takes an offered attempt to accepted with its revision one higher, and changes nothing else |
| ControlEffects.FinishedEffect | internal/store/sqlite/workers.go:219-250 | how attempt and job end, by the job's cancellation, the exit code and error, and the retry budget, and that no other row changes |
| ControlEffects.OtherEffects | internal/store/sqlite/workers.go:286-328 | a sample is stored for its attempt under its event, announcing artifacts leaves jobs and attempts alone, and an unknown kind of event is never applied |
| ControlEffects.StartTimeIsReported | internal/store/sqlite/workers.go:200-214 | over every run, an attempt's start time is t exactly if its worker's report of a start at t was recorded |
| ControlEffects.OfferEffect | internal/store/sqlite/workers.go:372-449 | offering only adds fresh offers to that worker, of listed jobs, and touches nothing else |
| ControlEffects.AnswerEffect | internal/store/sqlite/workers.go:87-138 | the answer acknowledges the session's largest recorded sequence, and holds exactly the worker's offered attempts with their rows and the cancels of what it may execute on jobs to be canceled |
| ControlEffects.HeldIsExact | internal/store/sqlite/workers.go:451-475 | what counts as held is what the jobs of exactly the worker's offered, accepted and running attempts asked for, each once |
| Lifecycle.ApplyPreserves | internal/store/sqlite/workers.go:193-250 | every event keeps the relation between a job's row and its attempts, and moves rows forward only |
| Lifecycle.OfferJobsPreserves | internal/store/sqlite/workers.go:386-441 | so does offering, whose attempt numbers read back with MAX are the next ones |
| Lifecycle.RankedIsTheQueue | internal/store/sqlite/workers.go:386-396 | the queue holds exactly the schedulable jobs, in its strict order |
| ControlEffects.UrgentFirst | internal/store/sqlite/workers.go:386-396 | of two candidates the earlier has the greater priority, or the same and is older, or the same age and the smaller identifier |
| ControlEffects.CandidatesWait | internal/store/sqlite/workers.go:386-396 | exactly queued jobs without an attempt in hand are candidates, all of them or the first hundred |
| ControlEffects.UrgentGoesFirst | internal/store/sqlite/workers.go:386-448 | if a job gets an attempt while a waiting job of greater priority gets none, that one did not fit beside what was held and offered ahead of it |
| Runs.RunPreserves | internal/store/sqlite/workers.go:172-329 | the lifecycle invariant over every run with arbitrary worker events |
| Runs.LiveAttemptsByJobState | internal/store/sqlite/store.go:284-308 | at most one live attempt per job; queued jobs have none running, running jobs have a running one, canceling jobs a live one, terminal jobs none |
| Runs.RetryAccounting | internal/store/sqlite/workers.go:237-242 | attempts are numbered 1..n with n within the budget; failed means the budget is used up and all failed; succeeded means only the last did; a schedulable job has budget |
| Runs.RevisionBound | internal/store/sqlite/workers.go:248-250 | a job's revision never exceeds 2 * max_attempts + 2 |
| Runs.EveryJobSettles | internal/store/sqlite/workers.go:215-250 | over a run of any length a job's row changes at most that often |
| Runs.TerminalForever | internal/store/sqlite/workers.go:248-250 | though the finish update is unguarded, a terminal job and its attempts never change again |
| Runs.CancelWins | internal/store/sqlite/workers.go:232-236 | from canceling a job can only become canceled, and gets no further attempt |
| Runs.SubmitOncePerKey | internal/store/sqlite/store.go:182-198 | after anything else happened, a key answers with its job and no change, or refuses another specification; there are as many jobs as keys |
| Runs.RunKeepsSpecs | internal/store/sqlite/store.go:165-171 | every job in every reachable state has a specification that passed validation |
| Runs.SubmissionAcceptedIff | internal/store/sqlite/store.go:165-218 | exactly when a submission is accepted, and what it then creates or returns |
| CapacityPromises.CapacityIsRespected | internal/store/sqlite/workers.go:490-522 | with a fixed capacity, and only jobs submitted that meet the condition of `Scheduler.FitIsExactIff`, every run keeps active attempts, CPU, memory and shared slots within what was declared, and exclusive GPUs exclusive |
| CapacityPromises.IncrementalIsRecomputed | internal/store/sqlite/workers.go:445-446 | the running allocation is the one recomputed over the new attempts |
| CapacityPromises.OfferInTwoParts | internal/store/sqlite/workers.go:416-447 | offering with the running allocation is offering in parts with the allocation recomputed in between |
| CapacityPromises.OfferedIffItFitsInTurn | internal/store/sqlite/workers.go:416-422 | a candidate gets an attempt exactly when it fits beside what is held and offered to those ahead of it |
| CapacityPromises.NoExaminedJobStillFits | internal/store/sqlite/workers.go:416-448 | when offering ends, parallelism is used up or no examined job left waiting fits |
| ControlEffects.WorkersGetWhatTheyAdvertise | internal/store/sqlite/workers.go:490-500 | over every run, a worker that declares the same capacity throughout only gets jobs of its projects whose every label it has, a missing label counting as empty |
| Scheduler.NormalizedMeans | internal/store/sqlite/workers.go:372-385 | zero parallelism means one, zero shared slots mean one slot per GPU, and everything else is as declared |
| Scheduler.WrappingIsModulo | internal/store/sqlite/workers.go:478-485 | the words' addition is addition modulo their size |
| Scheduler.TallyIsWrappedLoad | internal/store/sqlite/workers.go:477-488 | the machine-word record is the exact load reduced to words |
| Scheduler.TallyIgnoresRowOrder | internal/store/sqlite/workers.go:452-474 | the order in which the rows are read does not matter |
| Scheduler.FitsIsAdmits | internal/store/sqlite/workers.go:490-522 | under that condition and for a load within the capacity, the fit test decides like the exact rule |
| Scheduler.AdmitsKeepsWithin | internal/store/sqlite/workers.go:490-522 | admission keeps every capacity promise, given the validated positive GPU counts |
| Scheduler.FitIsAntitone | internal/store/sqlite/workers.go:490-522 | a job that does not fit a load does not fit a larger one |
| Scheduler.FitIsExactIff | internal/store/sqlite/workers.go:477-522 | for any job, the fit test on the code's own record agrees with exact arithmetic for every list of attempts within the capacity if and only if request and declared capacity together stay below the word size, for CPU, memory and shared GPU slots alike, or the guards refuse the job whatever the worker holds |
| Scheduler.WrappedRequestOvercommits | internal/store/sqlite/workers.go:501-503 | an input outside it: beside an attempt that holds one of four processors, the wrapped sum admits four thousand million more |
| Scheduler.ResourceAllocation.Add | internal/store/sqlite/workers.go:477-488 | the loop adds a request to the record as specified |
| Scheduler.ResourceAllocation.Fits | internal/store/sqlite/workers.go:490-522 | the test with its two running totals decides as specified |
| JobSpecs.Validate | internal/domain/job.go:203-381 | the validation loop accepts exactly the specifications that meet the requirements the invariants rest on |
| JobSpecs.SpecIsValidIff | internal/domain/job.go:203-381 | those requirements, spelled out |
| JobSpecs.PolicyIsValidIff | internal/domain/job.go:340-381 | and those on a health policy: a window of ten seconds to thirty days, or none for a finished policy |
| JobSpecs.AutomaticSeries | internal/domain/job.go:137-150 | the automatic series and their formats |
| JobSpecs.DefinedMetricIsMembership | internal/store/sqlite/workers.go:331-345 | for an accepted specification a value is admitted exactly when some declared or automatic definition has its name and scale |
| MetricCursor.ListJobMetricPoints | internal/store/sqlite/metrics.go:24-54 | the row loop returns the job's points, observation time included, after the cursor, and the last row read |
| MetricCursor.PollingIsTheFullRead | internal/store/sqlite/metrics.go:20-54 | for any interleaving of operations and polls, what the polls returned is the full read up to the last cursor, and one more poll completes it |
| MetricCursor.PointsAreRows | internal/store/sqlite/metrics.go:24-54 | a read shows, in row order and once each, the name, attempt number, step, value and time of the rows of `RowsFor` |
| MetricCursor.RowsAreExact | internal/store/sqlite/metrics.go:24-54 | which are exactly the rows of the range that are samples of the job's attempts |
| Stall.MetricStalled | internal/store/sqlite/health.go:160-211 | true exactly when the window has two samples and none improves on the earliest by the delta; the reported delta is the largest improvement, never negative |
| Stall.StalledMeans | internal/store/sqlite/health.go:196-210 | the same in words: the delta must be positive, and no later sample may rise above the earliest by it, or fall below it when minimizing |
| Stall.WindowIsExact | internal/store/sqlite/health.go:180-187 | the window holds exactly the rows from the cutoff on |
| Stall.MinIsMaxOfNegation | internal/store/sqlite/health.go:196-209 | minimizing a series is maximizing its negation |
| Stall.StallIgnoresRowOrder | internal/store/sqlite/health.go:192-192 | with distinct timestamps the row order does not matter |
| Health.HealthStore.EvaluateHealthPolicies | internal/store/sqlite/health.go:77-158 | the nested loops fire what the specification fires, stopping at the first unknown target with earlier firings kept |
| Health.HealthStore.FirePolicy | internal/store/sqlite/health.go:232-296 | a firing and its delivery are inserted together, once per key |
| Health.OneFiringPerKey | internal/store/sqlite/migrations/0005_health_hooks.sql:10-21 | over every run each key has one firing and each firing one delivery |
| Health.ReevaluationFiresNothing | internal/store/sqlite/health.go:270-283 | evaluating again at the same instant fires nothing and changes nothing |
| Health.FiredIff | internal/store/sqlite/health.go:116-157 | after an evaluation, completed or aborted, a key has fired exactly if it had before, or is due and its own target and those of all dues before it are configured |
| Health.FiredExactly | internal/store/sqlite/health.go:116-157 | over every run a key has fired exactly if some evaluation listed the attempt, came as far as the policy and found it due under that key, or the attempt finished while the target was configured |
| Health.PeriodicFiresIff | internal/store/sqlite/health.go:125-131 | a periodic policy has fired for interval b exactly if some evaluation that came as far as the policy fell into that interval |
| Health.IntervalIsSkipped | docs/health-hooks.md:41-54 | evaluated 5 and 25 seconds after its start, a running attempt with a 10-second policy is never reported for its first completed interval |
| HealthRuns.CandidatesAreRunning | internal/store/sqlite/health.go:79-84 | the candidate query lists exactly the running attempts of running jobs, as started and with their job's policies |
| HealthRuns.EvaluateNow | internal/store/sqlite/health.go:77-158 | an evaluation on the control plane's own tables fires what the specification fires |
| HealthRuns.IntervalFiresIff | internal/store/sqlite/health.go:125-131 | over every run of the control plane: a periodic policy has fired for its attempt's b-th interval exactly if some evaluation found the attempt running between b and b + 1 windows after the start its worker reported and came as far |
| HealthRuns.PeriodicAtMostOncePerWindow | internal/store/sqlite/health.go:125-131 | over every run of the control plane a periodic policy has at most floor(elapsed / window) firings since the reported start, and none without one |
| HealthRuns.StallFiresIff | internal/store/sqlite/health.go:132-144 | over every run of the control plane a stall policy has fired exactly if some evaluation found the attempt running a whole window after its reported start, the metric stalled in the samples stored then, and came as far as the policy |
| HealthRuns.StallAtMostOnce | internal/store/sqlite/health.go:132-144 | over every run of the control plane a stall policy fires at most once per attempt, and not before a whole window |
| HealthRuns.FinishedFiresIff | internal/store/sqlite/workers.go:271-284 | over every run of the control plane a finished policy has fired exactly if the attempt has ended, whatever its outcome, in a transaction at which the target was configured |
| HealthRuns.FiringsGoToTheirTarget | internal/store/sqlite/health.go:262-289 | over every run every firing and its delivery go to the target named by that policy of the attempt's job |
| HealthRuns.ReadingsAreRows | internal/store/sqlite/health.go:161-164 | what a stall policy reads are the values and times of the attempt's samples of that name, in row order |
| Webhook.Deliveries.RecordResult | internal/store/sqlite/health.go:325-364 | the transaction with its capped, doubling wait writes the specified row |
| Webhook.DeliveredOrDead | internal/store/sqlite/health.go:339-351 | over every sequence of results: delivered exactly when one of the first ten is a 2xx without error, dead exactly when there were ten and none is, never more than ten attempts |
| Webhook.SettledForGood | internal/store/sqlite/health.go:339-341 | a delivered or dead delivery is never written again |
| Webhook.BackoffDoubles | internal/store/sqlite/health.go:352-355 | failure n waits 5 * 2^(n-1) seconds and the hour's cap never binds within ten attempts |
| Webhook.TenthAttempt | internal/store/sqlite/health.go:347-358 | the waits before the tenth attempt total 2555 seconds |
| Webhook.DueDeliveries | internal/store/sqlite/health.go:298-323 | the due deliveries in order, and one is left out only when the list is full of earlier ones |
| Timestamps.SortableIsChronological | internal/store/sqlite/auth.go:17-17 | comparing fixed-width timestamps as strings is comparing instants, and the format is injective |
| TimestampLayout.SortableReadsBack | internal/store/sqlite/auth.go:17-17 | the text has thirty characters, and the decimal read at each place of the layout is that field of the time |
| Timestamps.FieldsOrderInstants | internal/store/sqlite/auth.go:143-145 | the calendar fields order times as their instants do |
| Timestamps.TrimmedMisordersIff | internal/store/sqlite/store.go:394-396 | the trimmed format misorders two times exactly when they share the second and the earlier fraction is a prefix of the later |
| Timestamps.TrimmedMisorders | internal/store/sqlite/store.go:394-396 | for instance a whole second and the millisecond after it |
| BrowserSessions.SessionTable.Create | internal/store/sqlite/auth.go:77-104 | expired rows are removed and the session is added, or nothing changes |
| BrowserSessions.SessionTable.Authenticate | internal/store/sqlite/auth.go:106-133 | succeeds exactly for a live row of an unrevoked token |
| BrowserSessions.CreatedMeans | internal/store/sqlite/auth.go:77-104 | a session is created exactly with a token, a long enough secret that no live session uses and an expiry to come, and everything expired is gone |
| BrowserSessions.RefusedIff | internal/store/sqlite/auth.go:106-133 | a session is refused exactly if there is none under the secret, its expiry has come, or its token is revoked |
| BrowserSessions.SessionLivesUntilExpiry | internal/store/sqlite/auth.go:91-115 | a session authenticates exactly until its expiry and while its token is not revoked, whatever happens to other sessions meanwhile |

## Left out

- The HTTP API, pages, authentication headers, enrollment, worker tokens, the control events table and the artifact rows: plumbing and presentation.
- Processes, signals, git, file copying and hashing: a process exit is any finish step; hashes are injective and stand for what they hash.
- A process may start twice, since it is started before its start is recorded (`internal/worker/executor.go:79-84`); what is proved at most once is the recorded start.
- Leases, lost workers, `retry_wait` and checkpoint resume: not implemented by the code.
- Mid-run artifact suppression, the resource sampler and the grace period of a cancel: an announcement or a finish may happen at any time instead.
- The order of offered and pending commands and, except for canceled ones, the limits on listing them: any step may be taken for any row.
- JobSpecs.Validate: does not model the slug, pattern, length, source, checkpoint, artifact and reference-line checks, which no invariant needs.
- Capacity changes between syncs: the capacity theorems are for a fixed capacity; everything else holds for any.
- Wiping a worker's database, which the durability of the protocol assumes away.
- Blank identifiers, JSON encoding and decoding, and a failing database: rows are values and transactions succeed or return the errors modelled.
- Lines written between the last ingestion and the finish of a command are not read by the code either; the file theorems are about prefixes.
- WorkerStore.Agent.IngestMetrics: a line decodes to the same sample whenever it is read; the code stamps the current time on one without an observation time (`internal/worker/executor.go:397-399`), which would make the samples of a file depend on when each line was read.
- WorkerStore.Agent.Launch: the choice between starting and failing is a parameter, because it depends on the file system.
- Stall.MetricStalled: among equally early samples the first row counts as earliest, where the code's sort may pick any; order independence is proved for distinct timestamps, over exact reals.
- Webhook.DueDeliveries: compares instants, where the database compares trimmed timestamps and can misorder within one second.
- Queue age is an abstract ordered key for the same reason.
- Health firings caused by finished attempts are stored by `HealthRuns`, beside the sync that ends the attempt, since they never change jobs or attempts.
- ControlStore.Store.ApplyEvent: does not store artifact rows, control events and the git state of a start, which nothing in the store reads back to decide anything.
- ControlStore.Store.FinishAttempt: does not store artifact rows, control events, log and error texts; the finished firing of the same branch is `HealthRuns.FinishedFiresIff`.
- Health.HealthStore.FirePolicy: does not model the payload, the job's identifier, which is the attempt's, and the control event; the firing is identified by its unique key.
- Health.HealthStore.EvaluateHealthPolicies: takes candidates and readings as arguments; `HealthRuns.EvaluateNow` reads them from the tables. Candidates are ordered by position, where the code orders by random identifiers.
