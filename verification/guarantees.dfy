/**
 What the protocol guarantees in every reachable state: no attempt runs twice, nothing a worker reports
 is lost, repeated or reordered, a cancel always gets through, and exactly when an exchange makes progress.
 */
module Guarantees {
  import opened Wrappers
  import opened Domain
  import opened JobSpecs
  import opened Scheduler
  import opened ControlPlane
  import opened Lifecycle
  import opened Runs
  import opened CapacityPromises
  import MetricFile
  import opened WorkerDb
  import opened Streams
  import opened Tracking
  import opened SessionLog
  import opened Exchange
  import opened Nodes
  import opened Protocol

  /******* Execution is exclusive *******/

  /** The worker may still execute the command. */
  predicate OpenAt(sys: System, w: WorkerId, c: CommandId) {
    w in sys.nodes && c in sys.nodes[w].db.rows && Unfinished(sys.nodes[w].db.rows[c])
  }

  /** An unfinished command is a live attempt of its worker on its job. */
  lemma OpenIsLive(decode: Decoder, sys: System, w: WorkerId, c: CommandId)
    requires SysInv(decode, sys) && OpenAt(sys, w, c)
    ensures c < |sys.server.attempts| && Holds(sys.server, sys.server.attempts[c], w)
    ensures sys.nodes[w].db.rows[c].command.RunJob?
    ensures sys.server.attempts[c].job == sys.nodes[w].db.rows[c].command.job
  {
    var n := sys.nodes[w];
    assert NodeInv(decode, sys.server, w, n) && RowOwned(sys.server, w, n.db.rows, c) && PhaseAgrees(n, c);
    assert TrackedAt(sys.server, c);
    assert RecordedBy(sys.server.log, w) <= Hist(sys)[w];
    StillHeardOf(RecordedBy(sys.server.log, w), n.history, c);
  }

  /**
   Over all workers, a job has at most one unfinished command anywhere, and it is the job's one live
   attempt: no two workers, and no worker twice, may be executing the same job.
   */
  lemma OneUnfinishedCommandPerJob(decode: Decoder, steps: seq<Step>, w1: WorkerId, c1: CommandId, w2: WorkerId, c2: CommandId)
    requires var sys := Exec(decode, START, steps); OpenAt(sys, w1, c1) && OpenAt(sys, w2, c2)
    ensures var sys := Exec(decode, START, steps);
            var command1, command2 := sys.nodes[w1].db.rows[c1].command, sys.nodes[w2].db.rows[c2].command;
            && command1.RunJob? && command2.RunJob?
            && LiveAttemptOf(sys.server, c1, command1.job)
            && (command1.job == command2.job ==> w1 == w2 && c1 == c2)
  {
    var sys := Exec(decode, START, steps);
    ReachableInv(decode, steps);
    OpenIsLive(decode, sys, w1, c1);
    OpenIsLive(decode, sys, w2, c2);
    var command1 := sys.nodes[w1].db.rows[c1].command;
    LiveAttemptsByView(sys.server, command1.job);
    assert LiveAttemptOf(sys.server, c1, command1.job);
    if command1.job == sys.nodes[w2].db.rows[c2].command.job {
      assert LiveAttemptOf(sys.server, c2, command1.job);
    }
  }

  function OpenCommands(sys: System, w: WorkerId): set<CommandId> {
    if w in sys.nodes then set c | c in sys.nodes[w].db.rows && Unfinished(sys.nodes[w].db.rows[c]) else {}
  }

  lemma {:induction false} HeldAtLeast(s: Server, w: WorkerId, n: nat, held: set<AttemptId>)
    requires n <= |s.attempts| && forall a :: a in held ==> a < n && Holds(s, s.attempts[a], w)
    ensures |held| <= |HeldResources(s, w, n)|
  {
    if n == 0 {
      assert held == {};
    } else {
      HeldAtLeast(s, w, n - 1, held - {n - 1});
      assert n - 1 !in held ==> held - {n - 1} == held;
    }
  }

  /** A worker never has more unfinished commands than the attempts the scheduler counts against it. */
  lemma UnfinishedAtMostActive(decode: Decoder, steps: seq<Step>, w: WorkerId)
    ensures var sys := Exec(decode, START, steps);
            |OpenCommands(sys, w)| <= |HeldResources(sys.server, w, |sys.server.attempts|)|
  {
    var sys := Exec(decode, START, steps);
    ReachableInv(decode, steps);
    forall c | c in OpenCommands(sys, w) ensures c < |sys.server.attempts| && Holds(sys.server, sys.server.attempts[c], w) {
      OpenIsLive(decode, sys, w, c);
    }
    HeldAtLeast(sys.server, w, |sys.server.attempts|, OpenCommands(sys, w));
  }

  /******* The control plane inside the system runs as it does alone *******/

  /** The operation of the control plane that a step of the system amounts to, if any. */
  function OpsOf(sys: System, step: Step): seq<Op> {
    match step
    case Enroll(w) => [AddWorker(w)]
    case Admin(op) => if op.Sync? || op.AddWorker? then [] else [op]
    case Deliver(request) => if request in sys.requests then [Sync(request)] else []
    case _ => []
  }

  function ServerOps(decode: Decoder, sys: System, steps: seq<Step>): seq<Op>
    decreases |steps|
  {
    if |steps| == 0 then []
    else OpsOf(sys, steps[0]) + ServerOps(decode, Next(decode, sys, steps[0]), steps[1..])
  }

  lemma StepRunsAlone(decode: Decoder, sys: System, step: Step)
    ensures Next(decode, sys, step).server == Run(sys.server, OpsOf(sys, step))
  {
    hide SyncWorker, LocalNext, CancelJob, CreateJob;
    var ops := OpsOf(sys, step);
    if |ops| > 0 {
      assert ops[1..] == [];
    }
  }

  /** Whatever holds of all runs of the control plane holds inside every system run. */
  lemma {:induction false} ServerRunsAlone(decode: Decoder, sys: System, steps: seq<Step>)
    ensures Exec(decode, sys, steps).server == Run(sys.server, ServerOps(decode, sys, steps))
    decreases |steps|
  {
    hide SyncWorker, Next, OpsOf, Do;
    if |steps| > 0 {
      var next := Next(decode, sys, steps[0]);
      StepRunsAlone(decode, sys, steps[0]);
      ServerRunsAlone(decode, next, steps[1..]);
      RunSplit(sys.server, OpsOf(sys, steps[0]), ServerOps(decode, next, steps[1..]));
    }
  }

  /** The worker always declares this capacity, and the fit test misjudges no submitted job against it. */
  predicate Steady(steps: seq<Step>, w: WorkerId, declared: Capacity) {
    && (forall i :: 0 <= i < |steps| && steps[i].Send? && steps[i].worker == w ==> steps[i].capacity == declared)
    && (forall i :: 0 <= i < |steps| && steps[i].Admin? && steps[i].op.Submit? ==>
          NeverMisjudged(steps[i].op.spec, Normalize(declared)))
  }

  lemma {:induction false} SteadyIsFixed(decode: Decoder, sys: System, steps: seq<Step>, w: WorkerId, declared: Capacity)
    requires Steady(steps, w, declared)
    requires forall request :: request in sys.requests && request.worker == w ==> request.capacity == declared
    ensures FixedCapacity(ServerOps(decode, sys, steps), w, declared)
    decreases |steps|
  {
    if |steps| > 0 {
      SteadyIsFixed(decode, Next(decode, sys, steps[0]), steps[1..], w, declared);
    }
  }

  /**
   With a fixed capacity, what a worker may be executing stays within it: at most max_parallel
   unfinished commands, and one that holds a GPU exclusively is the only one holding any.
   */
  lemma ExecutionWithinCapacity(decode: Decoder, steps: seq<Step>, w: WorkerId, declared: Capacity, c: CommandId, d: CommandId)
    requires Steady(steps, w, declared)
    ensures var sys := Exec(decode, START, steps);
            && |OpenCommands(sys, w)| <= (if declared.maxParallel == 0 then 1 else declared.maxParallel)
            && (c in OpenCommands(sys, w) && d in OpenCommands(sys, w) && c != d ==>
                  && c < |sys.server.attempts| && sys.server.attempts[c].job < |sys.server.jobs|
                  && d < |sys.server.attempts| && sys.server.attempts[d].job < |sys.server.jobs|
                  && !(HoldsExclusive(ResourcesOf(sys.server, c)) && HoldsGpu(ResourcesOf(sys.server, d))))
  {
    var sys := Exec(decode, START, steps);
    ReachableInv(decode, steps);
    ServerRunsAlone(decode, START, steps);
    SteadyIsFixed(decode, START, steps, w, declared);
    CapacityIsRespected(ServerOps(decode, START, steps), w, declared);
    UnfinishedAtMostActive(decode, steps, w);
    if c in OpenCommands(sys, w) && d in OpenCommands(sys, w) && c != d {
      OpenIsLive(decode, sys, w, c);
      OpenIsLive(decode, sys, w, d);
      assert HeldBy(sys.server, c, w) && HeldBy(sys.server, d, w);
    }
  }

  /******* What is recorded *******/

  /**
   The events recorded for a worker are a prefix of everything it ever enqueued, each applied once and
   in order; and an event that is not recorded is still in the outbox.
   */
  lemma RecordedInOrderNothingLost(decode: Decoder, steps: seq<Step>, w: WorkerId, i: nat)
    requires var sys := Exec(decode, START, steps); w in sys.nodes && i < |sys.nodes[w].history|
    ensures var sys := Exec(decode, START, steps);
            var n, recorded := sys.nodes[w], RecordedBy(sys.server.log, w);
            && recorded <= n.history
            && (i < |recorded| || n.history[i] in n.db.outbox)
            && n.history[i].sequence == i + 1
  {
    var sys := Exec(decode, START, steps);
    ReachableInv(decode, steps);
    var n := sys.nodes[w];
    assert NodeInv(decode, sys.server, w, n) && SequencedAt(w, n.history, i);
    assert RecordedBy(sys.server.log, w) <= Hist(sys)[w];
    if i >= |RecordedBy(sys.server.log, w)| {
      assert n.db.outbox[i - (Kept(n))] == n.history[i];
    }
  }

  lemma DroppedAreRecorded(decode: Decoder, s: Server, w: WorkerId, n: Node, p: SyncResponse, k: nat)
    requires NodeInv(decode, s, w, n) && ResponseOk(s, p) && p.worker == w && RecordedBy(s.log, w) <= n.history
    requires k < |n.db.outbox| - |Acknowledge(n.db, p.acceptedThrough).outbox|
    ensures n.db.outbox[k] in RecordedBy(s.log, w)
  {
    var kept := Kept(n);
    AcknowledgedOutbox(w, n, p.acceptedThrough);
    assert n.db.outbox[k] == n.history[kept + k];
    assert RecordedBy(s.log, w)[kept + k] == n.history[kept + k];
  }

  /** An acknowledgement, however stale or repeated, drops a prefix of the outbox, and only recorded events. */
  lemma AcknowledgementIsSafe(decode: Decoder, steps: seq<Step>, w: WorkerId, p: SyncResponse)
    requires var sys := Exec(decode, START, steps); w in sys.nodes && p in sys.responses && p.worker == w
    ensures var sys := Exec(decode, START, steps);
            var before, after := sys.nodes[w].db.outbox, LocalNext(decode, w, sys.nodes[w], Confirm(p)).db.outbox;
            && |after| <= |before| && after == before[|before| - |after|..]
            && (forall k :: 0 <= k < |before| - |after| ==> before[k] in RecordedBy(sys.server.log, w))
  {
    hide SyncWorker, Exec, Inv, AttemptsTracked, Do;
    var sys := Exec(decode, START, steps);
    ReachableInv(decode, steps);
    var n := sys.nodes[w];
    assert NodeInv(decode, sys.server, w, n) && ResponseOk(sys.server, p);
    AcknowledgedOutbox(w, n, p.acceptedThrough);
    SuffixOfSuffix(n.history, Kept(n), KeptFrom(n, p.acceptedThrough));
    assert RecordedBy(sys.server.log, w) <= Hist(sys)[w];
    forall k | 0 <= k < |n.db.outbox| - |Acknowledge(n.db, p.acceptedThrough).outbox|
      ensures n.db.outbox[k] in RecordedBy(sys.server.log, w)
    {
      DroppedAreRecorded(decode, sys.server, w, n, p, k);
    }
  }

  /** A recorded event's place in a worker's record is final: later states only add behind it. */
  lemma RecordsOnlyGrow(decode: Decoder, steps: seq<Step>, more: seq<Step>, w: WorkerId)
    ensures RecordedBy(Exec(decode, START, steps).server.log, w) <= RecordedBy(Exec(decode, START, steps + more).server.log, w)
  {
    ReachableInv(decode, steps);
    ExecSplit(decode, START, steps, more);
    ExecPreserves(decode, Exec(decode, START, steps), more);
    RecordedGrows(Exec(decode, START, steps).server.log, Exec(decode, START, steps + more).server.log, w);
  }

  /** The stream a worker enqueues about an attempt is always in the language, so it records one start at most. */
  lemma WorkerStreams(decode: Decoder, steps: seq<Step>, w: WorkerId, a: AttemptId)
    requires w in Exec(decode, START, steps).nodes
    ensures var stream := StreamOf(Exec(decode, START, steps).nodes[w].history, a);
            && InLanguage(stream)
            && (forall i, k :: 0 <= i < |stream| && 0 <= k < |stream| && stream[i].EventStarted? && stream[k].EventStarted? ==> i == k)
  {
    hide SyncWorker, Exec, Inv, AttemptsTracked, MessagesOk, StreamOf;
    ReachableInv(decode, steps);
    var sys := Exec(decode, START, steps);
    assert NodeInv(decode, sys.server, w, sys.nodes[w]);
    StreamsAreInLanguage(sys.nodes[w].history, a);
  }

  /******* The metrics pipeline, end to end *******/

  /** The samples stored for an attempt, in row order. */
  function StoredFor(samples: seq<Sample>, a: AttemptId): seq<MetricSample> {
    if |samples| == 0 then []
    else
      var row := samples[|samples| - 1];
      StoredFor(samples[..|samples| - 1], a) +
      if row.attempt == a then [row.sample] else []
  }

  lemma {:induction false} StoredForAppend(samples: seq<Sample>, more: seq<Sample>, a: AttemptId)
    requires |more| <= 1
    ensures StoredFor(samples + more, a) == StoredFor(samples, a) + StoredFor(more, a)
  {
    if |more| == 1 {
      assert (samples + more)[..|samples|] == samples;
      assert more[..0] == [];
    } else {
      assert samples + more == samples;
    }
  }

  /** The rows of an attempt come from its worker's events alone. */
  lemma {:induction false} StoredIsRecorded(log: seq<LogEntry>, w: WorkerId, a: AttemptId)
    requires forall k :: 0 <= k < |log| && log[k].event.attemptId == a ==> log[k].worker == w
    ensures StoredFor(SamplesOf(log), a) == MetricsOf(RecordedBy(log, w), a)
  {
    if |log| > 0 {
      var init := log[..|log| - 1];
      StoredIsRecorded(init, w, a);
      var entry := log[|log| - 1];
      var e := entry.event;
      var row := if e.body.EventMetric?
                 then [Sample(e.attemptId, e.eventId, e.body.sample)] else [];
      StoredForAppend(SamplesOf(init), row, a);
      assert StoredFor(row, a) == if e.body.EventMetric? && e.attemptId == a then [e.body.sample] else [] by {
        if row != [] {
          assert row[..0] == [];
        }
      }
      assert SamplesOf(log) == SamplesOf(init) + row;
      if entry.worker == w {
        assert RecordedBy(log, w) == RecordedBy(init, w) + [e];
        assert MetricsOf(RecordedBy(log, w), a) == MetricsOf(RecordedBy(init, w), a) + StoredFor(row, a) by {
          AppendEvent(RecordedBy(init, w), e, a);
        }
      } else {
        assert RecordedBy(log, w) == RecordedBy(init, w);
      }
    }
  }

  lemma {:induction false} MetricsGrow(history: seq<WorkerEvent>, n: nat, a: AttemptId)
    requires n <= |history|
    ensures MetricsOf(history[..n], a) <= MetricsOf(history, a)
    decreases |history|
  {
    if n == |history| {
      assert history[..n] == history;
    } else {
      var init := history[..|history| - 1];
      assert init[..n] == history[..n];
      MetricsGrow(init, n, a);
    }
  }

  lemma SamplesOfPrefix(decode: Decoder, file: string, offset: nat)
    requires MetricFile.Boundary(file, offset)
    ensures MetricFile.SamplesIn(decode, file[..offset]) <= MetricFile.SamplesIn(decode, file)
  {
    var a, b := file[..offset], file[offset..];
    assert file == a + b;
    MetricFile.LinesConcat(a, b);
    MetricFile.AcceptedConcat(decode, MetricFile.CompleteLines(a), MetricFile.CompleteLines(b));
  }

  lemma AttemptReportedByItsWorker(decode: Decoder, sys: System, a: AttemptId)
    requires SysInv(decode, sys) && a < |sys.server.attempts|
    ensures forall k :: 0 <= k < |sys.server.log| && sys.server.log[k].event.attemptId == a ==>
              sys.server.log[k].worker == sys.server.attempts[a].worker
  {
    HistoriesAreOk(decode, sys);
    var h := Hist(sys);
    forall k | 0 <= k < |sys.server.log| && sys.server.log[k].event.attemptId == a
      ensures sys.server.log[k].worker == sys.server.attempts[a].worker
    {
      EntryIsHistory(sys.server, h, k);
      var w := sys.server.log[k].worker;
      assert Owned(sys.server, w, h[w]) && OwnedAt(sys.server, w, h[w], sys.server.log[k].event.sequence - 1);
    }
  }

  /**
   From file to database: the samples stored for an attempt are, in order and once each, a prefix of the
   well-formed samples on the complete lines of its metrics file, whatever was lost, repeated or restarted
   on the way.
   */
  lemma StoredSamplesArePrefixOfFile(decode: Decoder, steps: seq<Step>, w: WorkerId, a: AttemptId)
    requires var sys := Exec(decode, START, steps); w in sys.nodes && a in sys.nodes[w].db.rows
    ensures var sys := Exec(decode, START, steps);
            StoredFor(sys.server.samples, a) <= MetricFile.SamplesIn(decode, FileOf(sys.nodes[w], a))
  {
    hide SyncWorker, Exec, Inv, AttemptsTracked, MessagesOk;
    var sys := Exec(decode, START, steps);
    ReachableInv(decode, steps);
    var n, recorded := sys.nodes[w], RecordedBy(sys.server.log, w);
    assert NodeInv(decode, sys.server, w, n) && RowOwned(sys.server, w, n.db.rows, a) && RowOk(decode, n, a);
    AttemptReportedByItsWorker(decode, sys, a);
    StoredIsRecorded(sys.server.log, w, a);
    assert recorded <= Hist(sys)[w];
    assert recorded == n.history[..|recorded|];
    MetricsGrow(n.history, |recorded|, a);
    SamplesOfPrefix(decode, FileOf(n, a), n.db.rows[a].metricOffset);
  }

  /**
   Metric ingestion is exact whatever crashes and appends happen: the stored offset starts a line, and the
   samples enqueued for the attempt are the well-formed ones on the lines before it, once each, in order.
   */
  lemma IngestionIsExact(decode: Decoder, steps: seq<Step>, w: WorkerId, c: CommandId)
    requires var sys := Exec(decode, START, steps); w in sys.nodes && c in sys.nodes[w].db.rows
    ensures var n := Exec(decode, START, steps).nodes[w];
            var offset := n.db.rows[c].metricOffset;
            && MetricFile.Boundary(FileOf(n, c), offset)
            && MetricFile.SamplesIn(decode, FileOf(n, c)[..offset]) == MetricsOf(n.history, c)
  {
    ReachableInv(decode, steps);
    var sys := Exec(decode, START, steps);
    assert NodeInv(decode, sys.server, w, sys.nodes[w]) && RowOk(decode, sys.nodes[w], c);
  }

  /** What a worker holds is what was submitted: the command's specification and number are its attempt's. */
  lemma WorkersRunWhatWasSubmitted(decode: Decoder, steps: seq<Step>, w: WorkerId, c: CommandId)
    requires var sys := Exec(decode, START, steps); w in sys.nodes && c in sys.nodes[w].db.rows
    ensures var sys := Exec(decode, START, steps);
            var command := sys.nodes[w].db.rows[c].command;
            && command.RunJob? && command.job < |sys.server.jobs| && c < |sys.server.attempts|
            && command.spec == sys.server.jobs[command.job].spec
            && command.job == sys.server.attempts[c].job && command.attemptNumber == sys.server.attempts[c].number
            && sys.server.attempts[c].worker == w
  {
    ReachableInv(decode, steps);
    var sys := Exec(decode, START, steps);
    assert NodeInv(decode, sys.server, w, sys.nodes[w]) && RowOwned(sys.server, w, sys.nodes[w].db.rows, c);
  }
}
