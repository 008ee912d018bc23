/**
 Why things are as they are, over whole runs of the system: every event a worker reports has the step that caused
 it, an attempt ends as its process did, its start time is that of its launch, and a command is stopped only if its
 own job was canceled.
 */
module Causes {
  import opened Wrappers
  import opened Domain
  import opened ControlPlane
  import opened Lifecycle
  import opened Runs
  import opened WorkerDb
  import opened Streams
  import opened Tracking
  import opened Exchange
  import opened Nodes
  import opened Protocol
  import opened WorkerEffects
  import opened ControlEffects
  import Guarantees
  import Outcomes
  import Progress

  /******* Events *******/

  predicate Brings(commands: seq<WorkerCommand>, attempt: AttemptId) {
    exists k :: 0 <= k < |commands| && commands[k].RunJob? && commands[k].attemptId == attempt
  }

  /** The worker's own step that enqueues such an event, with everything the event says. */
  predicate Causes(step: LocalStep, e: WorkerEvent) {
    match e.body
    case EventAccepted => step.Persist? && Brings(step.response.commands, e.attemptId)
    case EventStarted(at) => step == Launch(e.attemptId, at)
    case EventFinished(exitCode, error, tail, artifacts) =>
      exitCode.Some? && step == Finish(e.attemptId, exitCode.value, error, tail, artifacts)
    case EventArtifacts(artifacts) => step == Announce(e.attemptId, artifacts)
    case EventMetric(_) => step == Ingest(e.attemptId)
    case EventUnknown => false
  }

  predicate CausedIn(steps: seq<Step>, w: WorkerId, e: WorkerEvent) {
    exists i :: 0 <= i < |steps| && steps[i].Local? && steps[i].worker == w && Causes(steps[i].step, e)
  }

  /** Storing a response enqueues acceptances of what it brings, and nothing else. */
  lemma {:induction false} AcceptancesOnly(db: Db, self: WorkerId, commands: seq<WorkerCommand>, k: nat)
    requires AcceptCommands(db, self, commands).Ok?
    ensures var after := AcceptCommands(db, self, commands).value;
            && |db.outbox| <= |after.outbox|
            && (|db.outbox| <= k < |after.outbox| ==>
                  after.outbox[k].body == EventAccepted && Brings(commands, after.outbox[k].attemptId))
            && (k < |db.outbox| ==> after.outbox[k] == db.outbox[k])
    decreases |commands|
  {
    if |commands| > 0 {
      var mid := AcceptCommand(db, self, commands[0]).value;
      AcceptancesOnly(mid, self, commands[1..], k);
      var after := AcceptCommands(db, self, commands).value;
      if |db.outbox| <= k < |after.outbox| {
        var a := after.outbox[k].attemptId;
        if k < |mid.outbox| {
          assert commands[0].RunJob? && commands[0].attemptId == a;
        } else {
          var m :| 0 <= m < |commands[1..]| && commands[1..][m].RunJob? && commands[1..][m].attemptId == a;
          assert commands[m + 1] == commands[1..][m];
        }
      }
    }
  }

  /** What a step of the worker adds to its history, it causes. */
  lemma NewEventsAreCaused(decode: Decoder, w: WorkerId, n: Node, step: LocalStep, k: nat)
    requires NodeOk(decode, w, n)
    requires var m := LocalNext(decode, w, n, step); |n.history| <= k < |m.history|
    ensures Causes(step, LocalNext(decode, w, n, step).history[k])
  {
    hide NodeOk, AcceptCommands;
    var m := LocalNext(decode, w, n, step);
    if step.Persist? && AcceptCommands(n.db, w, step.response.commands).Ok? {
      AcceptancesOnly(n.db, w, step.response.commands, |n.db.outbox| + k - |n.history|);
    }
    if step.Launch? {
      RowIsItsAttempt(decode, w, n, step.command);
    }
    if step.Finish? {
      RowIsItsAttempt(decode, w, n, step.command);
    }
    if step.Announce? {
      RowIsItsAttempt(decode, w, n, step.command);
    }
    if step.Ingest? {
      RowIsItsAttempt(decode, w, n, step.command);
    }
  }

  lemma RowIsItsAttempt(decode: Decoder, w: WorkerId, n: Node, c: CommandId)
    requires NodeOk(decode, w, n)
    ensures c in n.db.rows ==> n.db.rows[c].attemptId == c
  {
    if c in n.db.rows {
      assert RowOk(decode, n, c);
    }
  }

  lemma MoreSteps(steps: seq<Step>, w: WorkerId, e: WorkerEvent)
    requires |steps| > 0 && CausedIn(steps[..|steps| - 1], w, e)
    ensures CausedIn(steps, w, e)
  {
    var before := steps[..|steps| - 1];
    var i :| 0 <= i < |before| && before[i].Local? && before[i].worker == w && Causes(before[i].step, e);
    assert steps[i] == before[i];
  }

  /** Over every run, every event a worker enqueued was caused by a step of its own that says the same. */
  lemma {:induction false} EveryEventIsCaused(decode: Decoder, steps: seq<Step>, w: WorkerId, k: nat)
    requires w in Exec(decode, START, steps).nodes && k < |Exec(decode, START, steps).nodes[w].history|
    ensures CausedIn(steps, w, Exec(decode, START, steps).nodes[w].history[k])
  {
    hide SyncWorker, SysInv, LocalNext, Causes, CausedIn, Exec;
    if |steps| == 0 {
      NothingAtStart(decode, steps);
    } else {
      var last := |steps| - 1;
      var before, step := steps[..last], steps[last];
      var sys := Exec(decode, START, before);
      assert steps == before + [step];
      ExecSplit(decode, START, before, [step]);
      Progress.ExecOne(decode, sys, step);
      ReachableInv(decode, before);
      NextPreserves(decode, sys, step);
      var t := Next(decode, sys, step);
      if w in sys.nodes {
        HistoryGrows(sys, t, w);
        if k < |sys.nodes[w].history| {
          EveryEventIsCaused(decode, before, w, k);
          MoreSteps(steps, w, t.nodes[w].history[k]);
        } else {
          NewEventHasStep(decode, sys, step, w, k);
          LastStepCauses(steps, w, t.nodes[w].history[k]);
        }
      } else {
        NewNodeIsEmpty(decode, sys, step, w);
      }
    }
  }

  lemma NothingAtStart(decode: Decoder, steps: seq<Step>)
    requires |steps| == 0
    ensures Exec(decode, START, steps).nodes == map[]
  {
  }

  lemma HistoryGrows(sys: System, t: System, w: WorkerId)
    requires SysEvolves(sys, t) && w in sys.nodes
    ensures w in t.nodes && sys.nodes[w].history <= t.nodes[w].history
  {
    assert NodeEvolves(sys.nodes[w], t.nodes[w]);
  }

  lemma NewNodeIsEmpty(decode: Decoder, sys: System, step: Step, w: WorkerId)
    requires w !in sys.nodes && w in Next(decode, sys, step).nodes
    ensures Next(decode, sys, step).nodes[w].history == []
  {
    hide SyncWorker, LocalNext;
  }

  lemma NewEventHasStep(decode: Decoder, sys: System, step: Step, w: WorkerId, k: nat)
    requires SysInv(decode, sys) && w in sys.nodes && w in Next(decode, sys, step).nodes
    requires |sys.nodes[w].history| <= k < |Next(decode, sys, step).nodes[w].history|
    ensures step.Local? && step.worker == w && Causes(step.step, Next(decode, sys, step).nodes[w].history[k])
  {
    hide SyncWorker, LocalNext, Causes, Inv, MessagesOk;
    assert step.Local? && step.worker == w && Received(sys, w, step.step);
    assert NodeInv(decode, sys.server, w, sys.nodes[w]);
    NewEventsAreCaused(decode, w, sys.nodes[w], step.step, k);
  }

  lemma LastStepCauses(steps: seq<Step>, w: WorkerId, e: WorkerEvent)
    requires |steps| > 0 && var step := steps[|steps| - 1]; step.Local? && step.worker == w && Causes(step.step, e)
    ensures CausedIn(steps, w, e)
  {
  }

  /******* Outcomes and start times *******/

  /** What the control plane recorded of a worker was caused by a step of that worker. */
  lemma EveryRecordIsCaused(decode: Decoder, steps: seq<Step>, k: nat)
    requires k < |Exec(decode, START, steps).server.log|
    ensures var entry := Exec(decode, START, steps).server.log[k]; CausedIn(steps, entry.worker, entry.event)
  {
    hide Exec, Causes, CausedIn, Inv, AttemptsTracked, NodesOk, MessagesOk, HistoriesOk, RecordedBy;
    var sys := Exec(decode, START, steps);
    ReachableInv(decode, steps);
    HistoriesAreOk(decode, sys);
    EntryIsHistory(sys.server, Hist(sys), k);
    var entry := sys.server.log[k];
    assert entry.worker in sys.nodes && sys.nodes[entry.worker].history[entry.event.sequence - 1] == entry.event;
    EveryEventIsCaused(decode, steps, entry.worker, entry.event.sequence - 1);
  }

  /** The process of the attempt's command ended on that worker with that exit code and error. */
  predicate Ended(steps: seq<Step>, w: WorkerId, a: AttemptId, exitCode: int, error: string) {
    exists i :: 0 <= i < |steps| && EndsSo(steps[i], w, a, exitCode, error)
  }

  predicate EndsSo(step: Step, w: WorkerId, a: AttemptId, exitCode: int, error: string) {
    step.Local? && step.worker == w && step.step.Finish? && step.step.command == a
    && step.step.exitCode == exitCode && step.step.error == error
  }

  lemma FinishIsEnd(steps: seq<Step>, w: WorkerId, e: WorkerEvent)
    requires CausedIn(steps, w, e) && e.body.EventFinished?
    ensures e.body.exitCode.Some? && Ended(steps, w, e.attemptId, e.body.exitCode.value, e.body.error)
  {
    var i :| 0 <= i < |steps| && steps[i].Local? && steps[i].worker == w && Causes(steps[i].step, e);
    assert EndsSo(steps[i], w, e.attemptId, e.body.exitCode.value, e.body.error);
  }

  /**
   Over every run an attempt ends as its process did: it succeeds only if the process on its own worker returned
   zero without error, fails only if it returned something else, and is canceled only on a canceled job.
   */
  lemma AttemptsEndAsTheirProcess(decode: Decoder, steps: seq<Step>, a: AttemptId)
    requires var s := Exec(decode, START, steps).server; a < |s.attempts| && !Live(s.attempts[a].state)
    ensures var s := Exec(decode, START, steps).server;
            var attempt := s.attempts[a];
            && attempt.job < |s.jobs|
            && (attempt.state == AttemptSucceeded ==> Ended(steps, attempt.worker, a, 0, ""))
            && (attempt.state == AttemptFailed ==>
                  exists exitCode, error :: (exitCode != 0 || error != "") && Ended(steps, attempt.worker, a, exitCode, error))
            && (attempt.state == AttemptCanceled ==> s.jobs[attempt.job].state == JobCanceled)
  {
    hide Exec, Guarantees.ServerOps, Run, Ended, CausedIn;
    var s := Exec(decode, START, steps).server;
    Guarantees.ServerRunsAlone(decode, START, steps);
    Outcomes.OutcomesAreReported(Guarantees.ServerOps(decode, START, steps), a);
    var k :| 0 <= k < |s.log| && Outcomes.Justified(s, a, k);
    EveryRecordIsCaused(decode, steps, k);
    FinishIsEnd(steps, s.log[k].worker, s.log[k].event);
  }

  predicate LaunchedAt(steps: seq<Step>, w: WorkerId, a: AttemptId, at: int) {
    exists i :: 0 <= i < |steps| && steps[i] == Local(w, Launch(a, at))
  }

  lemma StartIsLaunch(steps: seq<Step>, w: WorkerId, e: WorkerEvent)
    requires CausedIn(steps, w, e) && e.body.EventStarted?
    ensures LaunchedAt(steps, w, e.attemptId, e.body.at)
  {
    var i :| 0 <= i < |steps| && steps[i].Local? && steps[i].worker == w && Causes(steps[i].step, e);
    assert steps[i] == Local(w, Launch(e.attemptId, e.body.at));
  }

  /** Over every run an attempt's start time is the time at which its worker launched it. */
  lemma StartTimeIsLaunchTime(decode: Decoder, steps: seq<Step>, a: AttemptId)
    requires var s := Exec(decode, START, steps).server; a < |s.attempts| && s.attempts[a].startedAt.Some?
    ensures var attempt := Exec(decode, START, steps).server.attempts[a];
            LaunchedAt(steps, attempt.worker, a, attempt.startedAt.value)
  {
    hide Exec, Guarantees.ServerOps, Run, CausedIn, LaunchedAt;
    var s := Exec(decode, START, steps).server;
    Guarantees.ServerRunsAlone(decode, START, steps);
    StartTimeIsReported(Guarantees.ServerOps(decode, START, steps), a, s.attempts[a].startedAt.value);
    var k :| 0 <= k < |s.log| && s.log[k].worker == s.attempts[a].worker && s.log[k].event.attemptId == a &&
             s.log[k].event.body == EventStarted(s.attempts[a].startedAt.value);
    EveryRecordIsCaused(decode, steps, k);
    StartIsLaunch(steps, s.log[k].worker, s.log[k].event);
  }

  /******* Cancels *******/

  /** The attempt's job is being, or has been, canceled. */
  predicate JobToStop(s: Server, a: AttemptId) {
    && a < |s.attempts| && s.attempts[a].job < |s.jobs|
    && (s.jobs[s.attempts[a].job].state == JobCanceling || s.jobs[s.attempts[a].job].state == JobCanceled)
  }

  ghost predicate OnlyStops(s: Server, p: SyncResponse) {
    forall a: AttemptId :: Named(p.commands, a) ==> JobToStop(s, a)
  }

  ghost predicate OnlyStopping(s: Server, n: Node) {
    forall c :: Marked(n.db.rows, c) ==> JobToStop(s, c)
  }

  /** Every cancel in flight and every marked command is about a job to be stopped. */
  ghost predicate NoStrayCancel(sys: System) {
    && (forall p :: p in sys.responses ==> OnlyStops(sys.server, p))
    && (forall w :: w in sys.nodes ==> OnlyStopping(sys.server, sys.nodes[w]))
  }

  lemma StillToStop(s: Server, t: Server, a: AttemptId)
    requires Evolves(s, t) && JobToStop(s, a)
    ensures JobToStop(t, a)
  {
    assert AttemptEvolvesAt(s, t, a) && JobEvolvesAt(s, t, s.attempts[a].job);
  }

  lemma StraysStayOut(s: Server, t: Server, sys: System)
    requires Evolves(s, t) && sys.server == s && NoStrayCancel(sys)
    ensures NoStrayCancel(sys.(server := t))
  {
    forall p | p in sys.responses ensures OnlyStops(t, p) {
      forall a: AttemptId | Named(p.commands, a) ensures JobToStop(t, a) {
        assert OnlyStops(s, p);
        StillToStop(s, t, a);
      }
    }
    forall w | w in sys.nodes ensures OnlyStopping(t, sys.nodes[w]) {
      forall c | Marked(sys.nodes[w].db.rows, c) ensures JobToStop(t, c) {
        assert OnlyStopping(s, sys.nodes[w]);
        StillToStop(s, t, c);
      }
    }
  }

  /** The answer to a request cancels only what is to be stopped. */
  lemma AnswerOnlyStops(s: Server, request: SyncRequest)
    requires SyncWorker(s, request).Ok?
    ensures OnlyStops(SyncWorker(s, request).value.0, SyncWorker(s, request).value.1)
  {
    hide SyncWorker;
    var (t, p) := SyncWorker(s, request).value;
    forall a: AttemptId | Named(p.commands, a) ensures JobToStop(t, a) {
      assert CancelAttempt(a) in p.commands;
      Progress.EverySyncRepeatsCancels(s, request, a);
    }
  }

  /** A step of the worker marks only what a response it was sent names. */
  lemma LocalMarksNamed(decode: Decoder, s: Server, w: WorkerId, n: Node, step: LocalStep)
    requires NodeInv(decode, s, w, n) && OnlyStopping(s, n)
    requires step.Persist? ==> step.response.worker == w && ResponseOk(s, step.response) && OnlyStops(s, step.response)
    ensures OnlyStopping(s, LocalNext(decode, w, n, step))
  {
    var m := LocalNext(decode, w, n, step);
    forall c | Marked(m.db.rows, c) ensures JobToStop(s, c) {
      if step.Persist? && AcceptCommands(n.db, w, step.response.commands).Ok? {
        MarkedByResponse(decode, s, w, n, step.response, c);
      } else {
        OthersMarkNothing(decode, w, n, step, c);
      }
    }
  }

  lemma MarkedByResponse(decode: Decoder, s: Server, w: WorkerId, n: Node, p: SyncResponse, c: CommandId)
    requires NodeInv(decode, s, w, n) && OnlyStopping(s, n) && p.worker == w && ResponseOk(s, p) && OnlyStops(s, p)
    requires AcceptCommands(n.db, w, p.commands).Ok? && Marked(AcceptCommands(n.db, w, p.commands).value.rows, c)
    ensures JobToStop(s, c)
  {
    hide JobToStop, ResponseOk, AcceptCommands;
    CommandsAreShaped(s, p);
    AcceptKeepsNode(decode, w, n, p.commands);
    RowIsItsAttempt(decode, w, Stored(n, AcceptCommands(n.db, w, p.commands).value), c);
    OnlyNamedAreMarked(n.db, w, p.commands, c);
  }

  lemma OthersMarkNothing(decode: Decoder, w: WorkerId, n: Node, step: LocalStep, c: CommandId)
    requires !step.Persist? || AcceptCommands(n.db, w, step.response.commands).Err?
    requires Marked(LocalNext(decode, w, n, step).db.rows, c)
    ensures Marked(n.db.rows, c)
  {
    hide AcceptCommands;
  }

  lemma NextKeepsStraysOut(decode: Decoder, sys: System, step: Step)
    requires SysInv(decode, sys) && NoStrayCancel(sys)
    ensures NoStrayCancel(Next(decode, sys, step))
  {
    hide SyncWorker, LocalNext, Inv, Evolves, OnlyStops, OnlyStopping, NodeInv, RecordsOk, RequestOk, ResponseOk, Do;
    var t := Next(decode, sys, step);
    NextPreserves(decode, sys, step);
    StraysStayOut(sys.server, t.server, sys);
    forall p | p in t.responses ensures OnlyStops(t.server, p) {
      if p !in sys.responses {
        AnswerOnlyStops(sys.server, step.request);
      }
    }
    forall w | w in t.nodes ensures OnlyStopping(t.server, t.nodes[w]) {
      if w !in sys.nodes {
        NewNodeIsUnmarked(decode, sys, step, w);
      } else if step.Local? && step.worker == w && Received(sys, w, step.step) {
        assert NodeInv(decode, sys.server, w, sys.nodes[w]);
        LocalMarksNamed(decode, sys.server, w, sys.nodes[w], step.step);
      } else {
        Progress.OthersLeaveNode(decode, sys, step, w);
      }
    }
  }

  lemma NewNodeIsUnmarked(decode: Decoder, sys: System, step: Step, w: WorkerId)
    requires w !in sys.nodes && w in Next(decode, sys, step).nodes
    ensures OnlyStopping(Next(decode, sys, step).server, Next(decode, sys, step).nodes[w])
  {
    hide SyncWorker, LocalNext;
  }

  lemma {:induction false} ExecKeepsStraysOut(decode: Decoder, sys: System, steps: seq<Step>)
    requires SysInv(decode, sys) && NoStrayCancel(sys)
    ensures NoStrayCancel(Exec(decode, sys, steps))
    decreases |steps|
  {
    hide SysInv, NoStrayCancel, Next;
    if |steps| > 0 {
      NextKeepsStraysOut(decode, sys, steps[0]);
      NextPreserves(decode, sys, steps[0]);
      ExecKeepsStraysOut(decode, Next(decode, sys, steps[0]), steps[1..]);
    }
  }

  /** Over every run, a worker's command is marked for stopping only if the job of that very attempt was canceled. */
  lemma OnlyCanceledAreStopped(decode: Decoder, steps: seq<Step>, w: WorkerId, c: CommandId)
    requires var sys := Exec(decode, START, steps); w in sys.nodes && c in sys.nodes[w].db.rows && sys.nodes[w].db.rows[c].cancelRequested
    ensures JobToStop(Exec(decode, START, steps).server, c)
  {
    hide Exec;
    ReachableInv(decode, []);
    StartIsReached(decode);
    ExecKeepsStraysOut(decode, START, steps);
    assert OnlyStopping(Exec(decode, START, steps).server, Exec(decode, START, steps).nodes[w]);
  }

  lemma StartIsReached(decode: Decoder)
    ensures Exec(decode, START, []) == START && NoStrayCancel(START)
  {
  }
}
