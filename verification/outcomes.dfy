/**
 Why an attempt ended as it did: every settled attempt has a recorded finish report that says so, and the
 report is what its worker's process returned.
 */
module Outcomes {
  import opened Wrappers
  import opened Domain
  import opened JobSpecs
  import opened Scheduler
  import opened ControlPlane
  import opened Lifecycle
  import opened Runs
  import opened Streams
  import opened Tracking
  import opened Nodes
  import opened Protocol
  import Guarantees

  /** The process ended well. */
  predicate Clean(body: EventBody)
    requires body.EventFinished?
  {
    body.exitCode == Some(0) && body.error == ""
  }

  /** A finish report of the attempt, by its worker. */
  predicate ReportedAt(s: Server, a: int, k: int)
    requires 0 <= a < |s.attempts| && 0 <= k < |s.log|
  {
    s.log[k].worker == s.attempts[a].worker && s.log[k].event.attemptId == a && s.log[k].event.body.EventFinished?
  }

  /** The settled state follows from a report: clean is succeeded, not clean is failed, unless the job was canceled. */
  predicate Justified(s: Server, a: int, k: int)
    requires 0 <= a < |s.attempts| && s.attempts[a].job < |s.jobs| && 0 <= k < |s.log|
  {
    && ReportedAt(s, a, k)
    && match s.attempts[a].state
       case AttemptSucceeded => Clean(s.log[k].event.body)
       case AttemptFailed => !Clean(s.log[k].event.body)
       case AttemptCanceled => s.jobs[s.attempts[a].job].state.JobCanceled?
       case _ => false
  }

  predicate OutcomeAt(s: Server, a: int)
    requires 0 <= a < |s.attempts|
  {
    && s.attempts[a].job < |s.jobs|
    && (!Live(s.attempts[a].state) ==> exists k :: 0 <= k < |s.log| && Justified(s, a, k))
  }

  predicate OutcomesOk(s: Server) {
    forall a :: 0 <= a < |s.attempts| ==> OutcomeAt(s, a)
  }

  /** Later states justify what was settled, as a settled attempt and a canceled job stay as they are. */
  lemma JustifiedStays(s: Server, t: Server, a: AttemptId)
    requires Numbered(s) && Evolves(s, t) && s.log <= t.log && a < |s.attempts| && OutcomeAt(s, a)
    requires Live(s.attempts[a].state) ==> Live(t.attempts[a].state)
    ensures OutcomeAt(t, a)
  {
    assert AttemptEvolvesAt(s, t, a);
    assert JobEvolvesAt(s, t, s.attempts[a].job);
    if !Live(s.attempts[a].state) {
      var k :| 0 <= k < |s.log| && Justified(s, a, k);
      assert Justified(t, a, k);
    }
  }

  /** The finish transaction settles its attempt by the report it was given. */
  lemma FinishIsJustified(s: Server, worker: WorkerId, session: SessionId, e: WorkerEvent)
    requires Inv(s) && e.body.EventFinished?
    requires var logged := s.(log := s.log + [LogEntry(worker, session, e)]); ApplyWorkerEvent(logged, worker, e).Ok?
    ensures var logged := s.(log := s.log + [LogEntry(worker, session, e)]);
            var t := ApplyWorkerEvent(logged, worker, e).value;
            e.attemptId < |t.attempts| && OutcomeAt(t, e.attemptId) && t.log == logged.log
  {
    var logged := s.(log := s.log + [LogEntry(worker, session, e)]);
    var t := ApplyWorkerEvent(logged, worker, e).value;
    assert t.log[|s.log|] == LogEntry(worker, session, e);
    assert Justified(t, e.attemptId, |s.log|);
  }

  lemma RecordKeepsOutcomes(s: Server, worker: WorkerId, session: SessionId, e: WorkerEvent)
    requires Inv(s) && OutcomesOk(s) && RecordWorkerEvent(s, worker, session, e).Ok?
    ensures OutcomesOk(RecordWorkerEvent(s, worker, session, e).value)
  {
    var t := RecordWorkerEvent(s, worker, session, e).value;
    RecordPreserves(s, worker, session, e);
    forall a | 0 <= a < |t.attempts| ensures OutcomeAt(t, a) {
      assert OutcomeAt(s, a);
      if t.log != s.log && e.body.EventFinished? && a == e.attemptId {
        FinishIsJustified(s, worker, session, e);
      } else {
        OthersStayLive(s, worker, session, e, a);
        JustifiedStays(s, t, a);
      }
    }
  }

  /** Only a finish report ends a live attempt, and only its own. */
  lemma OthersStayLive(s: Server, worker: WorkerId, session: SessionId, e: WorkerEvent, a: AttemptId)
    requires RecordWorkerEvent(s, worker, session, e).Ok? && a < |s.attempts|
    requires !e.body.EventFinished? || a != e.attemptId || RecordWorkerEvent(s, worker, session, e).value.log == s.log
    ensures var t := RecordWorkerEvent(s, worker, session, e).value;
            && |t.attempts| == |s.attempts| && s.log <= t.log
            && (Live(s.attempts[a].state) ==> Live(t.attempts[a].state))
  {
  }

  lemma {:induction false} RecordAllKeepsOutcomes(s: Server, worker: WorkerId, session: SessionId, events: seq<WorkerEvent>)
    requires Inv(s) && OutcomesOk(s) && RecordAll(s, worker, session, events).Ok?
    ensures OutcomesOk(RecordAll(s, worker, session, events).value)
    decreases |events|
  {
    if |events| > 0 {
      RecordPreserves(s, worker, session, events[0]);
      RecordKeepsOutcomes(s, worker, session, events[0]);
      RecordAllKeepsOutcomes(RecordWorkerEvent(s, worker, session, events[0]).value, worker, session, events[1..]);
    }
  }

  /** A state that evolved without recording anything and without settling any attempt. */
  lemma QuietKeepsOutcomes(s: Server, t: Server)
    requires Inv(s) && Inv(t) && OutcomesOk(s) && Evolves(s, t) && s.log <= t.log
    requires forall a :: 0 <= a < |s.attempts| ==> t.attempts[a] == s.attempts[a]
    requires forall a :: |s.attempts| <= a < |t.attempts| ==> Live(t.attempts[a].state)
    ensures OutcomesOk(t)
  {
    forall a | 0 <= a < |t.attempts| ensures OutcomeAt(t, a) {
      if a < |s.attempts| {
        assert OutcomeAt(s, a);
        JustifiedStays(s, t, a);
      }
    }
  }

  lemma {:induction false} OfferFromAddsLive(s: Server, worker: WorkerId, capacity: Capacity, allocation: Allocation, ids: seq<JobId>)
    requires forall k :: 0 <= k < |ids| ==> ids[k] < |s.jobs|
    ensures var t := OfferFrom(s, worker, capacity, allocation, ids);
            && s.attempts <= t.attempts
            && (forall a :: |s.attempts| <= a < |t.attempts| ==> Live(t.attempts[a].state))
    decreases |ids|
  {
    if |ids| > 0 && allocation.active < capacity.maxParallel {
      var spec := s.jobs[ids[0]].spec;
      if JobFits(spec, capacity, allocation) {
        OfferFromAddsLive(Offer(s, worker, ids[0]), worker, capacity, Occupy(allocation, spec.resources), ids[1..]);
      } else {
        OfferFromAddsLive(s, worker, capacity, allocation, ids[1..]);
      }
    }
  }

  lemma OfferKeepsOutcomes(s: Server, worker: WorkerId, declared: Capacity)
    requires Inv(s) && OutcomesOk(s)
    ensures OutcomesOk(OfferJobs(s, worker, declared))
  {
    OfferJobsPreserves(s, worker, declared);
    OfferFromAddsLive(s, worker, Normalize(declared), CurrentAllocation(s, worker), Candidates(s));
    OfferFromKeepsKeys(s, worker, Normalize(declared), CurrentAllocation(s, worker), Candidates(s));
    QuietKeepsOutcomes(s, OfferJobs(s, worker, declared));
  }

  lemma DoKeepsOutcomes(s: Server, op: Op)
    requires Inv(s) && OutcomesOk(s)
    ensures OutcomesOk(Do(s, op))
  {
    DoPreserves(s, op);
    if op.Sync? {
      var r := op.request;
      var recorded := RecordAll(s, r.worker, r.session, r.events);
      if r.worker in s.workers && recorded.Ok? {
        RecordAllPreserves(s, r.worker, r.session, r.events);
        RecordAllKeepsOutcomes(s, r.worker, r.session, r.events);
        OfferKeepsOutcomes(recorded.value, r.worker, r.capacity);
      }
    } else {
      AdminKeepsRecords(s, op);
      QuietKeepsOutcomes(s, Do(s, op));
    }
  }

  lemma {:induction false} RunKeepsOutcomes(s: Server, ops: seq<Op>)
    requires Inv(s) && OutcomesOk(s)
    ensures OutcomesOk(Run(s, ops))
    decreases |ops|
  {
    if |ops| > 0 {
      DoPreserves(s, ops[0]);
      DoKeepsOutcomes(s, ops[0]);
      RunKeepsOutcomes(Do(s, ops[0]), ops[1..]);
    }
  }

  /**
   In every reachable state of the control plane, a succeeded attempt has a recorded report of exit code 0
   without error, a failed one a report that is not that, and a canceled one a report on a canceled job.
   */
  lemma OutcomesAreReported(ops: seq<Op>, a: AttemptId)
    requires a < |Run(EMPTY, ops).attempts| && !Live(Run(EMPTY, ops).attempts[a].state)
    ensures var s := Run(EMPTY, ops);
            s.attempts[a].job < |s.jobs| && exists k :: 0 <= k < |s.log| && Justified(s, a, k)
  {
    EmptyInv();
    RunKeepsOutcomes(EMPTY, ops);
    assert OutcomeAt(Run(EMPTY, ops), a);
  }

  /** The worker's history holds a finish report of exit code 0 without error for the attempt. */
  predicate CleanlyReported(n: Node, a: AttemptId) {
    exists i :: 0 <= i < |n.history| && n.history[i].attemptId == a &&
                n.history[i].body.EventFinished? && Clean(n.history[i].body)
  }

  /** What the control plane recorded for a succeeded attempt stands in its worker's own history. */
  lemma ReportIsInHistory(decode: Decoder, sys: System, a: AttemptId, k: nat)
    requires SysInv(decode, sys) && a < |sys.server.attempts| && sys.server.attempts[a].job < |sys.server.jobs|
    requires sys.server.attempts[a].state.AttemptSucceeded? && k < |sys.server.log| && Justified(sys.server, a, k)
    ensures sys.server.attempts[a].worker in sys.nodes
    ensures CleanlyReported(sys.nodes[sys.server.attempts[a].worker], a)
  {
    hide Inv, AttemptsTracked, NodesOk, MessagesOk, HistoriesOk, RecordedBy;
    HistoriesAreOk(decode, sys);
    EntryIsHistory(sys.server, Hist(sys), k);
    var w := sys.server.attempts[a].worker;
    assert sys.nodes[w].history[sys.server.log[k].event.sequence - 1] == sys.server.log[k].event;
  }

  /** The worker of a succeeded attempt reported it: the event is in its own history. */
  lemma SucceededMeansExitZero(decode: Decoder, steps: seq<Step>, a: AttemptId)
    requires var s := Exec(decode, START, steps).server; a < |s.attempts| && s.attempts[a].state.AttemptSucceeded?
    ensures var sys := Exec(decode, START, steps);
            var w := sys.server.attempts[a].worker;
            w in sys.nodes && CleanlyReported(sys.nodes[w], a)
  {
    hide SysInv, Exec, Guarantees.ServerOps, Run, CleanlyReported;
    var sys := Exec(decode, START, steps);
    ReachableInv(decode, steps);
    Guarantees.ServerRunsAlone(decode, START, steps);
    OutcomesAreReported(Guarantees.ServerOps(decode, START, steps), a);
    var k :| 0 <= k < |sys.server.log| && Justified(sys.server, a, k);
    ReportIsInHistory(decode, sys, a, k);
  }
}
