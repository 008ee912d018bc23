/**
 A run in the agent's own order on which a cancel wedges the worker.  A job runs and announces its results while
 the control plane cannot be reached; then another job is offered and accepted, and canceled before the backlog
 of more than a batch has been worked off.
 */
module Backlog {
  import opened Wrappers
  import opened Domain
  import opened JobSpecs
  import opened Scheduler
  import opened ControlPlane
  import opened Lifecycle
  import opened Runs
  import opened CapacityPromises
  import opened WorkerDb
  import opened Streams
  import opened Tracking
  import opened Exchange
  import opened Nodes
  import opened Protocol
  import opened Progress
  import opened Witness

  const ANNOUNCED := [Artifact("result", "uri", 0)]
  const STARTED_EVENT := WorkerEvent(2, EventId(0, 2), 0, EventStarted(0))
  const ROW := Row(0, OFFER, RowRunning, false, 0)

  /** The announcements, after acceptance and start. */
  function Reports(n: nat): (events: seq<WorkerEvent>)
    ensures |events| == n
  {
    if n == 0 then [] else Reports(n - 1) + [WorkerEvent(n + 2, EventId(0, n + 2), 0, EventArtifacts(ANNOUNCED))]
  }

  function Told(n: nat): (events: seq<WorkerEvent>)
    ensures |events| == n + 2
  {
    [ACCEPTED_EVENT, STARTED_EVENT] + Reports(n)
  }

  /** The worker after n announcements, none of them acknowledged. */
  function Busy(n: nat): Node {
    Node(Db(map[0 := ROW], Told(n), n + 2), 0, Told(n), map[])
  }

  function Announcing(n: nat): seq<Step> {
    if n == 0 then [] else Announcing(n - 1) + [Local(0, Announce(0, ANNOUNCED))]
  }

  lemma OneMoreReport(decode: Decoder, n: nat)
    ensures LocalNext(decode, 0, Busy(n), Announce(0, ANNOUNCED)) == Busy(n + 1)
  {
    assert Told(n) + [WorkerEvent(n + 3, EventId(0, n + 3), 0, EventArtifacts(ANNOUNCED))] == Told(n + 1);
    var after := Enqueue(Busy(n).db, 0, 0, EventArtifacts(ANNOUNCED));
    assert after.outbox[|Told(n)|..] == [WorkerEvent(n + 3, EventId(0, n + 3), 0, EventArtifacts(ANNOUNCED))];
  }

  lemma {:induction false} Announcements(decode: Decoder, sys: System, n: nat)
    requires 0 in sys.nodes && sys.nodes[0] == Busy(0)
    ensures Exec(decode, sys, Announcing(n)) == sys.(nodes := sys.nodes[0 := Busy(n)])
  {
    if n == 0 {
      assert sys.nodes[0 := Busy(0)] == sys.nodes;
    } else {
      hide SyncWorker;
      Announcements(decode, sys, n - 1);
      ExecSplit(decode, sys, Announcing(n - 1), [Local(0, Announce(0, ANNOUNCED))]);
      ExecOne(decode, sys.(nodes := sys.nodes[0 := Busy(n - 1)]), Local(0, Announce(0, ANNOUNCED)));
      OneMoreReport(decode, n - 1);
    }
  }

  lemma StartsRunning(decode: Decoder)
    ensures LocalNext(decode, 0, HOLDING, Launch(0, 0)) == Busy(0)
  {
    assert Told(0) == [ACCEPTED_EVENT, STARTED_EVENT];
    assert [ACCEPTED_EVENT] + [STARTED_EVENT] == Told(0);
    var after := MarkStarted(HOLDING.db, 0, 0, 0).value;
    assert after.outbox == Told(0) && after.rows == map[0 := ROW];
    assert after.outbox[1..] == [STARTED_EVENT];
  }

  /** Both jobs submitted, the first running with 2002 reports unsent. */
  const LOADED := OFFERED.(jobs := [Job(SPEC, JobQueued, 1, 0), Job(SPEC, JobQueued, 1, 1)],
                           keys := map["key" := KeyRow(SPEC, 0), "other" := KeyRow(SPEC, 1)])

  function LoadSteps(): seq<Step> {
    PREFIX + [Local(0, Launch(0, 0))] + Announcing(2000) + [Admin(Submit("other", SPEC, 1))]
  }

  function Loaded(): System {
    System(LOADED, map[0 := Busy(2000)], {FIRST_REQUEST}, {FIRST_RESPONSE})
  }

  lemma OtherJob()
    ensures Do(OFFERED, Submit("other", SPEC, 1)) == LOADED
  {
    assert OFFERED.jobs + [Job(SPEC, JobQueued, 1, 1)] == LOADED.jobs;
    assert OFFERED.keys["other" := KeyRow(SPEC, 1)] == LOADED.keys;
  }

  lemma LoadRuns(decode: Decoder)
    ensures Exec(decode, START, LoadSteps()) == Loaded()
  {
    hide SyncWorker, Announcing, Busy;
    PrefixRuns(decode);
    var launch, submit := Local(0, Launch(0, 0)), Admin(Submit("other", SPEC, 1));
    StartsRunning(decode);
    var launched := STORED.(nodes := STORED.nodes[0 := Busy(0)]);
    ExecSplit(decode, START, PREFIX, [launch]);
    ExecOne(decode, STORED, launch);
    assert Next(decode, STORED, launch) == launched;
    ExecSplit(decode, START, PREFIX + [launch], Announcing(2000));
    Announcements(decode, launched, 2000);
    var announced := launched.(nodes := launched.nodes[0 := Busy(2000)]);
    ExecSplit(decode, START, PREFIX + [launch] + Announcing(2000), [submit]);
    ExecOne(decode, announced, submit);
    OtherJob();
    assert announced.nodes == map[0 := Busy(2000)];
  }

  /******* The first batch *******/

  lemma {:induction false} ReportAt(n: nat, k: nat)
    requires k < n + 2
    ensures Told(n)[k].attemptId == 0
    ensures Told(n)[k].body.EventAccepted? || Told(n)[k].body.EventStarted? || Told(n)[k].body == EventArtifacts(ANNOUNCED)
  {
    if n > 0 {
      if k == n + 1 {
        assert Told(n)[k] == Reports(n)[n - 1];
      } else {
        ReportAt(n - 1, k);
        assert Told(n)[k] == Told(n - 1)[k];
      }
    }
  }

  lemma {:induction false} ToldPrefix(n: nat, m: nat)
    requires m <= n
    ensures Told(n)[..m + 2] == Told(m)
  {
    if m < n {
      ToldPrefix(n - 1, m);
      assert Told(n) == Told(n - 1) + [Reports(n)[n - 1]];
      assert Told(n)[..m + 2] == Told(n - 1)[..m + 2];
    }
  }

  lemma {:induction false} ToldIsRunning(n: nat)
    ensures PhaseOf(Told(n), 0).PhaseRunning?
  {
    if n == 0 {
      assert Told(0) == ([] + [ACCEPTED_EVENT]) + [STARTED_EVENT];
      AppendEvent([], ACCEPTED_EVENT, 0);
      AppendEvent([] + [ACCEPTED_EVENT], STARTED_EVENT, 0);
    } else {
      ToldIsRunning(n - 1);
      assert Told(n) == Told(n - 1) + [Reports(n)[n - 1]];
      AppendEvent(Told(n - 1), Reports(n)[n - 1], 0);
    }
  }

  /** Every report of the running job passes the content checks. */
  lemma ReportsPass(s: Server, n: nat, k: nat)
    requires k < n + 2 && |s.attempts| > 0 && s.attempts[0].job < |s.jobs|
    ensures PayloadOk(s, Told(n)[k])
  {
    ReportAt(n, k);
  }

  lemma LoadedInv(decode: Decoder)
    ensures SysInv(decode, Loaded())
  {
    hide SyncWorker, SysInv, Loaded, LoadSteps;
    LoadRuns(decode);
    ReachableInv(decode, LoadSteps());
  }

  function Sent(): SyncRequest {
    RequestOf(0, Busy(2000), CAPACITY)
  }

  /** The first batch is accepted. */
  lemma BatchAccepted(decode: Decoder)
    ensures SyncWorker(LOADED, Sent()).Ok?
  {
    hide SyncWorker, SysInv;
    LoadedInv(decode);
    AcceptedIff(decode, Loaded(), 0, CAPACITY);
    forall k | 0 <= k < 1000 ensures PayloadOk(LOADED, Told(2000)[k]) {
      ReportsPass(LOADED, 2000, k);
    }
  }

  /** What the first batch leaves recorded, and the running job's attempt. */
  lemma BatchRecordedAs(decode: Decoder)
    requires SyncWorker(LOADED, Sent()).Ok?
    ensures var t := SyncWorker(LOADED, Sent()).value.0;
            && Inv(t) && Evolves(LOADED, t) && AttemptsTracked(t) && |t.attempts| > 0
            && RecordedBy(t.log, 0) == Told(998) && t.attempts[0].state.AttemptRunning?
  {
    hide SyncWorker, SysInv;
    LoadedInv(decode);
    FreshVerdict(decode, Loaded(), 0, CAPACITY);
    var t := SyncWorker(LOADED, Sent()).value.0;
    ToldPrefix(2000, 998);
    ToldIsRunning(998);
    assert AttemptEvolvesAt(LOADED, t, 0);
    assert TrackedAt(t, 0);
  }

  /******* The other job is offered *******/

  /** Recording events leaves the rows of jobs they are not about. */
  lemma {:induction false} OtherJobsStay(s: Server, worker: WorkerId, session: SessionId, events: seq<WorkerEvent>, job: JobId)
    requires Inv(s) && job < |s.jobs| && RecordAll(s, worker, session, events).Ok?
    requires forall k :: 0 <= k < |events| ==>
               events[k].attemptId < |s.attempts| && s.attempts[events[k].attemptId].job != job
    ensures var t := RecordAll(s, worker, session, events).value;
            |t.jobs| == |s.jobs| && t.jobs[job] == s.jobs[job] && |t.attempts| == |s.attempts|
    decreases |events|
  {
    if |events| > 0 {
      OneEventStays(s, worker, session, events[0], job);
      RecordPreserves(s, worker, session, events[0]);
      var m := RecordWorkerEvent(s, worker, session, events[0]).value;
      forall k | 0 <= k < |events[1..]|
        ensures events[1..][k].attemptId < |m.attempts| && m.attempts[events[1..][k].attemptId].job != job
      {
        assert events[1..][k] == events[k + 1];
        assert AttemptEvolvesAt(s, m, events[k + 1].attemptId);
      }
      OtherJobsStay(m, worker, session, events[1..], job);
    }
  }

  lemma OneEventStays(s: Server, worker: WorkerId, session: SessionId, e: WorkerEvent, job: JobId)
    requires job < |s.jobs| && RecordWorkerEvent(s, worker, session, e).Ok?
    requires e.attemptId < |s.attempts| && s.attempts[e.attemptId].job != job
    ensures var t := RecordWorkerEvent(s, worker, session, e).value;
            |t.jobs| == |s.jobs| && t.jobs[job] == s.jobs[job] && |t.attempts| == |s.attempts|
  {
  }

  /** The control plane when the first batch is recorded and nothing new is offered yet. */
  lemma BeforeOffering(decode: Decoder)
    requires SyncWorker(LOADED, Sent()).Ok?
    ensures var recorded := RecordAll(LOADED, 0, 0, Sent().events);
            && recorded.Ok? && SyncWorker(LOADED, Sent()).value.0 == OfferJobs(recorded.value, 0, CAPACITY)
            && Inv(recorded.value) && Evolves(LOADED, recorded.value)
            && |recorded.value.attempts| == 1 && |recorded.value.jobs| == 2
            && recorded.value.jobs[1] == LOADED.jobs[1]
  {
    hide Inv, RecordWorkerEvent, RecordAll, OfferFrom, Candidates, CurrentAllocation, Reports;
    LoadedInv(decode);
    forall k | 0 <= k < |Sent().events| ensures Sent().events[k].attemptId == 0 {
      ReportAt(2000, k);
    }
    RecordAllPreserves(LOADED, 0, 0, Sent().events);
    OtherJobsStay(LOADED, 0, 0, Sent().events, 1);
  }

  lemma OnlyOnce(jobs: seq<Job>, ids: seq<JobId>, id: JobId)
    requires (forall k :: 0 <= k < |ids| ==> ids[k] < |jobs|) && InOrder(jobs, ids)
    ensures |ids| > 1 ==> exists k :: 0 <= k < |ids| && ids[k] != id
  {
    if |ids| > 1 {
      assert Before(jobs, ids[0], ids[1]);
      assert ids[0] != id || ids[1] != id;
    }
  }

  /** The second job is the whole queue. */
  lemma QueueIsTheOther(m: Server)
    requires |m.attempts| == 1 && |m.jobs| == 2 && m.jobs[1].state.JobQueued?
    requires m.attempts[0].job == 0 && Live(m.attempts[0].state)
    ensures Candidates(m) == [1]
  {
    RankedIsTheQueue(m, 2);
    var r := Ranked(m, 2);
    assert Schedulable(m, 1);
    assert HasLiveAttempt(m.attempts, 0);
    OnlyOnce(m.jobs, r, 1);
    assert 1 in r;
    forall k | 0 <= k < |r| ensures r[k] == 1 {
      assert r[k] in r;
    }
  }

  /** One running job beside it leaves the second job room. */
  lemma OtherFits(m: Server)
    requires |m.attempts| == 1 && |m.jobs| == 2 && m.jobs[0].spec == SPEC && m.jobs[1].spec == SPEC
    requires m.attempts[0].job == 0 && m.attempts[0].worker == 0 && Live(m.attempts[0].state)
    ensures var turn := CurrentAllocation(m, 0);
            turn.active < Normalize(CAPACITY).maxParallel && JobFits(SPEC, Normalize(CAPACITY), turn)
  {
    assert HeldResources(m, 0, 0) == [];
    assert HeldResources(m, 0, 1) == [SPEC.resources];
    OneHeld(SPEC.resources);
  }

  /** The second job gets an attempt of this worker. */
  lemma OtherIsOffered(decode: Decoder) returns (c: AttemptId)
    requires SyncWorker(LOADED, Sent()).Ok?
    ensures var t := SyncWorker(LOADED, Sent()).value.0;
            && 0 < c < |t.attempts| && t.attempts[c].worker == 0 && t.attempts[c].state.AttemptOffered?
            && t.attempts[c].job == 1 && |t.jobs| == 2 && t.jobs[1].state.JobQueued?
  {
    hide SyncWorker;
    BatchRecordedAs(decode);
    BeforeOffering(decode);
    var m := RecordAll(LOADED, 0, 0, Sent().events).value;
    var t := SyncWorker(LOADED, Sent()).value.0;
    OfferFromAppends(m, 0, Normalize(CAPACITY), CurrentAllocation(m, 0), Candidates(m));
    OfferFromKeepsJobs(m, 0, Normalize(CAPACITY), CurrentAllocation(m, 0), Candidates(m));
    assert AttemptEvolvesAt(LOADED, m, 0) && JobEvolvesAt(LOADED, m, 0);
    assert m.attempts[0] == t.attempts[0];
    QueueIsTheOther(m);
    OtherFits(m);
    OfferedIffItFitsInTurn(m, 0, CAPACITY, 0);
    assert Candidates(m)[..0] == [];
    assert Examined(m, 0, CAPACITY, 0) == m;
    c :| 0 <= c < |t.attempts| && t.attempts[c].job == 1 && Live(t.attempts[c].state);
  }

  /******* The response is stored and acknowledged *******/

  function Answer(): SyncResponse
    requires SyncWorker(LOADED, Sent()).Ok?
  {
    SyncWorker(LOADED, Sent()).value.1
  }

  lemma AnswerStorable(decode: Decoder)
    requires SyncWorker(LOADED, Sent()).Ok?
    ensures AcceptCommands(Busy(2000).db, 0, Answer().commands).Ok?
  {
    hide SyncWorker, SysInv;
    LoadedInv(decode);
    BatchRecordedAs(decode);
    ToldIsRunning(998);
    StorableIff(decode, Loaded(), 0, CAPACITY);
  }

  /** The worker after the round: its first batch acknowledged, the second job's acceptance enqueued last. */
  function Rounded(): Node
    requires SyncWorker(LOADED, Sent()).Ok? && AcceptCommands(Busy(2000).db, 0, Answer().commands).Ok?
  {
    Handled(0, Busy(2000), Answer())
  }

  lemma {:induction false} ToldOnlyOfFirst(n: nat, c: AttemptId)
    requires c != 0
    ensures PhaseOf(Told(n), c).PhaseNone?
  {
    if n == 0 {
      assert Told(0) == ([] + [ACCEPTED_EVENT]) + [STARTED_EVENT];
      AppendEvent([], ACCEPTED_EVENT, c);
      AppendEvent([] + [ACCEPTED_EVENT], STARTED_EVENT, c);
    } else {
      ToldOnlyOfFirst(n - 1, c);
      assert Told(n) == Told(n - 1) + [Reports(n)[n - 1]];
      AppendEvent(Told(n - 1), Reports(n)[n - 1], c);
    }
  }

  /** Exactly the first batch is acknowledged, and the next one is about the running job only. */
  lemma RoundLeaves(decode: Decoder)
    requires SyncWorker(LOADED, Sent()).Ok? && AcceptCommands(Busy(2000).db, 0, Answer().commands).Ok?
    ensures Kept(Rounded()) == 1000 && 2000 <= |Rounded().history| && Rounded().history[..2000] == Told(1998)
  {
    hide SyncWorker, SysInv, Inv, Evolves, Tracks, AcceptCommands, DropThrough, RowsOwned, RowsEvolve, RowsFrom, PhaseOf, RecordedBy, AllInSession, MetricsExact, PhaseAgrees, RowOk;
    LoadedInv(decode);
    var t, n := SyncWorker(LOADED, Sent()).value.0, Busy(2000);
    FreshSync(decode, Loaded(), 0, CAPACITY);
    BatchRecordedAs(decode);
    AcknowledgedAfterStoring(decode, t, 0, n, 1000);
    CommandsAreShaped(t, Answer());
    AcceptKeepsNode(decode, 0, n, Answer().commands);
    var m := Stored(n, AcceptCommands(n.db, 0, Answer().commands).value);
    AcknowledgedOutbox(0, m, Answer().acceptedThrough);
    ToldPrefix(2000, 1998);
    assert m.history[..2000] == Told(2000)[..2000];
  }

  lemma SecondIsBacklogged(decode: Decoder) returns (c: AttemptId)
    requires SyncWorker(LOADED, Sent()).Ok? && AcceptCommands(Busy(2000).db, 0, Answer().commands).Ok?
    ensures var t := SyncWorker(LOADED, Sent()).value.0;
            && c < |t.attempts| && t.attempts[c].job == 1 && |t.jobs| == 2 && t.jobs[1].state.JobQueued?
            && c in Rounded().db.rows && Rounded().db.rows[c].command == RunCommand(t, c) && BeyondBatch(Rounded(), c)
  {
    hide SyncWorker, SysInv;
    LoadedInv(decode);
    FreshSync(decode, Loaded(), 0, CAPACITY);
    c := OtherIsOffered(decode);
    OfferIsStored(decode, SyncWorker(LOADED, Sent()).value.0, 0, Busy(2000), c);
    RoundLeaves(decode);
    ToldOnlyOfFirst(1998, c);
  }

  /******* The cancel *******/

  function Rounds(): seq<Step> {
    LoadSteps() + Round(Loaded(), 0, CAPACITY)
  }

  lemma RoundRuns(decode: Decoder)
    requires SyncWorker(LOADED, Sent()).Ok? && AcceptCommands(Busy(2000).db, 0, Answer().commands).Ok?
    ensures var sys := Exec(decode, START, Rounds());
            && sys.server == SyncWorker(LOADED, Sent()).value.0 && 0 in sys.nodes && sys.nodes[0] == Rounded()
  {
    hide SyncWorker, LoadSteps, Busy, Round, Exec, AcceptCommands, Handled;
    LoadRuns(decode);
    ExecSplit(decode, START, LoadSteps(), Round(Loaded(), 0, CAPACITY));
    RoundSteps(decode, Loaded(), 0, CAPACITY);
  }

  /** After the cancel the next batch is still accepted: it is new, and all about the running job. */
  lemma NextBatchAccepted(decode: Decoder)
    requires SyncWorker(LOADED, Sent()).Ok? && AcceptCommands(Busy(2000).db, 0, Answer().commands).Ok?
    ensures var sys := Exec(decode, START, Rounds() + [Admin(Cancel(1))]);
            && 0 in sys.nodes && SyncWorker(sys.server, RequestOf(0, sys.nodes[0], CAPACITY)).Ok?
  {
    hide SyncWorker, SysInv, Rounds, Busy, Exec, AcceptCommands, Rounded, Told;
    RoundRuns(decode);
    ExecSplit(decode, START, Rounds(), [Admin(Cancel(1))]);
    ExecOne(decode, Exec(decode, START, Rounds()), Admin(Cancel(1)));
    var sys := Exec(decode, START, Rounds() + [Admin(Cancel(1))]);
    ReachableInv(decode, Rounds() + [Admin(Cancel(1))]);
    BatchRecordedAs(decode);
    RoundLeaves(decode);
    AcceptedIff(decode, sys, 0, CAPACITY);
    forall k | 1000 <= k < 2000 ensures PayloadOk(sys.server, Rounded().history[k]) {
      ReportsPass(sys.server, 1998, k);
      assert Rounded().history[k] == Told(1998)[k];
    }
  }

  /**
   The run: every request is answered and every answer handled before the next one is sent, and still, once the
   second job is canceled, the next round's request is accepted, its response carries the cancel, and the worker
   refuses it.
   */
  lemma CanceledDuringBacklog(decode: Decoder) returns (c: AttemptId)
    ensures Backlogged(Exec(decode, START, Rounds()), 0, c)
    ensures var sys := Exec(decode, START, Rounds() + [Admin(Cancel(1))]);
            && 0 in sys.nodes
            && var r := SyncWorker(sys.server, RequestOf(0, sys.nodes[0], CAPACITY));
               r.Ok? && CancelAttempt(c) in r.value.1.commands && AcceptCommands(sys.nodes[0].db, 0, r.value.1.commands).Err?
  {
    hide SyncWorker;
    BatchAccepted(decode);
    AnswerStorable(decode);
    c := SecondIsBacklogged(decode);
    RoundRuns(decode);
    NextBatchAccepted(decode);
    var before := Rounds();
    assert before + [Admin(Cancel(1))] + [] == before + [Admin(Cancel(1))];
    CancelDuringBacklogWedges(decode, before, 0, c, [], CAPACITY);
  }
}
