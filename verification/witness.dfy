/**
 A run, from the empty system, on which an exchange that looks harmless to repeat fails: one worker, one job,
 one offer.
 */
module Witness {
  import opened Wrappers
  import opened Domain
  import opened JobSpecs
  import opened Scheduler
  import opened ControlPlane
  import opened Lifecycle
  import opened Runs
  import opened WorkerDb
  import opened Tracking
  import opened Nodes
  import opened Protocol
  import Progress

  const SPEC := JobSpec("project", 0, map[], Resources(1, 1, []), 2, [], [])
  const CAPACITY := Capacity(4, 0, 0, 0, 2, map[], ["project"])

  const FIRST_REQUEST := SyncRequest(0, 0, CAPACITY, [])
  const OFFER := RunJob(0, 0, 1, 0, JobQueued, 1, SPEC)
  const FIRST_RESPONSE := SyncResponse(0, 0, [OFFER])

  const OFFERED := Server({0}, {}, [Job(SPEC, JobQueued, 1, 0)], [Attempt(0, 1, 0, AttemptOffered, 1, None)],
                          [], [], map["key" := KeyRow(SPEC, 0)])
  const ACCEPTED_EVENT := WorkerEvent(1, EventId(0, 1), 0, EventAccepted)
  const HOLDING := Node(Db(map[0 := Row(0, OFFER, RowPending, false, 0)], [ACCEPTED_EVENT], 1), 0, [ACCEPTED_EVENT], map[])

  /** The job is submitted, offered, and its command stored by the worker; its acceptance is not reported yet. */
  const PREFIX: seq<Step> :=
    [Enroll(0), Admin(Submit("key", SPEC, 0)), Send(0, CAPACITY), Deliver(FIRST_REQUEST), Local(0, Persist(FIRST_RESPONSE))]
  const STORED := System(OFFERED, map[0 := HOLDING], {FIRST_REQUEST}, {FIRST_RESPONSE})

  /** The first sync, by hand. */
  lemma FirstSync(s: Server)
    requires s == OFFERED.(attempts := [])
    ensures SyncWorker(s, FIRST_REQUEST) == Ok((OFFERED, FIRST_RESPONSE))
  {
    assert Schedulable(s, 0);
    assert Ranked(s, 0) == [];
    assert Ranked(s, 1) == [0];
    assert Candidates(s) == [0];
    var capacity := Normalize(CAPACITY);
    assert capacity == CAPACITY;
    assert CurrentAllocation(s, 0) == NO_ALLOCATION;
    assert JobFits(SPEC, capacity, NO_ALLOCATION);
    assert Offer(s, 0, 0) == OFFERED;
    var ids: seq<JobId> := [0];
    assert ids[1..] == [];
    assert OfferFrom(s, 0, capacity, NO_ALLOCATION, ids) == OfferFrom(OFFERED, 0, capacity, Occupy(NO_ALLOCATION, SPEC.resources), []);
    assert OfferJobs(s, 0, CAPACITY) == OFFERED;
    assert OfferedCommands(OFFERED, 0, 0) == [] && CancelCommands(OFFERED, 0, 0) == [];
    assert OfferedCommands(OFFERED, 0, 1) == [OFFER];
    assert CancelCommands(OFFERED, 0, 1) == [];
    assert RecordAll(s, 0, 0, []) == Ok(s);
    assert AcceptedThrough([], 0, 0) == 0;
    assert Respond(OFFERED, 0, 0) == FIRST_RESPONSE;
  }

  lemma StoredByWorker()
    ensures AcceptCommands(FRESH, 0, [OFFER]) == Ok(HOLDING.db)
    ensures Stored(NEW_NODE, HOLDING.db) == HOLDING
  {
    assert [OFFER][1..] == [];
    var one := AcceptCommand(FRESH, 0, OFFER).value;
    assert one.outbox == [ACCEPTED_EVENT] && one.rows == HOLDING.db.rows && one.last == 1;
    assert AcceptCommands(one, 0, []) == Ok(one);
    assert HOLDING.db.outbox[0..] == [ACCEPTED_EVENT];
  }

  const WAITING := System(OFFERED.(attempts := []), map[0 := NEW_NODE], {}, {})

  lemma Submitted(decode: Decoder)
    ensures Next(decode, Next(decode, START, PREFIX[0]), PREFIX[1]) == WAITING
  {
    var enrolled := Next(decode, START, PREFIX[0]);
    assert enrolled.nodes == map[0 := NEW_NODE] && enrolled.server.workers == {0};
    var submitted := Next(decode, enrolled, PREFIX[1]);
    assert submitted.server.keys == map["key" := KeyRow(SPEC, 0)];
    assert submitted.server.jobs == [Job(SPEC, JobQueued, 1, 0)];
    assert submitted.server == WAITING.server;
  }

  const ANSWERED := System(OFFERED, map[0 := NEW_NODE], {FIRST_REQUEST}, {FIRST_RESPONSE})

  lemma Answered(decode: Decoder)
    ensures Next(decode, Next(decode, WAITING, PREFIX[2]), PREFIX[3]) == ANSWERED
  {
    var sent := Next(decode, WAITING, PREFIX[2]);
    assert sent.requests == {FIRST_REQUEST};
    FirstSync(sent.server);
    var delivered := Next(decode, sent, PREFIX[3]);
    assert delivered.responses == {FIRST_RESPONSE};
  }

  lemma Stocked(decode: Decoder)
    ensures Next(decode, ANSWERED, PREFIX[4]) == STORED
  {
    StoredByWorker();
    assert Next(decode, ANSWERED, PREFIX[4]).nodes == map[0 := HOLDING];
  }

  lemma PrefixRuns(decode: Decoder)
    ensures Exec(decode, START, PREFIX) == STORED
  {
    Submitted(decode);
    Answered(decode);
    Stocked(decode);
    ExecFive(decode, START, PREFIX);
  }

  lemma ExecFive(decode: Decoder, sys: System, steps: seq<Step>)
    requires |steps| == 5
    ensures Exec(decode, sys, steps) ==
            Next(decode, Next(decode, Next(decode, Next(decode, Next(decode, sys, steps[0]), steps[1]), steps[2]), steps[3]), steps[4])
  {
    Progress.ExecThree(decode, sys, steps[0], steps[1], steps[2]);
    var mid := Exec(decode, sys, steps[..3]);
    assert steps[..3] == [steps[0], steps[1], steps[2]];
    assert steps == steps[..3] + [steps[3]] + [steps[4]];
    ExecSplit(decode, sys, steps[..3], [steps[3]]);
    ExecSplit(decode, sys, steps[..3] + [steps[3]], [steps[4]]);
    Progress.ExecOne(decode, mid, steps[3]);
    Progress.ExecOne(decode, Next(decode, mid, steps[3]), steps[4]);
  }

  /******* A batch re-sent by the next session *******/

  const SECOND_REQUEST := SyncRequest(0, 0, CAPACITY, [ACCEPTED_EVENT])
  const RESENT := SyncRequest(0, 1, CAPACITY, [ACCEPTED_EVENT])

  lemma AcceptedIsRecorded(s: Server)
    requires s == OFFERED
    ensures SyncWorker(s, SECOND_REQUEST).Ok?
    ensures SyncWorker(s, SECOND_REQUEST).value.0.log == [LogEntry(0, 0, ACCEPTED_EVENT)]
    ensures SyncWorker(s, SECOND_REQUEST).value.0.workers == {0}
  {
    assert [ACCEPTED_EVENT][1..] == [];
    assert RecordedAt([], 0, 0, 1) == None;
    assert !HasEventId([], EventId(0, 1));
    var recorded := RecordWorkerEvent(s, 0, 0, ACCEPTED_EVENT);
    assert recorded.Ok?;
    assert RecordAll(s, 0, 0, [ACCEPTED_EVENT]) == Ok(recorded.value);
    OfferFromKeepsKeys(recorded.value, 0, Normalize(CAPACITY), CurrentAllocation(recorded.value, 0), Candidates(recorded.value));
  }

  /** The acceptance is recorded, its response is lost and the agent restarts: the new session's sync is refused. */
  lemma ResentBatchIsRefused(decode: Decoder)
    ensures var sys := Exec(decode, START, PREFIX + [Send(0, CAPACITY), Deliver(SECOND_REQUEST), Local(0, Restart)]);
            && 0 in sys.nodes && RequestOf(0, sys.nodes[0], CAPACITY) == RESENT
            && SyncWorker(sys.server, RESENT) == Err(ControlPlane.Error.NoDuplicateRow)
  {
    var rest := [Send(0, CAPACITY), Deliver(SECOND_REQUEST), Local(0, Restart)];
    PrefixRuns(decode);
    ExecSplit(decode, START, PREFIX, rest);
    AcceptedIsRecorded(OFFERED);
    Progress.LostResponseSteps(decode, STORED, 0, CAPACITY);
    ResentIsRefused(SyncWorker(OFFERED, SECOND_REQUEST).value.0);
  }

  lemma ResentIsRefused(t: Server)
    requires t.log == [LogEntry(0, 0, ACCEPTED_EVENT)] && t.workers == {0}
    ensures SyncWorker(t, RESENT) == Err(ControlPlane.Error.NoDuplicateRow)
  {
    assert t.log[..0] == [];
    assert RecordedAt(t.log, 0, 1, 1) == None;
    assert t.log[0].event.eventId == EventId(0, 1);
    assert HasEventId(t.log, EventId(0, 1));
  }
}
