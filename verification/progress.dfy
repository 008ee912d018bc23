/**
 When an exchange makes progress: which requests the control plane accepts, which responses a worker can
 store, what a whole cycle achieves, and how a cancel reaches the worker.  Two promises hold only in part;
 for each there is the exact condition, and how it fails for good.
 */
module Progress {
  import opened Wrappers
  import opened Domain
  import opened JobSpecs
  import opened Scheduler
  import opened ControlPlane
  import opened Lifecycle
  import opened Runs
  import opened WorkerDb
  import opened Streams
  import opened Tracking
  import opened SessionLog
  import opened Exchange
  import opened Nodes
  import opened Protocol

  /******* Requests *******/

  /** The oldest event still in the outbox was recorded already, but under an earlier session. */
  predicate HeadStuck(s: Server, w: WorkerId, n: Node) {
    && |n.db.outbox| > 0 && 0 <= Kept(n) < |RecordedBy(s.log, w)|
    && SessionsBy(s.log, w)[Kept(n)] != n.session
  }

  /** Every event of the batch that is not recorded yet passes the content checks. */
  predicate PayloadsOk(s: Server, w: WorkerId, n: Node) {
    forall k :: 0 <= Kept(n) <= k < Kept(n) + |Events(n.db, 1000)| && |RecordedBy(s.log, w)| <= k < |n.history| ==>
      PayloadOk(s, n.history[k])
  }

  lemma BatchIsStretch(n: Node)
    requires OutboxOk(n)
    ensures 0 <= Kept(n) && Kept(n) + |Events(n.db, 1000)| <= |n.history|
    ensures Events(n.db, 1000) == n.history[Kept(n)..Kept(n) + |Events(n.db, 1000)|]
  {
  }

  lemma FreshVerdict(decode: Decoder, sys: System, w: WorkerId, capacity: Capacity)
    requires SysInv(decode, sys) && w in sys.nodes
    ensures 0 <= Kept(sys.nodes[w]) && Kept(sys.nodes[w]) + |Events(sys.nodes[w].db, 1000)| <= |sys.nodes[w].history|
    ensures w in Hist(sys) && Verdict(sys.server, Hist(sys), RequestOf(w, sys.nodes[w], capacity), Kept(sys.nodes[w]))
  {
    HistoriesAreOk(decode, sys);
    assert NodeInv(decode, sys.server, w, sys.nodes[w]);
    BatchIsStretch(sys.nodes[w]);
    SyncBatch(sys.server, Hist(sys), RequestOf(w, sys.nodes[w], capacity), Kept(sys.nodes[w]));
  }

  /** In the current session an event recorded before is acceptable exactly when the oldest one is. */
  lemma SessionOfTail(decode: Decoder, sys: System, w: WorkerId, k: nat)
    requires SysInv(decode, sys) && w in sys.nodes && 0 <= Kept(sys.nodes[w]) <= k < |RecordedBy(sys.server.log, w)|
    ensures SessionsBy(sys.server.log, w)[Kept(sys.nodes[w])] == sys.nodes[w].session ==>
              InSession(sys.server.log, w, sys.nodes[w].session, k + 1)
    ensures InSession(sys.server.log, w, sys.nodes[w].session, k + 1) ==>
              SessionsBy(sys.server.log, w)[k] == sys.nodes[w].session
  {
    HistoriesAreOk(decode, sys);
    InSessionByPosition(sys.server, Hist(sys), w, sys.nodes[w].session, k + 1);
    assert RecordsOk(sys.server, w, sys.nodes[w]);
  }

  /**
   A request sent now is accepted exactly when the oldest event of its batch is not one that an earlier
   session recorded, and the new events pass the content checks.
   */
  lemma FreshRequestAcceptedIff(decode: Decoder, steps: seq<Step>, w: WorkerId, capacity: Capacity)
    requires w in Exec(decode, START, steps).nodes
    ensures var sys := Exec(decode, START, steps);
            var n := sys.nodes[w];
            SyncWorker(sys.server, RequestOf(w, n, capacity)).Ok? <==>
            !HeadStuck(sys.server, w, n) && PayloadsOk(sys.server, w, n)
  {
    ReachableInv(decode, steps);
    AcceptedIff(decode, Exec(decode, START, steps), w, capacity);
  }

  lemma AcceptedMeansFree(decode: Decoder, sys: System, w: WorkerId, i: nat, j: nat)
    requires SysInv(decode, sys) && w in sys.nodes && i == Kept(sys.nodes[w])
    requires j == i + |Events(sys.nodes[w].db, 1000)| && j <= |sys.nodes[w].history|
    requires BatchAcceptable(sys.server, w, sys.nodes[w].session, sys.nodes[w].history, i, j)
    ensures !HeadStuck(sys.server, w, sys.nodes[w])
    ensures PayloadsOk(sys.server, w, sys.nodes[w])
  {
    var n := sys.nodes[w];
    if HeadStuck(sys.server, w, n) {
      assert Acceptable(sys.server, w, n.session, n.history, i);
      SessionOfTail(decode, sys, w, i);
    }
    forall k | i <= k < j && |RecordedBy(sys.server.log, w)| <= k ensures PayloadOk(sys.server, n.history[k]) {
      assert Acceptable(sys.server, w, n.session, n.history, k);
    }
  }

  lemma FreeMeansAccepted(decode: Decoder, sys: System, w: WorkerId, i: nat, j: nat)
    requires SysInv(decode, sys) && w in sys.nodes && i == Kept(sys.nodes[w])
    requires j == i + |Events(sys.nodes[w].db, 1000)| && j <= |sys.nodes[w].history|
    requires !HeadStuck(sys.server, w, sys.nodes[w]) && PayloadsOk(sys.server, w, sys.nodes[w])
    ensures BatchAcceptable(sys.server, w, sys.nodes[w].session, sys.nodes[w].history, i, j)
  {
    var n := sys.nodes[w];
    forall k | i <= k < j ensures Acceptable(sys.server, w, n.session, n.history, k) {
      if k < |RecordedBy(sys.server.log, w)| {
        SessionOfTail(decode, sys, w, k);
      }
    }
  }

  lemma AcceptedIff(decode: Decoder, sys: System, w: WorkerId, capacity: Capacity)
    requires SysInv(decode, sys) && w in sys.nodes
    ensures SyncWorker(sys.server, RequestOf(w, sys.nodes[w], capacity)).Ok? <==>
            !HeadStuck(sys.server, w, sys.nodes[w]) && PayloadsOk(sys.server, w, sys.nodes[w])
  {
    var n := sys.nodes[w];
    var i, j := Kept(n), Kept(n) + |Events(n.db, 1000)|;
    FreshVerdict(decode, sys, w, capacity);
    if BatchAcceptable(sys.server, w, n.session, n.history, i, j) {
      AcceptedMeansFree(decode, sys, w, i, j);
    } else if !HeadStuck(sys.server, w, n) && PayloadsOk(sys.server, w, n) {
      FreeMeansAccepted(decode, sys, w, i, j);
    }
  }

  /** Without an acknowledgement nothing leaves the outbox. */
  lemma KeptStays(decode: Decoder, s: Server, w: WorkerId, n: Node, step: LocalStep)
    requires NodeInv(decode, s, w, n) && !step.Confirm?
    requires step.Persist? ==> step.response.worker == w && ResponseOk(s, step.response)
    ensures var m := LocalNext(decode, w, n, step);
            Kept(m) == Kept(n) && |n.db.outbox| <= |m.db.outbox| && n.session <= m.session
  {
    if step.Persist? && AcceptCommands(n.db, w, step.response.commands).Ok? {
      CommandsAreShaped(s, step.response);
      AcceptKeepsNode(decode, w, n, step.response.commands);
    }
    if step.Ingest? && step.command in n.db.rows && n.db.rows[step.command].state.RowRunning? {
      IngestKeepsNode(decode, w, n, step.command);
    }
  }

  lemma OthersLeaveNode(decode: Decoder, sys: System, step: Step, w: WorkerId)
    requires w in sys.nodes && !(step.Local? && step.worker == w && Received(sys, w, step.step))
    ensures var t := Next(decode, sys, step); w in t.nodes && t.nodes[w] == sys.nodes[w]
  {
  }

  lemma StuckWhileRecording(s: Server, t: Server, w: WorkerId, n: Node)
    requires s.log <= t.log && HeadStuck(s, w, n)
    ensures HeadStuck(t, w, n)
  {
    RecordedGrows(s.log, t.log, w);
  }

  lemma StuckWhileWorking(decode: Decoder, s: Server, w: WorkerId, n: Node, step: LocalStep)
    requires NodeInv(decode, s, w, n) && RecordsOk(s, w, n) && HeadStuck(s, w, n) && !step.Confirm?
    requires step.Persist? ==> step.response.worker == w && ResponseOk(s, step.response)
    ensures HeadStuck(s, w, LocalNext(decode, w, n, step))
  {
    KeptStays(decode, s, w, n, step);
  }

  lemma StuckStays(decode: Decoder, sys: System, step: Step, w: WorkerId)
    requires SysInv(decode, sys) && w in sys.nodes && HeadStuck(sys.server, w, sys.nodes[w])
    requires !(step.Local? && step.worker == w && step.step.Confirm?)
    ensures var t := Next(decode, sys, step); w in t.nodes && HeadStuck(t.server, w, t.nodes[w])
  {
    if step.Local? && step.worker == w && Received(sys, w, step.step) {
      assert RecordsOk(sys.server, w, sys.nodes[w]) && NodeInv(decode, sys.server, w, sys.nodes[w]);
      StuckWhileWorking(decode, sys.server, w, sys.nodes[w], step.step);
    } else {
      OthersLeaveNode(decode, sys, step, w);
      NextPreserves(decode, sys, step);
      StuckWhileRecording(sys.server, Next(decode, sys, step).server, w, sys.nodes[w]);
    }
  }

  predicate Confirms(step: Step, w: WorkerId) {
    step.Local? && step.worker == w && step.step.Confirm?
  }

  /** No acknowledgement reaches the worker. */
  predicate Unconfirmed(steps: seq<Step>, w: WorkerId) {
    forall i :: 0 <= i < |steps| ==> !Confirms(steps[i], w)
  }

  /** A reachable state in which the worker's oldest unacknowledged event is stuck. */
  ghost predicate Stuck(decode: Decoder, sys: System, w: WorkerId) {
    SysInv(decode, sys) && w in sys.nodes && HeadStuck(sys.server, w, sys.nodes[w])
  }

  lemma StuckNext(decode: Decoder, sys: System, step: Step, w: WorkerId)
    requires Stuck(decode, sys, w) && !Confirms(step, w)
    ensures Stuck(decode, Next(decode, sys, step), w)
  {
    StuckStays(decode, sys, step, w);
    NextPreserves(decode, sys, step);
  }

  lemma UnconfirmedTail(steps: seq<Step>, w: WorkerId)
    requires Unconfirmed(steps, w) && |steps| > 0
    ensures Unconfirmed(steps[1..], w) && !Confirms(steps[0], w)
  {
  }

  lemma {:induction false} StuckForGood(decode: Decoder, sys: System, steps: seq<Step>, w: WorkerId)
    requires Stuck(decode, sys, w) && Unconfirmed(steps, w)
    ensures Stuck(decode, Exec(decode, sys, steps), w)
    decreases |steps|
  {
    if |steps| > 0 {
      UnconfirmedTail(steps, w);
      StuckNext(decode, sys, steps[0], w);
      StuckForGood(decode, Next(decode, sys, steps[0]), steps[1..], w);
    }
  }

  function Restarted(n: Node): Node {
    n.(session := n.session + 1)
  }

  function LostResponse(sys: System, w: WorkerId, capacity: Capacity): seq<Step>
    requires w in sys.nodes
  {
    [Send(w, capacity), Deliver(RequestOf(w, sys.nodes[w], capacity)), Local(w, Restart)]
  }

  lemma ExecOne(decode: Decoder, sys: System, step: Step)
    ensures Exec(decode, sys, [step]) == Next(decode, sys, step)
  {
    assert [step][1..] == [];
  }

  lemma ExecThree(decode: Decoder, sys: System, a: Step, b: Step, c: Step)
    ensures Exec(decode, sys, [a, b, c]) == Next(decode, Next(decode, Next(decode, sys, a), b), c)
  {
    ExecOne(decode, sys, a);
    ExecOne(decode, Next(decode, sys, a), b);
    ExecOne(decode, Next(decode, Next(decode, sys, a), b), c);
    ExecSplit(decode, sys, [a], [b]);
    ExecSplit(decode, sys, [a] + [b], [c]);
    assert [a, b, c] == [a] + [b] + [c];
  }

  /** What a batch recorded in one session looks like to the next. */
  lemma RecordedThenRestarted(t: Server, h: Histories, w: WorkerId, n: Node, m: Node)
    requires PrefixRecorded(t, h) && HistoriesOk(t, h) && w in h
    requires |n.db.outbox| > 0 && 0 <= Kept(n) && InSession(t.log, w, n.session, Kept(n) + 1)
    requires m == Restarted(n)
    ensures HeadStuck(t, w, m)
  {
    InSessionByPosition(t, h, w, n.session, Kept(n) + 1);
  }

  /** After an accepted sync the oldest event of the batch is recorded in this session. */
  lemma HeadIsRecorded(decode: Decoder, sys: System, w: WorkerId, capacity: Capacity)
    requires SysInv(decode, sys) && w in sys.nodes && |sys.nodes[w].db.outbox| > 0
    requires SyncWorker(sys.server, RequestOf(w, sys.nodes[w], capacity)).Ok?
    ensures var t := SyncWorker(sys.server, RequestOf(w, sys.nodes[w], capacity)).value.0;
            && 0 <= Kept(sys.nodes[w]) && w in Hist(sys) && Tracks(t, Hist(sys)) && HistoriesOk(t, Hist(sys))
            && InSession(t.log, w, sys.nodes[w].session, Kept(sys.nodes[w]) + 1)
  {
    hide SyncWorker, Inv, AttemptsTracked, NodeOk, MessagesOk;
    FreshVerdict(decode, sys, w, capacity);
    HistoriesAreOk(decode, sys);
    OwnedStays(sys.server, SyncWorker(sys.server, RequestOf(w, sys.nodes[w], capacity)).value.0, Hist(sys));
  }

  /** The three steps of a lost response: the batch is recorded, and the agent starts anew. */
  lemma LostResponseSteps(decode: Decoder, sys: System, w: WorkerId, capacity: Capacity)
    requires w in sys.nodes && SyncWorker(sys.server, RequestOf(w, sys.nodes[w], capacity)).Ok?
    ensures var t := Exec(decode, sys, LostResponse(sys, w, capacity));
            && w in t.nodes && t.nodes[w] == Restarted(sys.nodes[w])
            && t.server == SyncWorker(sys.server, RequestOf(w, sys.nodes[w], capacity)).value.0
  {
    var request := RequestOf(w, sys.nodes[w], capacity);
    ExecThree(decode, sys, Send(w, capacity), Deliver(request), Local(w, Restart));
    var sent := Next(decode, sys, Send(w, capacity));
    assert request in sent.requests && sent.server == sys.server && sent.nodes == sys.nodes;
  }

  lemma HeadSticks(decode: Decoder, sys: System, w: WorkerId, capacity: Capacity)
    requires SysInv(decode, sys) && w in sys.nodes && |sys.nodes[w].db.outbox| > 0
    requires SyncWorker(sys.server, RequestOf(w, sys.nodes[w], capacity)).Ok?
    ensures HeadStuck(SyncWorker(sys.server, RequestOf(w, sys.nodes[w], capacity)).value.0, w,
                      Restarted(sys.nodes[w]))
  {
    var n := sys.nodes[w];
    HeadIsRecorded(decode, sys, w, capacity);
    RecordedThenRestarted(SyncWorker(sys.server, RequestOf(w, n, capacity)).value.0, Hist(sys), w, n, Restarted(n));
  }

  lemma LostResponseSticks(decode: Decoder, sys: System, w: WorkerId, capacity: Capacity)
    requires SysInv(decode, sys) && w in sys.nodes && |sys.nodes[w].db.outbox| > 0
    requires SyncWorker(sys.server, RequestOf(w, sys.nodes[w], capacity)).Ok?
    ensures Stuck(decode, Exec(decode, sys, LostResponse(sys, w, capacity)), w)
  {
    HeadSticks(decode, sys, w, capacity);
    LostResponseSteps(decode, sys, w, capacity);
    ExecPreserves(decode, sys, LostResponse(sys, w, capacity));
  }

  /**
   Progress is lost across sessions: when a batch was recorded, its response was lost and the agent
   restarted, every later sync of the worker is refused, in whatever session, until one of the earlier
   responses arrives after all.
   */
  lemma LostResponseWedges(decode: Decoder, steps: seq<Step>, w: WorkerId, capacity: Capacity, more: seq<Step>, later: Capacity)
    requires w in Exec(decode, START, steps).nodes && |Exec(decode, START, steps).nodes[w].db.outbox| > 0
    requires SyncWorker(Exec(decode, START, steps).server, RequestOf(w, Exec(decode, START, steps).nodes[w], capacity)).Ok?
    requires Unconfirmed(more, w)
    ensures var t := Exec(decode, START, steps + LostResponse(Exec(decode, START, steps), w, capacity) + more);
            w in t.nodes && SyncWorker(t.server, RequestOf(w, t.nodes[w], later)).Err?
  {
    var sys := Exec(decode, START, steps);
    var lost := LostResponse(sys, w, capacity);
    ReachableInv(decode, steps);
    ExecSplit(decode, START, steps, lost);
    ExecSplit(decode, START, steps + lost, more);
    LostResponseSticks(decode, sys, w, capacity);
    StuckForGood(decode, Exec(decode, sys, lost), more, w);
    ReachableInv(decode, steps + lost + more);
    AcceptedIff(decode, Exec(decode, START, steps + lost + more), w, later);
  }

  /** Event k of the worker is not recorded and does not pass the content checks. */
  predicate Blocked(s: Server, w: WorkerId, n: Node, k: nat) {
    |RecordedBy(s.log, w)| <= k < |n.history| && !PayloadOk(s, n.history[k])
  }

  ghost predicate BlockedAt(decode: Decoder, sys: System, w: WorkerId, k: nat) {
    SysInv(decode, sys) && w in sys.nodes && Blocked(sys.server, w, sys.nodes[w], k)
  }

  /** A request that would record the event is refused. */
  lemma DeliverLeavesBlocked(decode: Decoder, sys: System, request: SyncRequest, w: WorkerId, k: nat)
    requires BlockedAt(decode, sys, w, k) && request in sys.requests && SyncWorker(sys.server, request).Ok?
    ensures |RecordedBy(SyncWorker(sys.server, request).value.0.log, w)| <= k
  {
    DeliverVerdict(decode, sys, request);
    if request.worker == w {
      var i := First(request);
      if i <= k < i + |request.events| {
        AcceptableWithin(sys.server, w, request.session, Hist(sys)[w], i, k, i + |request.events|);
      }
    }
  }

  lemma AcceptableWithin(s: Server, w: WorkerId, session: SessionId, history: seq<WorkerEvent>, i: nat, k: nat, j: nat)
    requires i <= k < j <= |history| && BatchAcceptable(s, w, session, history, i, j)
    ensures Acceptable(s, w, session, history, k)
  {
  }

  lemma StillBad(decode: Decoder, sys: System, t: System, w: WorkerId, k: nat)
    requires SysInv(decode, sys) && SysEvolves(sys, t) && w in sys.nodes && k < |sys.nodes[w].history|
    ensures w in t.nodes && k < |t.nodes[w].history|
    ensures PayloadOk(t.server, t.nodes[w].history[k]) <==> PayloadOk(sys.server, sys.nodes[w].history[k])
  {
    assert NodeInv(decode, sys.server, w, sys.nodes[w]);
    HistoryIsOwned(decode, sys.server, w, sys.nodes[w]);
    assert OwnedAt(sys.server, w, sys.nodes[w].history, k);
    assert NodeEvolves(sys.nodes[w], t.nodes[w]);
    PayloadStable(sys.server, t.server, sys.nodes[w].history[k]);
  }

  lemma BlockedStays(decode: Decoder, sys: System, step: Step, w: WorkerId, k: nat)
    requires BlockedAt(decode, sys, w, k)
    ensures BlockedAt(decode, Next(decode, sys, step), w, k)
  {
    var t := Next(decode, sys, step);
    NextPreserves(decode, sys, step);
    StillBad(decode, sys, t, w, k);
    RecordChangesByDelivery(decode, sys, step);
    if t.server.log != sys.server.log {
      DeliverLeavesBlocked(decode, sys, step.request, w, k);
    }
  }

  lemma RecordChangesByDelivery(decode: Decoder, sys: System, step: Step)
    requires Inv(sys.server)
    ensures Next(decode, sys, step).server.log != sys.server.log ==>
              && step.Deliver? && step.request in sys.requests && SyncWorker(sys.server, step.request).Ok?
              && Next(decode, sys, step).server == SyncWorker(sys.server, step.request).value.0
  {
    if step.Admin? && !step.op.Sync? {
      AdminKeepsRecords(sys.server, step.op);
    }
  }

  lemma {:induction false} BlockedForGood(decode: Decoder, sys: System, steps: seq<Step>, w: WorkerId, k: nat)
    requires BlockedAt(decode, sys, w, k)
    ensures BlockedAt(decode, Exec(decode, sys, steps), w, k)
    decreases |steps|
  {
    if |steps| > 0 {
      BlockedStays(decode, sys, steps[0], w, k);
      BlockedForGood(decode, Next(decode, sys, steps[0]), steps[1..], w, k);
    }
  }

  /**
   The worker does not check metric declarations, the control plane does: an event that fails the content
   checks is never recorded, and neither is anything the worker enqueued after it.
   */
  lemma BadEventBlocksTheRest(decode: Decoder, steps: seq<Step>, more: seq<Step>, w: WorkerId, k: nat)
    requires var sys := Exec(decode, START, steps); w in sys.nodes && Blocked(sys.server, w, sys.nodes[w], k)
    ensures |RecordedBy(Exec(decode, START, steps + more).server.log, w)| <= k
  {
    ReachableInv(decode, steps);
    ExecSplit(decode, START, steps, more);
    BlockedForGood(decode, Exec(decode, START, steps), more, w, k);
  }

  /******* Responses *******/

  /** A response can be stored exactly when no run command the worker already has differs from the stored one. */
  lemma ResponseStorableIff(decode: Decoder, steps: seq<Step>, w: WorkerId, p: SyncResponse)
    requires var sys := Exec(decode, START, steps); w in sys.nodes && p in sys.responses && p.worker == w
    ensures var n := Exec(decode, START, steps).nodes[w];
            AcceptCommands(n.db, w, p.commands).Ok? <==> AllUnchanged(n.db.rows, p.commands)
  {
    var sys := Exec(decode, START, steps);
    ReachableInv(decode, steps);
    assert NodeInv(decode, sys.server, w, sys.nodes[w]) && ResponseOk(sys.server, p);
    CommandsAreShaped(sys.server, p);
    AcceptSucceedsIff(decode, w, sys.nodes[w], p.commands);
  }

  /** The job of a command has neither moved nor been written since the command was made. */
  predicate JobUntouched(t: Server, command: WorkerCommand) {
    command.RunJob? && command.job < |t.jobs| &&
    t.jobs[command.job].state == command.jobState && t.jobs[command.job].revision == command.jobRevision
  }

  /** Every command whose acceptance the control plane has not heard of is still the offer it was. */
  predicate UnheardUntouched(t: Server, w: WorkerId, rows: map<CommandId, Row>) {
    forall c :: c in rows && PhaseOf(RecordedBy(t.log, w), c).PhaseNone? ==> JobUntouched(t, rows[c].command)
  }

  /** A stored command of the worker equals the offer made now exactly when its job is untouched. */
  lemma UntouchedIsSameOffer(t: Server, w: WorkerId, rows: map<CommandId, Row>, c: CommandId)
    requires c in rows && RowShape(rows, c) && RowOwned(t, w, rows, c)
    ensures rows[c].command == RunCommand(t, c) <==> JobUntouched(t, rows[c].command)
  {
  }

  /** An attempt is offered exactly when the control plane has not heard of it. */
  lemma OfferedIffUnheard(t: Server, w: WorkerId, c: AttemptId)
    requires AttemptsTracked(t) && c < |t.attempts| && t.attempts[c].worker == w
    ensures t.attempts[c].state.AttemptOffered? <==> PhaseOf(RecordedBy(t.log, w), c).PhaseNone?
  {
    assert TrackedAt(t, c);
  }

  lemma StorableMeansUntouched(decode: Decoder, t: Server, w: WorkerId, n: Node)
    requires AttemptsTracked(t) && Numbered(t) && NodeOk(decode, w, n) && RowsOwned(t, w, n.db.rows)
    requires AllUnchanged(n.db.rows, OfferedCommands(t, w, |t.attempts|))
    ensures UnheardUntouched(t, w, n.db.rows)
  {
    var offered := OfferedCommands(t, w, |t.attempts|);
    OfferedCommandsAreOffers(t, w, |t.attempts|);
    forall c | c in n.db.rows && PhaseOf(RecordedBy(t.log, w), c).PhaseNone? ensures JobUntouched(t, n.db.rows[c].command) {
      assert RowOk(decode, n, c) && RowOwned(t, w, n.db.rows, c);
      OfferedIffUnheard(t, w, c);
      assert RunCommand(t, c) in offered;
      var k :| 0 <= k < |offered| && offered[k] == RunCommand(t, c);
      assert Unchanged(n.db.rows, offered[k]);
      UntouchedIsSameOffer(t, w, n.db.rows, c);
    }
  }

  lemma UntouchedMeansStorable(decode: Decoder, t: Server, w: WorkerId, n: Node)
    requires AttemptsTracked(t) && NodeOk(decode, w, n) && RowsOwned(t, w, n.db.rows) && UnheardUntouched(t, w, n.db.rows)
    ensures AllUnchanged(n.db.rows, OfferedCommands(t, w, |t.attempts|))
  {
    var offered := OfferedCommands(t, w, |t.attempts|);
    OfferedCommandsAreOffers(t, w, |t.attempts|);
    forall k | 0 <= k < |offered| ensures Unchanged(n.db.rows, offered[k]) {
      var c := offered[k].attemptId;
      if c in n.db.rows {
        assert RowOk(decode, n, c) && RowOwned(t, w, n.db.rows, c);
        OfferedIffUnheard(t, w, c);
        UntouchedIsSameOffer(t, w, n.db.rows, c);
      }
    }
  }

  lemma CancelsAreAlwaysUnchanged(t: Server, w: WorkerId, session: SessionId, rows: map<CommandId, Row>)
    ensures AllUnchanged(rows, Respond(t, w, session).commands) <==> AllUnchanged(rows, OfferedCommands(t, w, |t.attempts|))
  {
    var offered, cancels := OfferedCommands(t, w, |t.attempts|), CancelCommands(t, w, |t.attempts|);
    CancelCommandsAreExact(t, w, |t.attempts|);
    var all := offered + cancels;
    assert forall k :: 0 <= k < |offered| ==> all[k] == offered[k];
    assert forall k :: |offered| <= k < |all| ==> all[k] == cancels[k - |offered|];
  }

  /** The accepted sync of a fresh batch: what it recorded, and that the worker's rows are still its own. */
  lemma FreshSync(decode: Decoder, sys: System, w: WorkerId, capacity: Capacity)
    requires SysInv(decode, sys) && w in sys.nodes
    requires SyncWorker(sys.server, RequestOf(w, sys.nodes[w], capacity)).Ok?
    ensures var n := sys.nodes[w];
            var (t, p) := SyncWorker(sys.server, RequestOf(w, n, capacity)).value;
            && Inv(t) && Evolves(sys.server, t) && Tracks(t, Hist(sys)) && w in Hist(sys)
            && RecordedBy(t.log, w) <= n.history && |RecordedBy(t.log, w)| <= Kept(n) + EVENT_LIMIT
            && 0 <= Kept(n) && Kept(n) + |Events(n.db, 1000)| <= |RecordedBy(t.log, w)|
            && AllInSession(t.log, w, n.session, Kept(n), Kept(n) + |Events(n.db, 1000)|)
            && p == Respond(t, w, n.session) && ResponseOk(t, p)
            && NodeOk(decode, w, n) && RowsOwned(t, w, n.db.rows)
  {
    hide SyncWorker, Inv, Evolves, AttemptsTracked, NodeOk, MessagesOk, RowsOwned, RowOwned;
    var n := sys.nodes[w];
    FreshVerdict(decode, sys, w, capacity);
    assert NodeInv(decode, sys.server, w, n) && RecordsOk(sys.server, w, n);
    assert RecordedBy(sys.server.log, w) <= Hist(sys)[w];
    RowsStayOwned(sys.server, SyncWorker(sys.server, RequestOf(w, n, capacity)).value.0, w, n.db.rows);
  }

  /** Recording one event leaves the job of an attempt that is only offered afterwards. */
  lemma EventLeavesOfferedJob(s: Server, w: WorkerId, session: SessionId, e: WorkerEvent, c: AttemptId)
    requires Inv(s) && RecordWorkerEvent(s, w, session, e).Ok? && c < |s.attempts|
    requires var t := RecordWorkerEvent(s, w, session, e).value; c < |t.attempts| && t.attempts[c].state.AttemptOffered?
    ensures var t := RecordWorkerEvent(s, w, session, e).value;
            |t.jobs| == |s.jobs| && t.jobs[s.attempts[c].job] == s.jobs[s.attempts[c].job]
  {
    hide Views, NumberedAt, DefinedMetric;
    var a := e.attemptId;
    if a < |s.attempts| && a != c && Live(s.attempts[c].state) {
      if a < c {
        assert EarlierFailedAt(s, a, c);
      } else {
        assert EarlierFailedAt(s, c, a);
      }
    }
  }

  lemma {:induction false} BatchLeavesOfferedJob(s: Server, w: WorkerId, session: SessionId, events: seq<WorkerEvent>, c: AttemptId)
    requires Inv(s) && RecordAll(s, w, session, events).Ok? && c < |s.attempts|
    requires var t := RecordAll(s, w, session, events).value; c < |t.attempts| && t.attempts[c].state.AttemptOffered?
    ensures var t := RecordAll(s, w, session, events).value;
            |t.jobs| == |s.jobs| && t.jobs[s.attempts[c].job] == s.jobs[s.attempts[c].job]
    decreases |events|
  {
    hide Inv, RecordWorkerEvent;
    if |events| > 0 {
      var m := RecordWorkerEvent(s, w, session, events[0]).value;
      var t := RecordAll(s, w, session, events).value;
      RecordPreserves(s, w, session, events[0]);
      RecordAllPreserves(m, w, session, events[1..]);
      assert AttemptEvolvesAt(s, m, c) && AttemptEvolvesAt(m, t, c);
      EventLeavesOfferedJob(s, w, session, events[0], c);
      BatchLeavesOfferedJob(m, w, session, events[1..], c);
    }
  }

  /** A sync leaves the job of an attempt that is only offered afterwards. */
  lemma SyncLeavesOfferedJob(s: Server, request: SyncRequest, c: AttemptId)
    requires Inv(s) && SyncWorker(s, request).Ok? && c < |s.attempts|
    requires var t := SyncWorker(s, request).value.0; c < |t.attempts| && t.attempts[c].state.AttemptOffered?
    ensures var t := SyncWorker(s, request).value.0;
            |t.jobs| == |s.jobs| && s.attempts[c].job < |s.jobs| && t.jobs[s.attempts[c].job] == s.jobs[s.attempts[c].job]
  {
    hide RecordAll, OfferFrom, Candidates, CurrentAllocation, Respond, EarlierFailed, Views;
    var w, session, events := request.worker, request.session, request.events;
    var m := RecordAll(s, w, session, events).value;
    RecordAllPreserves(s, w, session, events);
    OfferFromKeepsJobs(m, w, Normalize(request.capacity), CurrentAllocation(m, w), Candidates(m));
    OfferFromAppends(m, w, Normalize(request.capacity), CurrentAllocation(m, w), Candidates(m));
    BatchLeavesOfferedJob(s, w, session, events, c);
  }

  /** No event is about the attempt. */
  predicate NotReported(events: seq<WorkerEvent>, a: AttemptId) {
    forall k :: 0 <= k < |events| ==> events[k].attemptId != a
  }

  lemma UnheardIsNotReported(history: seq<WorkerEvent>, a: AttemptId)
    requires StreamOk(history)
    ensures PhaseOf(history, a).PhaseNone? <==> NotReported(history, a)
  {
    if NotReported(history, a) {
      NothingHeard(history, a);
    } else {
      var k :| 0 <= k < |history| && history[k].attemptId == a;
      HeardOf(history, k);
    }
  }

  lemma {:induction false} NothingHeard(history: seq<WorkerEvent>, a: AttemptId)
    requires NotReported(history, a)
    ensures PhaseOf(history, a).PhaseNone?
  {
    if |history| > 0 {
      NothingHeard(history[..|history| - 1], a);
    }
  }

  /** Every command about which nothing is recorded, and nothing is in the batch, is still the offer it was. */
  predicate UnreportedUntouched(s: Server, w: WorkerId, n: Node) {
    forall c :: c in n.db.rows && NotReported(RecordedBy(s.log, w), c) && NotReported(Events(n.db, 1000), c) ==>
      JobUntouched(s, n.db.rows[c].command)
  }

  /** What is recorded after the batch is what was recorded before and the batch. */
  lemma ReportedByBatch(history: seq<WorkerEvent>, recorded: nat, kept: nat, j: nat, a: AttemptId)
    requires kept <= recorded <= |history| && kept <= j <= |history|
    ensures NotReported(history[..if recorded < j then j else recorded], a) <==>
            NotReported(history[..recorded], a) && NotReported(history[kept..j], a)
  {
    var end := if recorded < j then j else recorded;
    assert forall k :: 0 <= k < recorded ==> history[..end][k] == history[..recorded][k];
    assert forall k :: kept <= k < j ==> history[..end][k] == history[kept..j][k - kept];
  }

  lemma StreamPrefix(history: seq<WorkerEvent>, n: nat)
    requires StreamOk(history) && n <= |history|
    ensures StreamOk(history[..n])
  {
    forall i | 0 <= i < n ensures AllowedAt(history[..n], i) {
      assert AllowedAt(history, i);
      assert history[..n][..i] == history[..i];
    }
  }

  lemma UnheardByPosition(history: seq<WorkerEvent>, recorded: nat, kept: nat, j: nat, a: AttemptId)
    requires StreamOk(history) && kept <= recorded <= |history| && kept <= j <= |history|
    ensures PhaseOf(history[..if recorded < j then j else recorded], a).PhaseNone? <==>
            NotReported(history[..recorded], a) && NotReported(history[kept..j], a)
  {
    hide PhaseOf, StreamOk, NotReported;
    var end := if recorded < j then j else recorded;
    ReportedByBatch(history, recorded, kept, j, a);
    StreamPrefix(history, end);
    UnheardIsNotReported(history[..end], a);
  }

  /** Where what is recorded and the batch lie in the worker's history. */
  lemma RecordedBeforeSync(decode: Decoder, sys: System, w: WorkerId)
    requires SysInv(decode, sys) && w in sys.nodes
    ensures var n := sys.nodes[w];
            var before := RecordedBy(sys.server.log, w);
            && StreamOk(n.history) && 0 <= Kept(n) <= |before| <= |n.history| && before == n.history[..|before|]
            && Kept(n) + |Events(n.db, 1000)| <= |n.history|
            && Events(n.db, 1000) == n.history[Kept(n)..Kept(n) + |Events(n.db, 1000)|]
  {
    hide SyncWorker, Inv, AttemptsTracked, MessagesOk, RowsOwned, RowOk, PhaseAgrees, RecordedBy, StreamOk, Events;
    assert NodeInv(decode, sys.server, w, sys.nodes[w]);
    assert RecordedBy(sys.server.log, w) <= Hist(sys)[w];
    BatchIsStretch(sys.nodes[w]);
  }

  /** And what is recorded after the sync. */
  lemma RecordedAfterSync(decode: Decoder, sys: System, w: WorkerId, capacity: Capacity)
    requires SysInv(decode, sys) && w in sys.nodes
    requires SyncWorker(sys.server, RequestOf(w, sys.nodes[w], capacity)).Ok?
    ensures var n := sys.nodes[w];
            var before, after := RecordedBy(sys.server.log, w), RecordedBy(SyncWorker(sys.server, RequestOf(w, n, capacity)).value.0.log, w);
            var j := Kept(n) + |Events(n.db, 1000)|;
            && 0 <= j <= |n.history| && |before| <= |n.history|
            && after == n.history[..if |before| < j then j else |before|]
  {
    hide SyncWorker, SysInv, Inv, Evolves, Tracks, RecordedBy, Events, AllInSession, ResponseOk, BatchAcceptable, StreamOk;
    RecordedBeforeSync(decode, sys, w);
    FreshVerdict(decode, sys, w, capacity);
  }

  /** The control plane has not heard of a command after the sync exactly if nothing was recorded and nothing is sent. */
  lemma UnheardAfterSync(decode: Decoder, sys: System, w: WorkerId, capacity: Capacity, c: CommandId)
    requires SysInv(decode, sys) && w in sys.nodes
    requires SyncWorker(sys.server, RequestOf(w, sys.nodes[w], capacity)).Ok?
    ensures var n := sys.nodes[w];
            var t := SyncWorker(sys.server, RequestOf(w, n, capacity)).value.0;
            PhaseOf(RecordedBy(t.log, w), c).PhaseNone? <==>
            NotReported(RecordedBy(sys.server.log, w), c) && NotReported(Events(n.db, 1000), c)
  {
    hide SyncWorker, SysInv, RecordedBy, StreamOk, Events, PhaseOf, NotReported;
    var n := sys.nodes[w];
    RecordedBeforeSync(decode, sys, w);
    RecordedAfterSync(decode, sys, w, capacity);
    UnheardByPosition(n.history, |RecordedBy(sys.server.log, w)|, Kept(n), Kept(n) + |Events(n.db, 1000)|, c);
  }

  /** For such a command the sync makes no difference to its job. */
  lemma UntouchedThroughSync(decode: Decoder, sys: System, w: WorkerId, capacity: Capacity, c: CommandId)
    requires SysInv(decode, sys) && w in sys.nodes && c in sys.nodes[w].db.rows
    requires SyncWorker(sys.server, RequestOf(w, sys.nodes[w], capacity)).Ok?
    requires PhaseOf(RecordedBy(SyncWorker(sys.server, RequestOf(w, sys.nodes[w], capacity)).value.0.log, w), c).PhaseNone?
    ensures var t := SyncWorker(sys.server, RequestOf(w, sys.nodes[w], capacity)).value.0;
            JobUntouched(t, sys.nodes[w].db.rows[c].command) <==> JobUntouched(sys.server, sys.nodes[w].db.rows[c].command)
  {
    hide SyncWorker, Inv, NodeOk, MessagesOk, RecordedBy, PhaseOf, HistoriesOk;
    var t := SyncWorker(sys.server, RequestOf(w, sys.nodes[w], capacity)).value.0;
    FreshSync(decode, sys, w, capacity);
    assert NodeInv(decode, sys.server, w, sys.nodes[w]);
    assert RowOwned(sys.server, w, sys.nodes[w].db.rows, c) && RowOwned(t, w, sys.nodes[w].db.rows, c);
    OfferedIffUnheard(t, w, c);
    SyncLeavesOfferedJob(sys.server, RequestOf(w, sys.nodes[w], capacity), c);
  }

  /**
   When the response to a fresh request can be stored, in terms of the state before it is sent: exactly when every
   command about which nothing is recorded and nothing is in the batch is still the offer it was, its job neither
   canceled nor written since.
   */
  lemma FreshResponseStorableIff(decode: Decoder, steps: seq<Step>, w: WorkerId, capacity: Capacity)
    requires w in Exec(decode, START, steps).nodes
    requires SyncWorker(Exec(decode, START, steps).server, RequestOf(w, Exec(decode, START, steps).nodes[w], capacity)).Ok?
    ensures var sys := Exec(decode, START, steps);
            var n := sys.nodes[w];
            var p := SyncWorker(sys.server, RequestOf(w, n, capacity)).value.1;
            AcceptCommands(n.db, w, p.commands).Ok? <==> UnreportedUntouched(sys.server, w, n)
  {
    hide SyncWorker, SysInv, Exec, AcceptCommands, JobUntouched, NotReported, RecordedBy;
    var sys := Exec(decode, START, steps);
    ReachableInv(decode, steps);
    StorableIff(decode, sys, w, capacity);
    forall c | c in sys.nodes[w].db.rows
      ensures var t := SyncWorker(sys.server, RequestOf(w, sys.nodes[w], capacity)).value.0;
              (PhaseOf(RecordedBy(t.log, w), c).PhaseNone? ==> JobUntouched(t, sys.nodes[w].db.rows[c].command)) <==>
              (NotReported(RecordedBy(sys.server.log, w), c) && NotReported(Events(sys.nodes[w].db, 1000), c) ==>
                 JobUntouched(sys.server, sys.nodes[w].db.rows[c].command))
    {
      UnheardAfterSync(decode, sys, w, capacity, c);
      if PhaseOf(RecordedBy(SyncWorker(sys.server, RequestOf(w, sys.nodes[w], capacity)).value.0.log, w), c).PhaseNone? {
        UntouchedThroughSync(decode, sys, w, capacity, c);
      }
    }
  }

  lemma StorableIff(decode: Decoder, sys: System, w: WorkerId, capacity: Capacity)
    requires SysInv(decode, sys) && w in sys.nodes
    requires SyncWorker(sys.server, RequestOf(w, sys.nodes[w], capacity)).Ok?
    ensures var (t, p) := SyncWorker(sys.server, RequestOf(w, sys.nodes[w], capacity)).value;
            AcceptCommands(sys.nodes[w].db, w, p.commands).Ok? <==> UnheardUntouched(t, w, sys.nodes[w].db.rows)
  {
    FreshSync(decode, sys, w, capacity);
    StorableOn(decode, SyncWorker(sys.server, RequestOf(w, sys.nodes[w], capacity)).value.0, w, sys.nodes[w]);
  }

  lemma StorableOn(decode: Decoder, t: Server, w: WorkerId, n: Node)
    requires Inv(t) && AttemptsTracked(t) && NodeOk(decode, w, n) && RowsOwned(t, w, n.db.rows)
    requires ResponseOk(t, Respond(t, w, n.session))
    ensures AcceptCommands(n.db, w, Respond(t, w, n.session).commands).Ok? <==> UnheardUntouched(t, w, n.db.rows)
  {
    var p := Respond(t, w, n.session);
    CommandsAreShaped(t, p);
    AcceptSucceedsIff(decode, w, n, p.commands);
    CancelsAreAlwaysUnchanged(t, w, n.session, n.db.rows);
    if AllUnchanged(n.db.rows, OfferedCommands(t, w, |t.attempts|)) {
      StorableMeansUntouched(decode, t, w, n);
    }
    if UnheardUntouched(t, w, n.db.rows) {
      UntouchedMeansStorable(decode, t, w, n);
    }
  }

  /** An offer the worker did not have yet is stored as it was made. */
  lemma OfferIsStored(decode: Decoder, t: Server, w: WorkerId, n: Node, c: AttemptId)
    requires NodeOk(decode, w, n) && ResponseOk(t, Respond(t, w, n.session)) && c !in n.db.rows
    requires AcceptCommands(n.db, w, Respond(t, w, n.session).commands).Ok?
    requires c < |t.attempts| && t.attempts[c].worker == w && t.attempts[c].state.AttemptOffered? && t.attempts[c].job < |t.jobs|
    ensures var rows := AcceptCommands(n.db, w, Respond(t, w, n.session).commands).value.rows;
            c in rows && rows[c].command == RunCommand(t, c)
  {
    var p := Respond(t, w, n.session);
    var offered := OfferedCommands(t, w, |t.attempts|);
    CommandsAreShaped(t, p);
    OfferedCommandsAreOffers(t, w, |t.attempts|);
    CancelCommandsAreExact(t, w, |t.attempts|);
    assert RunCommand(t, c) in offered;
    var k :| 0 <= k < |offered| && offered[k] == RunCommand(t, c);
    assert p.commands[k] == offered[k];
    RunCommandsHaveRows(decode, w, n, p.commands, k);
    AcceptKeepsNode(decode, w, n, p.commands);
    assert RowOk(decode, Stored(n, AcceptCommands(n.db, w, p.commands).value), c);
  }

  lemma FrontIsRecorded<T>(records: seq<T>, history: seq<T>, later: seq<T>, kept: nat, from: nat)
    requires records <= history <= later && kept <= from <= |records|
    ensures forall k :: 0 <= k < from - kept ==> later[kept..][k] in records
  {
    forall k | 0 <= k < from - kept ensures later[kept..][k] in records {
      assert later[kept + k] == history[kept + k] == records[kept + k];
    }
  }

  /** What acknowledging through a recorded sequence leaves of an outbox that has grown at its end. */
  lemma AcknowledgedFront(w: WorkerId, n: Node, stored: Db, records: seq<WorkerEvent>, through: nat, batch: nat)
    requires var m := Stored(n, stored); HistoryOk(w, m.history) && OutboxOk(m) && Kept(m) == Kept(n) && n.history <= m.history
    requires records <= n.history && through <= |records|
    requires 0 <= Kept(n) && Kept(n) + batch <= |records| && (batch > 0 ==> Kept(n) + batch <= through)
    ensures var left := Acknowledge(stored, through).outbox;
            var gone := |stored.outbox| - |left|;
            && batch <= gone <= |n.db.outbox| && left == stored.outbox[gone..]
            && (forall k :: 0 <= k < gone ==> stored.outbox[k] in records)
  {
    hide Acknowledge;
    var m := Stored(n, stored);
    var from := KeptFrom(m, through);
    AcknowledgedOutbox(w, m, through);
    SuffixOfSuffix(m.history, Kept(m), from);
    FrontIsRecorded(records, n.history, m.history, Kept(n), from);
  }

  lemma GrownOutbox(n: Node, stored: Db)
    requires n.db.outbox <= stored.outbox
    ensures var m := Stored(n, stored); Kept(m) == Kept(n) && n.history <= m.history
  {
  }

  /** What acknowledging a stored response leaves of the outbox. */
  lemma AcknowledgedAfterStoring(decode: Decoder, t: Server, w: WorkerId, n: Node, batch: nat)
    requires NodeOk(decode, w, n) && ResponseOk(t, Respond(t, w, n.session)) && RecordedBy(t.log, w) <= n.history
    requires 0 <= Kept(n) && Kept(n) + batch <= |RecordedBy(t.log, w)|
    requires AllInSession(t.log, w, n.session, Kept(n), Kept(n) + batch)
    requires AcceptCommands(n.db, w, Respond(t, w, n.session).commands).Ok?
    ensures var stored := AcceptCommands(n.db, w, Respond(t, w, n.session).commands).value;
            var left := Acknowledge(stored, AcceptedThrough(t.log, w, n.session)).outbox;
            var gone := |stored.outbox| - |left|;
            && n.db.outbox <= stored.outbox && batch <= gone <= |n.db.outbox| && left == stored.outbox[gone..]
            && (forall k :: 0 <= k < gone ==> stored.outbox[k] in RecordedBy(t.log, w))
  {
    hide PhaseAgrees, RowOk, RowsEvolve, RowsFrom, DropThrough, AcceptCommand, AcceptCommands, RecordedBy, Acknowledge, Kept, HistoryOk, OutboxOk;
    var p := Respond(t, w, n.session);
    var stored := AcceptCommands(n.db, w, p.commands).value;
    CommandsAreShaped(t, p);
    AcceptKeepsNode(decode, w, n, p.commands);
    AcceptedThroughIsMax(t.log, w, n.session);
    if batch > 0 {
      assert InSession(t.log, w, n.session, Kept(n) + batch);
    }
    GrownOutbox(n, stored);
    AcknowledgedFront(w, n, stored, RecordedBy(t.log, w), p.acceptedThrough, batch);
  }

  /**
   A successful cycle removes its whole batch, however long the backlog: once the sync was accepted and its
   response stored, acknowledging leaves the end of the outbox, without any event of the batch, and what is gone
   is recorded.
   */
  lemma CycleRemovesItsBatch(decode: Decoder, steps: seq<Step>, w: WorkerId, capacity: Capacity)
    requires w in Exec(decode, START, steps).nodes
    requires var sys := Exec(decode, START, steps);
             var r := SyncWorker(sys.server, RequestOf(w, sys.nodes[w], capacity));
             r.Ok? && AcceptCommands(sys.nodes[w].db, w, r.value.1.commands).Ok?
    ensures var sys := Exec(decode, START, steps);
            var n := sys.nodes[w];
            var (t, p) := SyncWorker(sys.server, RequestOf(w, n, capacity)).value;
            var stored := AcceptCommands(n.db, w, p.commands).value;
            var left := Acknowledge(stored, p.acceptedThrough).outbox;
            var gone := |stored.outbox| - |left|;
            && n.db.outbox <= stored.outbox
            && |Events(n.db, 1000)| <= gone <= |n.db.outbox| && left == stored.outbox[gone..]
            && (forall k :: 0 <= k < gone ==> stored.outbox[k] in RecordedBy(t.log, w))
  {
    hide SyncWorker, SysInv, Exec, AcceptCommands, Acknowledge, Inv, Evolves, Tracks, NodeOk, RowsOwned, RecordedBy;
    var sys := Exec(decode, START, steps);
    ReachableInv(decode, steps);
    FreshSync(decode, sys, w, capacity);
    AcknowledgedAfterStoring(decode, SyncWorker(sys.server, RequestOf(w, sys.nodes[w], capacity)).value.0, w, sys.nodes[w],
                             |Events(sys.nodes[w].db, 1000)|);
  }

  /** A worker that stored a response and removed what it acknowledges. */
  function Handled(w: WorkerId, n: Node, p: SyncResponse): Node
    requires AcceptCommands(n.db, w, p.commands).Ok?
  {
    var stored := AcceptCommands(n.db, w, p.commands).value;
    Stored(n, stored).(db := Acknowledge(stored, p.acceptedThrough))
  }

  /** One round of the agent's loop: it asks, waits for the answer, and acknowledges only what it could store. */
  function Round(sys: System, w: WorkerId, capacity: Capacity): seq<Step>
    requires w in sys.nodes
  {
    var request := RequestOf(w, sys.nodes[w], capacity);
    var r := SyncWorker(sys.server, request);
    [Send(w, capacity), Deliver(request)] +
    if r.Err? then []
    else if AcceptCommands(sys.nodes[w].db, w, r.value.1.commands).Err? then [Local(w, Persist(r.value.1))]
    else [Local(w, Persist(r.value.1)), Local(w, Confirm(r.value.1))]
  }

  lemma AnswersItsWorker(s: Server, request: SyncRequest)
    requires SyncWorker(s, request).Ok?
    ensures SyncWorker(s, request).value.1.worker == request.worker
  {
  }

  lemma RoundSteps(decode: Decoder, sys: System, w: WorkerId, capacity: Capacity)
    requires w in sys.nodes
    requires var r := SyncWorker(sys.server, RequestOf(w, sys.nodes[w], capacity));
             r.Ok? && AcceptCommands(sys.nodes[w].db, w, r.value.1.commands).Ok?
    ensures var t := Exec(decode, sys, Round(sys, w, capacity));
            var (after, p) := SyncWorker(sys.server, RequestOf(w, sys.nodes[w], capacity)).value;
            t.server == after && w in t.nodes && t.nodes[w] == Handled(w, sys.nodes[w], p)
  {
    hide SyncWorker;
    var request := RequestOf(w, sys.nodes[w], capacity);
    var p := SyncWorker(sys.server, request).value.1;
    var persist, confirm := Local(w, Persist(p)), Local(w, Confirm(p));
    AnswersItsWorker(sys.server, request);
    var sent := Next(decode, sys, Send(w, capacity));
    assert request in sent.requests && sent.server == sys.server && sent.nodes == sys.nodes;
    ExecThree(decode, sys, Send(w, capacity), Deliver(request), persist);
    assert Round(sys, w, capacity) == [Send(w, capacity), Deliver(request), persist] + [confirm];
    ExecSplit(decode, sys, [Send(w, capacity), Deliver(request), persist], [confirm]);
    ExecOne(decode, Exec(decode, sys, [Send(w, capacity), Deliver(request), persist]), confirm);
  }

  /******* A cancel during a backlog *******/

  /** The command's acceptance lies beyond the next batch. */
  predicate BeyondBatch(n: Node, c: CommandId) {
    && 0 <= Kept(n) && Kept(n) + EVENT_LIMIT <= |n.history|
    && PhaseOf(n.history[..Kept(n) + EVENT_LIMIT], c).PhaseNone?
  }

  /** While its acceptance lies beyond the next batch, a command is an attempt the control plane still offers. */
  lemma BeyondBatchIsOffered(t: Server, w: WorkerId, n: Node, c: CommandId)
    requires AttemptsTracked(t) && c < |t.attempts| && t.attempts[c].worker == w && BeyondBatch(n, c)
    requires RecordedBy(t.log, w) <= n.history && |RecordedBy(t.log, w)| <= Kept(n) + EVENT_LIMIT
    ensures t.attempts[c].state.AttemptOffered?
  {
    OfferedIffUnheard(t, w, c);
    assert RecordedBy(t.log, w) <= n.history[..Kept(n) + EVENT_LIMIT];
    StillHeardOf(RecordedBy(t.log, w), n.history[..Kept(n) + EVENT_LIMIT], c);
  }

  /** The offer of a canceling job does not change as long as the attempt is only offered. */
  lemma CancelingOfferStays(s: Server, t: Server, c: AttemptId)
    requires Inv(s) && Inv(t) && Evolves(s, t) && c < |s.attempts|
    requires s.attempts[c].job < |s.jobs| && s.jobs[s.attempts[c].job].state.JobCanceling?
    requires t.attempts[c].state.AttemptOffered?
    ensures t.attempts[c].job == s.attempts[c].job && t.attempts[c].job < |t.jobs|
    ensures t.jobs[t.attempts[c].job].state.JobCanceling? && RunCommand(t, c) == RunCommand(s, c)
  {
    assert AttemptEvolvesAt(s, t, c) && JobEvolvesAt(s, t, s.attempts[c].job);
    LiveIsLast(t, c);
    assert JobViewAt(t, t.attempts[c].job);
  }

  /** A stored command no longer equals the offer, which its acceptance is too far back in the outbox to end. */
  predicate Jam(s: Server, w: WorkerId, n: Node, c: CommandId) {
    && c in n.db.rows && BeyondBatch(n, c)
    && c < |s.attempts| && s.attempts[c].worker == w && s.attempts[c].job < |s.jobs|
    && s.jobs[s.attempts[c].job].state.JobCanceling? && n.db.rows[c].command != RunCommand(s, c)
  }

  ghost predicate Jammed(decode: Decoder, sys: System, w: WorkerId, c: CommandId) {
    SysInv(decode, sys) && w in sys.nodes && Jam(sys.server, w, sys.nodes[w], c)
  }

  lemma JamRefuses(decode: Decoder, t: Server, w: WorkerId, n: Node, c: CommandId)
    requires Inv(t) && AttemptsTracked(t) && NodeOk(decode, w, n) && RowsOwned(t, w, n.db.rows) && Jam(t, w, n, c)
    requires RecordedBy(t.log, w) <= n.history && |RecordedBy(t.log, w)| <= Kept(n) + EVENT_LIMIT
    requires ResponseOk(t, Respond(t, w, n.session))
    ensures CancelAttempt(c) in Respond(t, w, n.session).commands
    ensures AcceptCommands(n.db, w, Respond(t, w, n.session).commands).Err?
  {
    hide Inv, AcceptCommands, ResponseOk, BeyondBatch, AttemptsTracked, MetricsExact;
    BeyondBatchIsOffered(t, w, n, c);
    OfferedIffUnheard(t, w, c);
    assert RowOk(decode, n, c) && RowOwned(t, w, n.db.rows, c);
    UntouchedIsSameOffer(t, w, n.db.rows, c);
    StorableOn(decode, t, w, n);
    CancelCommandsAreExact(t, w, |t.attempts|);
  }

  /** In a jammed state every fresh request that is accepted is answered with a response the worker refuses. */
  lemma JammedRefuses(decode: Decoder, sys: System, w: WorkerId, c: CommandId, capacity: Capacity)
    requires Jammed(decode, sys, w, c) && SyncWorker(sys.server, RequestOf(w, sys.nodes[w], capacity)).Ok?
    ensures var p := SyncWorker(sys.server, RequestOf(w, sys.nodes[w], capacity)).value.1;
            CancelAttempt(c) in p.commands && AcceptCommands(sys.nodes[w].db, w, p.commands).Err?
  {
    var t := SyncWorker(sys.server, RequestOf(w, sys.nodes[w], capacity)).value.0;
    FreshSync(decode, sys, w, capacity);
    JamStays(sys.server, t, w, sys.nodes[w], sys.nodes[w], c);
    JamRefuses(decode, t, w, sys.nodes[w], c);
  }

  lemma JamStays(s: Server, t: Server, w: WorkerId, n: Node, m: Node, c: CommandId)
    requires Jam(s, w, n, c) && Inv(s) && Inv(t) && Evolves(s, t) && AttemptsTracked(t)
    requires n.history <= m.history && Kept(m) == Kept(n)
    requires c in m.db.rows && m.db.rows[c].command == n.db.rows[c].command
    requires RecordedBy(t.log, w) <= m.history && |RecordedBy(t.log, w)| <= Kept(m) + EVENT_LIMIT
    ensures Jam(t, w, m, c)
  {
    assert m.history[..Kept(m) + EVENT_LIMIT] == n.history[..Kept(n) + EVENT_LIMIT];
    assert AttemptEvolvesAt(s, t, c);
    BeyondBatchIsOffered(t, w, m, c);
    CancelingOfferStays(s, t, c);
  }

  /** Without an acknowledgement the outbox still starts where it did. */
  lemma OutboxStart(decode: Decoder, sys: System, step: Step, w: WorkerId)
    requires SysInv(decode, sys) && w in sys.nodes && !Confirms(step, w)
    ensures var t := Next(decode, sys, step); w in t.nodes && Kept(t.nodes[w]) == Kept(sys.nodes[w])
  {
    if step.Local? && step.worker == w && Received(sys, w, step.step) {
      assert NodeInv(decode, sys.server, w, sys.nodes[w]);
      KeptStays(decode, sys.server, w, sys.nodes[w], step.step);
    } else {
      OthersLeaveNode(decode, sys, step, w);
    }
  }

  lemma RecordsInReach(decode: Decoder, sys: System, w: WorkerId)
    requires SysInv(decode, sys) && w in sys.nodes
    ensures RecordedBy(sys.server.log, w) <= sys.nodes[w].history
    ensures |RecordedBy(sys.server.log, w)| <= Kept(sys.nodes[w]) + EVENT_LIMIT
  {
    assert RecordsOk(sys.server, w, sys.nodes[w]);
    assert RecordedBy(sys.server.log, w) <= Hist(sys)[w];
  }

  lemma JammedNext(decode: Decoder, sys: System, step: Step, w: WorkerId, c: CommandId)
    requires Jammed(decode, sys, w, c) && !Confirms(step, w)
    ensures Jammed(decode, Next(decode, sys, step), w, c)
  {
    var t := Next(decode, sys, step);
    OutboxStart(decode, sys, step, w);
    NextPreserves(decode, sys, step);
    RecordsInReach(decode, t, w);
    assert NodeEvolves(sys.nodes[w], t.nodes[w]);
    assert RowEvolves(sys.nodes[w].db.rows[c], t.nodes[w].db.rows[c]);
    JamStays(sys.server, t.server, w, sys.nodes[w], t.nodes[w], c);
  }

  lemma {:induction false} JammedForGood(decode: Decoder, sys: System, steps: seq<Step>, w: WorkerId, c: CommandId)
    requires Jammed(decode, sys, w, c) && Unconfirmed(steps, w)
    ensures Jammed(decode, Exec(decode, sys, steps), w, c)
    decreases |steps|
  {
    if |steps| > 0 {
      UnconfirmedTail(steps, w);
      JammedNext(decode, sys, steps[0], w, c);
      JammedForGood(decode, Next(decode, sys, steps[0]), steps[1..], w, c);
    }
  }

  /** The worker holds the attempt as it is offered, with its acceptance beyond the next batch. */
  predicate Backlogged(sys: System, w: WorkerId, c: CommandId) {
    && w in sys.nodes && c in sys.nodes[w].db.rows && BeyondBatch(sys.nodes[w], c)
    && c < |sys.server.attempts| && sys.server.attempts[c].job < |sys.server.jobs|
    && sys.server.jobs[sys.server.attempts[c].job].state.JobQueued?
    && sys.nodes[w].db.rows[c].command == RunCommand(sys.server, c)
  }

  lemma CancelJams(decode: Decoder, sys: System, w: WorkerId, c: CommandId)
    requires SysInv(decode, sys) && Backlogged(sys, w, c)
    ensures Jammed(decode, Next(decode, sys, Admin(Cancel(sys.server.attempts[c].job))), w, c)
  {
    hide SyncWorker, Do, LocalNext, Inv, Evolves, SysEvolves, AttemptsTracked, NodeOk, RecordsOk, MessagesOk, BeyondBatch, RecordedBy, Hist, RowsEvolve;
    var job := sys.server.attempts[c].job;
    RecordsInReach(decode, sys, w);
    assert NodeInv(decode, sys.server, w, sys.nodes[w]) && RowOwned(sys.server, w, sys.nodes[w].db.rows, c);
    BeyondBatchIsOffered(sys.server, w, sys.nodes[w], c);
    NextPreserves(decode, sys, Admin(Cancel(job)));
    CancelTouches(sys.server, c);
  }

  /** Canceling a job whose attempt is live changes what is offered. */
  lemma CancelTouches(s: Server, c: AttemptId)
    requires c < |s.attempts| && s.attempts[c].job < |s.jobs| && Live(s.attempts[c].state)
    requires s.jobs[s.attempts[c].job].state.JobQueued?
    ensures var t := Do(s, Cancel(s.attempts[c].job));
            && t.attempts == s.attempts && |t.jobs| == |s.jobs|
            && t.jobs[s.attempts[c].job].state.JobCanceling? && RunCommand(t, c) != RunCommand(s, c)
  {
    assert HasLiveAttempt(s.attempts, s.attempts[c].job);
  }

  /**
   A cancel during a backlog wedges the worker.  The worker asks, waits for its own response and stores it before
   it asks again; but when a job is canceled whose acceptance is more than a batch back in the outbox, the response
   repeats the offer in its new state, the worker refuses it, and with it the cancel; nothing is acknowledged, so
   the next batch is the same.  Every fresh exchange from then on fails like this, until an earlier response arrives.
   */
  lemma CancelDuringBacklogWedges(decode: Decoder, steps: seq<Step>, w: WorkerId, c: CommandId, more: seq<Step>, capacity: Capacity)
    requires Backlogged(Exec(decode, START, steps), w, c) && Unconfirmed(more, w)
    ensures var job := Exec(decode, START, steps).server.attempts[c].job;
            var end := Exec(decode, START, steps + [Admin(Cancel(job))] + more);
            && w in end.nodes
            && var r := SyncWorker(end.server, RequestOf(w, end.nodes[w], capacity));
               r.Ok? ==> CancelAttempt(c) in r.value.1.commands && AcceptCommands(end.nodes[w].db, w, r.value.1.commands).Err?
  {
    var sys := Exec(decode, START, steps);
    var cancel := Admin(Cancel(sys.server.attempts[c].job));
    ReachableInv(decode, steps);
    CancelJams(decode, sys, w, c);
    ExecSplit(decode, START, steps, [cancel]);
    ExecOne(decode, sys, cancel);
    ExecSplit(decode, START, steps + [cancel], more);
    JammedForGood(decode, Next(decode, sys, cancel), more, w, c);
    var end := Exec(decode, START, steps + [cancel] + more);
    if SyncWorker(end.server, RequestOf(w, end.nodes[w], capacity)).Ok? {
      JammedRefuses(decode, end, w, c, capacity);
    }
  }

  /******* In the agent's own order *******/

  /** The worker goes through a round, or anything else happens. */
  datatype Turn = Else(step: Step) | Exchange(capacity: Capacity)

  /** The agent acknowledges nothing outside its rounds. */
  function StepsOf(sys: System, w: WorkerId, turn: Turn): seq<Step> {
    match turn
    case Else(step) => if Confirms(step, w) then [] else [step]
    case Exchange(capacity) => if w in sys.nodes then Round(sys, w, capacity) else []
  }

  function Play(decode: Decoder, sys: System, w: WorkerId, turns: seq<Turn>): System
    decreases |turns|
  {
    if |turns| == 0 then sys else Play(decode, Exec(decode, sys, StepsOf(sys, w, turns[0])), w, turns[1..])
  }

  /** A round whose request or response is refused acknowledges nothing. */
  lemma RefusedRound(sys: System, w: WorkerId, turn: Turn)
    requires turn.Exchange? ==>
               w in sys.nodes &&
               var r := SyncWorker(sys.server, RequestOf(w, sys.nodes[w], turn.capacity));
               r.Err? || AcceptCommands(sys.nodes[w].db, w, r.value.1.commands).Err?
    ensures Unconfirmed(StepsOf(sys, w, turn), w)
  {
    hide SyncWorker, AcceptCommands;
  }

  lemma {:induction false} JammedPlay(decode: Decoder, sys: System, w: WorkerId, c: CommandId, turns: seq<Turn>)
    requires Jammed(decode, sys, w, c)
    ensures Jammed(decode, Play(decode, sys, w, turns), w, c)
    decreases |turns|
  {
    hide SyncWorker, AcceptCommands, Exec, SysInv, Jam, StepsOf, Unconfirmed;
    if |turns| > 0 {
      if turns[0].Exchange? && SyncWorker(sys.server, RequestOf(w, sys.nodes[w], turns[0].capacity)).Ok? {
        JammedRefuses(decode, sys, w, c, turns[0].capacity);
      }
      RefusedRound(sys, w, turns[0]);
      JammedForGood(decode, sys, StepsOf(sys, w, turns[0]), w, c);
      JammedPlay(decode, Exec(decode, sys, StepsOf(sys, w, turns[0])), w, c, turns[1..]);
    }
  }

  lemma {:induction false} StuckPlay(decode: Decoder, sys: System, w: WorkerId, turns: seq<Turn>)
    requires Stuck(decode, sys, w)
    ensures Stuck(decode, Play(decode, sys, w, turns), w)
    decreases |turns|
  {
    hide SyncWorker, AcceptCommands, Exec, SysInv, HeadStuck, StepsOf, Unconfirmed;
    if |turns| > 0 {
      if turns[0].Exchange? {
        AcceptedIff(decode, sys, w, turns[0].capacity);
      }
      RefusedRound(sys, w, turns[0]);
      StuckForGood(decode, sys, StepsOf(sys, w, turns[0]), w);
      StuckPlay(decode, Exec(decode, sys, StepsOf(sys, w, turns[0])), w, turns[1..]);
    }
  }

  /**
   A cancel during a backlog wedges the agent for ever.  It handles only the answers to its own requests, so no
   earlier response arrives: whatever rounds it goes through and whatever else happens, every answer is refused.
   */
  lemma CancelWedgesForEver(decode: Decoder, steps: seq<Step>, w: WorkerId, c: CommandId, turns: seq<Turn>, capacity: Capacity)
    requires Backlogged(Exec(decode, START, steps), w, c)
    ensures var job := Exec(decode, START, steps).server.attempts[c].job;
            var end := Play(decode, Exec(decode, START, steps + [Admin(Cancel(job))]), w, turns);
            && w in end.nodes
            && var r := SyncWorker(end.server, RequestOf(w, end.nodes[w], capacity));
               r.Ok? ==> CancelAttempt(c) in r.value.1.commands && AcceptCommands(end.nodes[w].db, w, r.value.1.commands).Err?
  {
    hide SyncWorker, AcceptCommands, Exec, SysInv, Jam;
    var sys := Exec(decode, START, steps);
    var cancel := Admin(Cancel(sys.server.attempts[c].job));
    ReachableInv(decode, steps);
    CancelJams(decode, sys, w, c);
    ExecSplit(decode, START, steps, [cancel]);
    ExecOne(decode, sys, cancel);
    JammedPlay(decode, Next(decode, sys, cancel), w, c, turns);
    var end := Play(decode, Next(decode, sys, cancel), w, turns);
    if SyncWorker(end.server, RequestOf(w, end.nodes[w], capacity)).Ok? {
      JammedRefuses(decode, end, w, c, capacity);
    }
  }

  /** So does a lost response before a restart: every later request is refused. */
  lemma LostResponseWedgesForEver(decode: Decoder, steps: seq<Step>, w: WorkerId, capacity: Capacity, turns: seq<Turn>, later: Capacity)
    requires w in Exec(decode, START, steps).nodes && |Exec(decode, START, steps).nodes[w].db.outbox| > 0
    requires SyncWorker(Exec(decode, START, steps).server, RequestOf(w, Exec(decode, START, steps).nodes[w], capacity)).Ok?
    ensures var sys := Exec(decode, START, steps);
            var end := Play(decode, Exec(decode, sys, LostResponse(sys, w, capacity)), w, turns);
            w in end.nodes && SyncWorker(end.server, RequestOf(w, end.nodes[w], later)).Err?
  {
    hide SyncWorker, Exec, SysInv, LostResponse, HeadStuck;
    var sys := Exec(decode, START, steps);
    ReachableInv(decode, steps);
    LostResponseSticks(decode, sys, w, capacity);
    StuckPlay(decode, Exec(decode, sys, LostResponse(sys, w, capacity)), w, turns);
    AcceptedIff(decode, Play(decode, Exec(decode, sys, LostResponse(sys, w, capacity)), w, turns), w, later);
  }

  /** With the whole outbox in one batch, nothing the worker holds is unheard of. */
  lemma WholeOutboxIsHeard(decode: Decoder, sys: System, w: WorkerId, capacity: Capacity)
    requires SysInv(decode, sys) && w in sys.nodes && |sys.nodes[w].db.outbox| <= EVENT_LIMIT
    requires SyncWorker(sys.server, RequestOf(w, sys.nodes[w], capacity)).Ok?
    ensures var t := SyncWorker(sys.server, RequestOf(w, sys.nodes[w], capacity)).value.0;
            RecordedBy(t.log, w) == sys.nodes[w].history && UnheardUntouched(t, w, sys.nodes[w].db.rows)
  {
    hide SyncWorker, SysInv, Inv, Evolves, Tracks, ResponseOk, RowsOwned, RecordedBy, JobUntouched;
    FreshSync(decode, sys, w, capacity);
    HeldIsHeardOf(decode, w, sys.nodes[w]);
  }

  lemma HeldIsHeardOf(decode: Decoder, w: WorkerId, n: Node)
    requires NodeOk(decode, w, n)
    ensures forall c :: c in n.db.rows ==> !PhaseOf(n.history, c).PhaseNone?
  {
    forall c | c in n.db.rows ensures !PhaseOf(n.history, c).PhaseNone? {
      assert PhaseAgrees(n, c);
    }
  }

  /**
   A cycle whose batch is the whole outbox: when its head is not stuck and the contents pass, the sync succeeds,
   the response can always be stored, and once it is acknowledged the outbox holds nothing but what accepting the
   new commands just enqueued.
   */
  lemma CycleDrainsTheOutbox(decode: Decoder, steps: seq<Step>, w: WorkerId, capacity: Capacity)
    requires w in Exec(decode, START, steps).nodes && |Exec(decode, START, steps).nodes[w].db.outbox| <= EVENT_LIMIT
    requires var sys := Exec(decode, START, steps); !HeadStuck(sys.server, w, sys.nodes[w]) && PayloadsOk(sys.server, w, sys.nodes[w])
    ensures var sys := Exec(decode, START, steps);
            var n := sys.nodes[w];
            var r := SyncWorker(sys.server, RequestOf(w, n, capacity));
            && r.Ok? && AcceptCommands(n.db, w, r.value.1.commands).Ok?
            && RecordedBy(r.value.0.log, w) == n.history
            && var stored := AcceptCommands(n.db, w, r.value.1.commands).value;
               n.db.outbox <= stored.outbox &&
               Acknowledge(stored, r.value.1.acceptedThrough).outbox == stored.outbox[|n.db.outbox|..]
  {
    hide SyncWorker, Exec, SysInv, HeadStuck, PayloadsOk, AcceptCommands, Acknowledge, RecordedBy;
    var sys := Exec(decode, START, steps);
    ReachableInv(decode, steps);
    AcceptedIff(decode, sys, w, capacity);
    WholeOutboxIsHeard(decode, sys, w, capacity);
    StorableIff(decode, sys, w, capacity);
    CycleRemovesItsBatch(decode, steps, w, capacity);
  }

  /******* Cancellation *******/

  /**
   Every sync repeats the cancel: the response carries it exactly for the attempts the worker may still be
   executing on a job that is being, or has been, canceled.
   */
  lemma EverySyncRepeatsCancels(s: Server, request: SyncRequest, a: AttemptId)
    requires SyncWorker(s, request).Ok?
    ensures var (t, p) := SyncWorker(s, request).value;
            CancelAttempt(a) in p.commands <==>
            && a < |t.attempts| && Holds(t, t.attempts[a], request.worker)
            && (t.jobs[t.attempts[a].job].state.JobCanceling? || t.jobs[t.attempts[a].job].state.JobCanceled?)
  {
    var (t, p) := SyncWorker(s, request).value;
    OfferedCommandsAreOffers(t, request.worker, |t.attempts|);
    CancelCommandsAreExact(t, request.worker, |t.attempts|);
  }

  lemma CancelFindsItsRow(decode: Decoder, s: Server, w: WorkerId, n: Node, p: SyncResponse, k: nat)
    requires NodeInv(decode, s, w, n) && ResponseOk(s, p) && p.worker == w && RecordedBy(s.log, w) <= n.history
    requires k < |p.commands| && p.commands[k].CancelAttempt? && AcceptCommands(n.db, w, p.commands).Ok?
    ensures Stopping(AcceptCommands(n.db, w, p.commands).value.rows, p.commands[k].attemptId)
  {
    var a := p.commands[k].attemptId;
    CommandsAreShaped(s, p);
    assert CommandOk(s, w, p.commands, k) && PhaseAgrees(n, a);
    StillHeardOf(RecordedBy(s.log, w), n.history, a);
    CancelsTakeEffect(decode, w, n, p.commands, k);
  }

  lemma PersistStops(decode: Decoder, sys: System, w: WorkerId, p: SyncResponse, k: nat)
    requires SysInv(decode, sys) && w in sys.nodes && p in sys.responses && p.worker == w
    requires k < |p.commands| && p.commands[k].CancelAttempt? && AcceptCommands(sys.nodes[w].db, w, p.commands).Ok?
    ensures var t := Next(decode, sys, Local(w, Persist(p)));
            && w in t.nodes && Stopping(t.nodes[w].db.rows, p.commands[k].attemptId)
  {
    hide SyncWorker, Inv, AttemptsTracked, NodeOk, RecordsOk, Do, AcceptCommands, RequestOk, ResponseOk;
    assert NodeInv(decode, sys.server, w, sys.nodes[w]) && ResponseOk(sys.server, p);
    assert RecordedBy(sys.server.log, w) <= Hist(sys)[w];
    CancelFindsItsRow(decode, sys.server, w, sys.nodes[w], p, k);
  }

  /** A stopping command stays so, and never starts running. */
  lemma StoppingForGood(decode: Decoder, sys: System, more: seq<Step>, w: WorkerId, a: AttemptId)
    requires SysInv(decode, sys) && w in sys.nodes && Stopping(sys.nodes[w].db.rows, a)
    ensures var end := Exec(decode, sys, more);
            && w in end.nodes && Stopping(end.nodes[w].db.rows, a)
            && (!sys.nodes[w].db.rows[a].state.RowRunning? ==> !end.nodes[w].db.rows[a].state.RowRunning?)
  {
    hide SyncWorker, Exec, SysInv, FileGrows;
    ExecPreserves(decode, sys, more);
    var end := Exec(decode, sys, more);
    assert NodeEvolves(sys.nodes[w], end.nodes[w]);
    assert RowEvolves(sys.nodes[w].db.rows[a], end.nodes[w].db.rows[a]);
  }

  /**
   A cancel that reaches the worker holds: once the response has been stored, the attempt's command is
   marked or finished for ever, and if it was not running it never runs.
   */
  lemma CancelStopsTheCommand(decode: Decoder, steps: seq<Step>, w: WorkerId, p: SyncResponse, k: nat, more: seq<Step>)
    requires var sys := Exec(decode, START, steps);
             && w in sys.nodes && p in sys.responses && p.worker == w
             && k < |p.commands| && p.commands[k].CancelAttempt? && AcceptCommands(sys.nodes[w].db, w, p.commands).Ok?
    ensures var stored := Exec(decode, START, steps + [Local(w, Persist(p))]);
            var end := Exec(decode, START, steps + [Local(w, Persist(p))] + more);
            var a := p.commands[k].attemptId;
            && w in stored.nodes && w in end.nodes
            && Stopping(stored.nodes[w].db.rows, a) && Stopping(end.nodes[w].db.rows, a)
            && (!stored.nodes[w].db.rows[a].state.RowRunning? ==> !end.nodes[w].db.rows[a].state.RowRunning?)
  {
    var sys := Exec(decode, START, steps);
    var persist := Local(w, Persist(p));
    ReachableInv(decode, steps);
    ExecSplit(decode, START, steps, [persist]);
    ExecOne(decode, sys, persist);
    ExecSplit(decode, START, steps + [persist], more);
    PersistStops(decode, sys, w, p, k);
    NextPreserves(decode, sys, persist);
    StoppingForGood(decode, Next(decode, sys, persist), more, w, p.commands[k].attemptId);
  }
}
