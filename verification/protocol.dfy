/**
 The whole system: one control plane, its workers, and a network that may lose, repeat, delay and
 reorder every request and response ever sent.  Nothing is ever removed from the network, and every
 step may be taken at any time, so an agent may stop between any two transactions of its cycle.
 A step that is not enabled, or whose transaction fails, changes nothing.
 */
module Protocol {
  import opened Wrappers
  import opened Domain
  import opened JobSpecs
  import opened ControlPlane
  import opened Lifecycle
  import opened Runs
  import MetricFile
  import opened WorkerDb
  import opened Streams
  import opened Tracking
  import opened SessionLog
  import opened Exchange
  import opened Nodes

  type Decoder = MetricFile.Decoder

  datatype System = System(
    server: Server, nodes: map<WorkerId, Node>, requests: set<SyncRequest>, responses: set<SyncResponse>)

  const START := System(EMPTY, map[], {}, {})

  /** What a worker does on its own. */
  datatype LocalStep =
    | Persist(response: SyncResponse)
    | Confirm(response: SyncResponse)
    | Launch(command: CommandId, now: int)
    | Finish(command: CommandId, exitCode: int, error: string, logTailLength: nat, artifacts: seq<Artifact>)
    | Announce(command: CommandId, artifacts: seq<Artifact>)
    | Write(command: CommandId, text: string)
    | Ingest(command: CommandId)
    | Restart

  datatype Step =
    | Enroll(worker: WorkerId)
    | Admin(op: Op)
    | Send(worker: WorkerId, capacity: Capacity)
    | Deliver(request: SyncRequest)
    | Local(worker: WorkerId, step: LocalStep)

  function LocalNext(decode: Decoder, w: WorkerId, n: Node, step: LocalStep): Node {
    match step
    case Persist(p) =>
      var r := AcceptCommands(n.db, w, p.commands);
      if r.Ok? then Stored(n, r.value) else n
    case Confirm(p) => n.(db := Acknowledge(n.db, p.acceptedThrough))
    case Launch(c, now) =>
      // PendingCommands leaves out commands whose cancellation was requested
      if c in n.db.rows && n.db.rows[c].state.RowPending? && !n.db.rows[c].cancelRequested
      then Stored(n, MarkStarted(n.db, w, c, now).value) else n
    case Finish(c, exitCode, error, tail, artifacts) =>
      // a running command, or a pending one whose cancellation was requested
      if c in n.db.rows && (n.db.rows[c].state.RowRunning? || (n.db.rows[c].state.RowPending? && n.db.rows[c].cancelRequested))
      then Stored(n, MarkFinished(n.db, w, c, exitCode, error, tail, artifacts).value) else n
    case Announce(c, artifacts) =>
      var r := AnnounceArtifacts(n.db, w, c, artifacts);
      if r.Ok? then Stored(n, r.value) else n
    case Write(c, text) => n.(files := n.files[c := FileOf(n, c) + text])
    case Ingest(c) =>
      if c in n.db.rows && n.db.rows[c].state.RowRunning?
      then Stored(n, IngestLine(n.db, w, c, decode, FileOf(n, c))) else n
    case Restart => n.(session := n.session + 1)
  }

  /** A response can only be processed by its worker, after it was sent. */
  predicate Received(sys: System, w: WorkerId, step: LocalStep) {
    (step.Persist? || step.Confirm?) ==> step.response in sys.responses && step.response.worker == w
  }

  function RequestOf(w: WorkerId, n: Node, capacity: Capacity): SyncRequest {
    SyncRequest(w, n.session, capacity, Events(n.db, 1000))
  }

  function Next(decode: Decoder, sys: System, step: Step): System {
    match step
    case Enroll(w) =>
      sys.(server := Do(sys.server, AddWorker(w)),
           nodes := if w in sys.nodes then sys.nodes else sys.nodes[w := NEW_NODE])
    case Admin(op) =>
      if op.Sync? || op.AddWorker? then sys else sys.(server := Do(sys.server, op))
    case Send(w, capacity) =>
      if w in sys.nodes then sys.(requests := sys.requests + {RequestOf(w, sys.nodes[w], capacity)}) else sys
    case Deliver(request) =>
      var r := SyncWorker(sys.server, request);
      if request in sys.requests && r.Ok?
      then sys.(server := r.value.0, responses := sys.responses + {r.value.1}) else sys
    case Local(w, local) =>
      if w in sys.nodes && Received(sys, w, local)
      then sys.(nodes := sys.nodes[w := LocalNext(decode, w, sys.nodes[w], local)]) else sys
  }

  function Exec(decode: Decoder, sys: System, steps: seq<Step>): System
    decreases |steps|
  {
    if |steps| == 0 then sys else Exec(decode, Next(decode, sys, steps[0]), steps[1..])
  }

  lemma {:induction false} ExecSplit(decode: Decoder, sys: System, first: seq<Step>, rest: seq<Step>)
    ensures Exec(decode, sys, first + rest) == Exec(decode, Exec(decode, sys, first), rest)
    decreases |first|
  {
    if |first| == 0 {
      assert first + rest == rest;
    } else {
      assert (first + rest)[1..] == first[1..] + rest;
      ExecSplit(decode, Next(decode, sys, first[0]), first[1..], rest);
    }
  }

  /******* The invariant *******/

  function Hist(sys: System): Histories {
    map w | w in sys.nodes :: sys.nodes[w].history
  }

  predicate RowOwned(s: Server, w: WorkerId, rows: map<CommandId, Row>, c: CommandId)
    requires c in rows
  {
    && c < |s.attempts| && s.attempts[c].worker == w
    && rows[c].command.RunJob?
    && Describes(s, c, rows[c].command.attemptNumber, rows[c].command.job, rows[c].command.spec)
  }

  predicate RowsOwned(s: Server, w: WorkerId, rows: map<CommandId, Row>) {
    forall c :: c in rows ==> RowOwned(s, w, rows, c)
  }

  /** Only recorded events have left the outbox. */
  predicate NothingLost(s: Server, w: WorkerId, n: Node) {
    Kept(n) <= |RecordedBy(s.log, w)|
  }

  ghost predicate NodeInv(decode: Decoder, s: Server, w: WorkerId, n: Node) {
    NodeOk(decode, w, n) && RowsOwned(s, w, n.db.rows) && NothingLost(s, w, n)
  }

  /** How many events of the worker precede the request's batch. */
  function First(request: SyncRequest): nat {
    if |request.events| == 0 || request.events[0].sequence == 0 then 0 else request.events[0].sequence - 1
  }

  predicate SessionsUpTo(sessions: seq<SessionId>, n: nat, session: SessionId) {
    forall p :: 0 <= p < n && p < |sessions| ==> sessions[p] <= session
  }

  /**
   A request in flight is a stretch of its worker's history, of at most a thousand events, that starts no later
   than the outbox and the first unrecorded event.
   */
  predicate RequestOk(s: Server, nodes: map<WorkerId, Node>, request: SyncRequest) {
    var w, i := request.worker, First(request);
    && w in nodes && request.session <= nodes[w].session
    && i <= |RecordedBy(s.log, w)| && i <= Kept(nodes[w])
    && |request.events| <= EVENT_LIMIT && i + |request.events| <= |nodes[w].history|
    && request.events == nodes[w].history[i..i + |request.events|]
    && SessionsUpTo(SessionsBy(s.log, w), i, request.session)
  }

  /**
   A worker's events were recorded under sessions that never go back, and none beyond the batch that starts
   at its outbox.
   */
  predicate RecordsOk(s: Server, w: WorkerId, n: Node) {
    var sessions := SessionsBy(s.log, w);
    && SessionsUpTo(sessions, |sessions|, n.session)
    && (forall p, q :: 0 <= p < q < |sessions| ==> sessions[p] <= sessions[q])
    && |sessions| <= Kept(n) + EVENT_LIMIT
  }

  predicate MessagesOk(sys: System) {
    && (forall request :: request in sys.requests ==> RequestOk(sys.server, sys.nodes, request))
    && (forall p :: p in sys.responses ==> p.worker in sys.nodes && ResponseOk(sys.server, p))
  }

  ghost predicate NodesOk(decode: Decoder, sys: System) {
    forall w :: w in sys.nodes ==> NodeInv(decode, sys.server, w, sys.nodes[w]) && RecordsOk(sys.server, w, sys.nodes[w])
  }

  ghost predicate SysInv(decode: Decoder, sys: System) {
    && Inv(sys.server) && sys.server.workers == sys.nodes.Keys
    && Tracks(sys.server, Hist(sys))
    && NodesOk(decode, sys)
    && MessagesOk(sys)
  }

  /** What every step preserves from before to after. */
  ghost predicate SysEvolves(sys: System, t: System) {
    && Evolves(sys.server, t.server) && sys.server.log <= t.server.log
    && forall w :: w in sys.nodes ==> w in t.nodes && NodeEvolves(sys.nodes[w], t.nodes[w])
  }

  lemma SysEvolvesTransitive(a: System, b: System, c: System)
    requires SysEvolves(a, b) && SysEvolves(b, c)
    ensures SysEvolves(a, c)
  {
    EvolvesTransitive(a.server, b.server, c.server);
    forall w | w in a.nodes ensures w in c.nodes && NodeEvolves(a.nodes[w], c.nodes[w]) {
      NodeEvolvesTransitive(a.nodes[w], b.nodes[w], c.nodes[w]);
    }
  }

  lemma SysEvolvesReflexive(sys: System)
    requires Inv(sys.server)
    ensures SysEvolves(sys, sys)
  {
    SameTables(sys.server, sys.server);
    forall w | w in sys.nodes ensures NodeEvolves(sys.nodes[w], sys.nodes[w]) {
      NodeEvolvesReflexive(sys.nodes[w]);
    }
  }

  /** A worker reports only on attempts it holds a row for, hence on its own. */
  lemma HistoryIsOwned(decode: Decoder, s: Server, w: WorkerId, n: Node)
    requires NodeInv(decode, s, w, n)
    ensures HistoryOk(w, n.history) && Owned(s, w, n.history)
  {
    forall i | 0 <= i < |n.history| ensures OwnedAt(s, w, n.history, i) {
      EventsHaveRows(decode, w, n, i);
      assert RowOwned(s, w, n.db.rows, n.history[i].attemptId);
    }
  }

  lemma HistoriesAreOk(decode: Decoder, sys: System)
    requires NodesOk(decode, sys)
    ensures HistoriesOk(sys.server, Hist(sys))
  {
    forall w | w in Hist(sys) ensures HistoryOk(w, Hist(sys)[w]) && Owned(sys.server, w, Hist(sys)[w]) {
      HistoryIsOwned(decode, sys.server, w, sys.nodes[w]);
    }
  }

  /******* Steps of the control plane *******/

  /** The control plane moves from one state to another, its records only growing. */
  predicate ServerStep(s: Server, t: Server) {
    Evolves(s, t) && s.log <= t.log
  }

  lemma RowsStayOwned(s: Server, t: Server, w: WorkerId, rows: map<CommandId, Row>)
    requires ServerStep(s, t) && RowsOwned(s, w, rows)
    ensures RowsOwned(t, w, rows)
  {
    forall c | c in rows ensures RowOwned(t, w, rows, c) {
      assert RowOwned(s, w, rows, c);
      assert AttemptEvolvesAt(s, t, c);
      StillDescribes(s, t, c, rows[c].command.attemptNumber, rows[c].command.job, rows[c].command.spec);
    }
  }

  lemma NodeInvStays(decode: Decoder, s: Server, t: Server, w: WorkerId, n: Node)
    requires ServerStep(s, t) && NodeInv(decode, s, w, n)
    ensures NodeInv(decode, t, w, n)
  {
    RowsStayOwned(s, t, w, n.db.rows);
    RecordedGrows(s.log, t.log, w);
  }

  lemma RequestStays(s: Server, t: Server, nodes: map<WorkerId, Node>, request: SyncRequest)
    requires ServerStep(s, t) && RequestOk(s, nodes, request)
    ensures RequestOk(t, nodes, request)
  {
    RecordedGrows(s.log, t.log, request.worker);
  }

  lemma ResponseStays(s: Server, t: Server, p: SyncResponse)
    requires ServerStep(s, t) && ResponseOk(s, p)
    ensures ResponseOk(t, p)
  {
    RecordedGrows(s.log, t.log, p.worker);
    forall k | 0 <= k < |p.commands| ensures CommandOk(t, p.worker, p.commands, k) {
      assert CommandOk(s, p.worker, p.commands, k);
      if !p.commands[k].UnknownCommand? {
        assert AttemptEvolvesAt(s, t, p.commands[k].attemptId);
      }
      if p.commands[k].RunJob? {
        StillDescribes(s, t, p.commands[k].attemptId, p.commands[k].attemptNumber, p.commands[k].job, p.commands[k].spec);
      }
      if p.commands[k].CancelAttempt? {
        StillHeardOf(RecordedBy(s.log, p.worker), RecordedBy(t.log, p.worker), p.commands[k].attemptId);
      }
    }
  }

  lemma StillHeardOf(history: seq<WorkerEvent>, longer: seq<WorkerEvent>, attempt: AttemptId)
    requires history <= longer
    ensures PhaseOf(history, attempt) != PhaseNone ==> PhaseOf(longer, attempt) != PhaseNone
    ensures PhaseOf(history, attempt).PhaseDone? ==> PhaseOf(longer, attempt).PhaseDone?
  {
    assert longer[..|history|] == history;
    if PhaseOf(history, attempt) != PhaseNone {
      PhasePersists(longer, |history|, attempt);
    }
  }

  lemma MessagesStay(sys: System, t: Server)
    requires ServerStep(sys.server, t) && MessagesOk(sys)
    ensures MessagesOk(sys.(server := t))
  {
    forall request | request in sys.requests ensures RequestOk(t, sys.nodes, request) {
      RequestStays(sys.server, t, sys.nodes, request);
    }
    forall p | p in sys.responses ensures ResponseOk(t, p) {
      ResponseStays(sys.server, t, p);
    }
  }

  /** A step of the control plane, whose effect on the histories is known, keeps the system invariant. */
  lemma ServerStepPreserves(decode: Decoder, sys: System, t: Server)
    requires SysInv(decode, sys) && ServerStep(sys.server, t)
    requires Inv(t) && Tracks(t, Hist(sys)) && t.workers == sys.server.workers
    requires forall w :: w in sys.nodes ==> RecordsOk(t, w, sys.nodes[w])
    ensures SysInv(decode, sys.(server := t)) && SysEvolves(sys, sys.(server := t))
  {
    var after := sys.(server := t);
    assert Hist(after) == Hist(sys);
    MessagesStay(sys, t);
    forall w | w in sys.nodes
      ensures NodeInv(decode, t, w, sys.nodes[w]) && NodeEvolves(sys.nodes[w], sys.nodes[w])
    {
      assert NodeInv(decode, sys.server, w, sys.nodes[w]);
      NodeInvStays(decode, sys.server, t, w, sys.nodes[w]);
      NodeEvolvesReflexive(sys.nodes[w]);
    }
  }

  /******* Administration *******/

  lemma AdminKeepsRecords(s: Server, op: Op)
    requires Inv(s) && !op.Sync?
    ensures var t := Do(s, op);
            && t.attempts == s.attempts && t.log == s.log && t.samples == s.samples
            && (!op.AddWorker? ==> t.workers == s.workers)
  {
  }

  lemma TracksByRecords(s: Server, t: Server, h: Histories)
    requires Tracks(s, h) && t.attempts == s.attempts && t.log == s.log && t.samples == s.samples
    ensures Tracks(t, h)
  {
    forall a | 0 <= a < |t.attempts| ensures TrackedAt(t, a) {
      assert TrackedAt(s, a);
    }
  }

  lemma AdminPreserves(decode: Decoder, sys: System, op: Op)
    requires SysInv(decode, sys) && !op.Sync? && !op.AddWorker?
    ensures SysInv(decode, sys.(server := Do(sys.server, op)))
    ensures SysEvolves(sys, sys.(server := Do(sys.server, op)))
  {
    DoPreserves(sys.server, op);
    AdminKeepsRecords(sys.server, op);
    TracksByRecords(sys.server, Do(sys.server, op), Hist(sys));
    forall w | w in sys.nodes ensures RecordsOk(Do(sys.server, op), w, sys.nodes[w]) {
      assert RecordsOk(sys.server, w, sys.nodes[w]);
    }
    ServerStepPreserves(decode, sys, Do(sys.server, op));
  }

  /** A new worker has nothing recorded. */
  lemma {:induction false} NothingRecorded(log: seq<LogEntry>, w: WorkerId)
    requires forall k :: 0 <= k < |log| ==> log[k].worker != w
    ensures RecordedBy(log, w) == []
  {
    if |log| > 0 {
      NothingRecorded(log[..|log| - 1], w);
    }
  }

  lemma NewNodeInv(decode: Decoder, s: Server, w: WorkerId)
    requires RecordedBy(s.log, w) == []
    ensures NodeInv(decode, s, w, NEW_NODE) && RecordsOk(s, w, NEW_NODE)
  {
    forall a: nat ensures PhaseAgrees(NEW_NODE, a) {
    }
  }

  /** The state after a new worker enrolled. */
  predicate Enrolled(sys: System, after: System, w: WorkerId) {
    && w !in sys.nodes && after.nodes == sys.nodes[w := NEW_NODE]
    && after.server == sys.server.(workers := sys.server.workers + {w})
    && after.requests == sys.requests && after.responses == sys.responses
  }

  lemma EnrolledTracks(sys: System, after: System, w: WorkerId)
    requires Tracks(sys.server, Hist(sys)) && Enrolled(sys, after, w)
    requires RecordedBy(sys.server.log, w) == []
    ensures Tracks(after.server, Hist(after))
  {
    TracksByRecords(sys.server, after.server, Hist(sys));
    assert forall v :: v in sys.nodes ==> Hist(after)[v] == Hist(sys)[v];
  }

  lemma EnrolledNodesOk(decode: Decoder, sys: System, after: System, w: WorkerId)
    requires NodesOk(decode, sys) && Enrolled(sys, after, w) && ServerStep(sys.server, after.server)
    requires RecordedBy(sys.server.log, w) == []
    ensures NodesOk(decode, after)
  {
    NewNodeInv(decode, after.server, w);
    forall v | v in after.nodes
      ensures NodeInv(decode, after.server, v, after.nodes[v]) && RecordsOk(after.server, v, after.nodes[v])
    {
      if v != w {
        assert NodeInv(decode, sys.server, v, sys.nodes[v]) && RecordsOk(sys.server, v, sys.nodes[v]);
        NodeInvStays(decode, sys.server, after.server, v, sys.nodes[v]);
      }
    }
  }

  lemma EnrolledMessagesOk(sys: System, after: System, w: WorkerId)
    requires MessagesOk(sys) && Enrolled(sys, after, w) && ServerStep(sys.server, after.server)
    ensures MessagesOk(after)
  {
    MessagesStay(sys, after.server);
    forall request | request in after.requests ensures RequestOk(after.server, after.nodes, request) {
      assert RequestOk(after.server, sys.nodes, request);
    }
    forall p | p in after.responses ensures p.worker in after.nodes && ResponseOk(after.server, p) {
    }
  }

  lemma EnrolledPreserves(decode: Decoder, sys: System, after: System, w: WorkerId)
    requires SysInv(decode, sys) && Enrolled(sys, after, w)
    ensures SysInv(decode, after) && SysEvolves(sys, after)
  {
    hide Inv, Evolves, NodeOk, AttemptsTracked, RequestOk, ResponseOk, NodeInv, RecordsOk;
    SameTables(sys.server, after.server);
    NothingRecorded(sys.server.log, w);
    EnrolledTracks(sys, after, w);
    EnrolledNodesOk(decode, sys, after, w);
    EnrolledMessagesOk(sys, after, w);
    EnrolledEvolves(sys, after, w);
  }

  /** The registered workers are those that have a node. */
  lemma RegisteredHaveNodes(decode: Decoder, sys: System)
    requires SysInv(decode, sys)
    ensures sys.server.workers == sys.nodes.Keys && Inv(sys.server)
  {
  }

  /** Enrolling again changes nothing. */
  lemma EnrollAgain(decode: Decoder, sys: System, w: WorkerId)
    requires w in sys.nodes && sys.server.workers == sys.nodes.Keys
    ensures Next(decode, sys, Enroll(w)) == sys
  {
    assert sys.server.workers + {w} == sys.server.workers;
  }

  lemma EnrollPreserves(decode: Decoder, sys: System, w: WorkerId)
    requires SysInv(decode, sys)
    ensures SysInv(decode, Next(decode, sys, Enroll(w))) && SysEvolves(sys, Next(decode, sys, Enroll(w)))
  {
    hide SysInv, SysEvolves, SyncWorker, LocalNext, Evolves, Inv;
    RegisteredHaveNodes(decode, sys);
    if w in sys.nodes {
      EnrollAgain(decode, sys, w);
      SysEvolvesReflexive(sys);
    } else {
      EnrolledPreserves(decode, sys, Next(decode, sys, Enroll(w)), w);
    }
  }

  lemma EnrolledEvolves(sys: System, after: System, w: WorkerId)
    requires Enrolled(sys, after, w) && ServerStep(sys.server, after.server)
    ensures SysEvolves(sys, after)
  {
    forall v | v in sys.nodes ensures v in after.nodes && NodeEvolves(sys.nodes[v], after.nodes[v]) {
      NodeEvolvesReflexive(sys.nodes[v]);
    }
  }

  /******* Delivering a request *******/

  /** New records of one worker were made under a session no older than any before. */
  lemma SyncKeepsRecords(s: Server, t: Server, h: Histories, w: WorkerId, n: Node, session: SessionId, i: nat, j: nat)
    requires Inv(s) && HistoriesOk(s, h) && w in h && i <= j <= |h[w]| && RecordsOk(s, w, n)
    requires session <= n.session && i <= |RecordedBy(s.log, w)| && j <= Kept(n) + EVENT_LIMIT
    requires SessionsUpTo(SessionsBy(s.log, w), i, session)
    requires SyncDone(s, t, h, w, session, i, j)
    ensures RecordsOk(t, w, n)
  {
    hide Inv, Evolves, RecordedBy;
    OwnedStays(s, t, h);
    RecordedGrows(s.log, t.log, w);
    var before, after := SessionsBy(s.log, w), SessionsBy(t.log, w);
    assert |before| == |RecordedBy(s.log, w)| && |after| == |RecordedBy(t.log, w)|;
    forall p | 0 <= p < |after|
      ensures p < |before| ==> after[p] == before[p]
      ensures i <= p < j ==> after[p] == session
      ensures |before| <= p ==> p < j
    {
      if i <= p < j {
        assert InSession(t.log, w, session, p + 1);
        InSessionByPosition(t, h, w, session, p + 1);
      }
    }
  }

  lemma OthersKeepRecords(s: Server, t: Server, w: WorkerId, n: Node)
    requires s.log <= t.log && RecordedBy(t.log, w) == RecordedBy(s.log, w) && RecordsOk(s, w, n)
    ensures RecordsOk(t, w, n)
  {
    RecordedGrows(s.log, t.log, w);
    assert SessionsBy(t.log, w) == SessionsBy(s.log, w);
  }

  /** What delivering a request does: refused, or recorded, offered and answered. */
  lemma DeliverVerdict(decode: Decoder, sys: System, request: SyncRequest)
    requires SysInv(decode, sys) && request in sys.requests
    ensures request.worker in Hist(sys) && First(request) + |request.events| <= |Hist(sys)[request.worker]|
    ensures Verdict(sys.server, Hist(sys), request, First(request))
  {
    HistoriesAreOk(decode, sys);
    assert RequestOk(sys.server, sys.nodes, request);
    SyncBatch(sys.server, Hist(sys), request, First(request));
  }

  lemma DeliverKeepsRecords(decode: Decoder, sys: System, request: SyncRequest, w: WorkerId)
    requires SysInv(decode, sys) && request in sys.requests && SyncWorker(sys.server, request).Ok? && w in sys.nodes
    ensures RecordsOk(SyncWorker(sys.server, request).value.0, w, sys.nodes[w])
  {
    hide SyncWorker, Inv, Evolves, NodeOk, AttemptsTracked;
    var t := SyncWorker(sys.server, request).value.0;
    var i := First(request);
    DeliverVerdict(decode, sys, request);
    assert RecordsOk(sys.server, w, sys.nodes[w]);
    if w == request.worker {
      HistoriesAreOk(decode, sys);
      assert RequestOk(sys.server, sys.nodes, request);
      SyncKeepsRecords(sys.server, t, Hist(sys), w, sys.nodes[w], request.session, i, i + |request.events|);
    } else {
      OthersKeepRecords(sys.server, t, w, sys.nodes[w]);
    }
  }

  lemma DeliverPreserves(decode: Decoder, sys: System, request: SyncRequest)
    requires SysInv(decode, sys)
    ensures SysInv(decode, Next(decode, sys, Deliver(request))) && SysEvolves(sys, Next(decode, sys, Deliver(request)))
  {
    var r := SyncWorker(sys.server, request);
    if request in sys.requests && r.Ok? {
      var t := r.value.0;
      DeliverVerdict(decode, sys, request);
      forall w | w in sys.nodes ensures RecordsOk(t, w, sys.nodes[w]) {
        DeliverKeepsRecords(decode, sys, request, w);
      }
      ServerStepPreserves(decode, sys, t);
      var mid := sys.(server := t);
      ResponsesOk(mid, r.value.1);
      AddedMessage(decode, mid, Next(decode, sys, Deliver(request)));
    } else {
      SysEvolvesReflexive(sys);
    }
  }

  lemma ResponsesOk(sys: System, p: SyncResponse)
    requires MessagesOk(sys) && p.worker in sys.nodes && ResponseOk(sys.server, p)
    ensures MessagesOk(sys.(responses := sys.responses + {p}))
  {
  }

  /** Only messages were added. */
  lemma AddedMessage(decode: Decoder, sys: System, after: System)
    requires SysInv(decode, sys) && after.server == sys.server && after.nodes == sys.nodes && MessagesOk(after)
    ensures SysInv(decode, after)
  {
    assert Hist(after) == Hist(sys);
  }

  /******* Sending a request *******/

  lemma SentRequestOk(decode: Decoder, s: Server, nodes: map<WorkerId, Node>, w: WorkerId, capacity: Capacity)
    requires w in nodes && NodeInv(decode, s, w, nodes[w]) && RecordsOk(s, w, nodes[w])
    ensures RequestOk(s, nodes, RequestOf(w, nodes[w], capacity))
  {
    var n := nodes[w];
    var request := RequestOf(w, n, capacity);
    var kept := Kept(n);
    if |request.events| > 0 {
      assert request.events[0] == n.history[kept];
      assert SequencedAt(w, n.history, kept);
    }
    assert request.events == n.history[kept..kept + |request.events|];
  }

  lemma SendPreserves(decode: Decoder, sys: System, w: WorkerId, capacity: Capacity)
    requires SysInv(decode, sys)
    ensures var t := Next(decode, sys, Send(w, capacity)); SysInv(decode, t) && SysEvolves(sys, t)
  {
    hide SyncWorker, Inv, Evolves, NodeOk, AttemptsTracked, RequestOk, ResponseOk, NodeInv, RecordsOk, NodeEvolves, LocalNext, Do;
    var t := Next(decode, sys, Send(w, capacity));
    SysEvolvesReflexive(sys);
    if w in sys.nodes {
      SentRequestOk(decode, sys.server, sys.nodes, w, capacity);
      AddedMessage(decode, sys, t);
    }
  }

  /******* Steps of one worker *******/

  /** The node a local step leads to. */
  ghost predicate LocalDone(decode: Decoder, s: Server, w: WorkerId, n: Node, m: Node) {
    && NodeOk(decode, w, m) && NodeEvolves(n, m) && Kept(n) <= Kept(m)
    && RowsOwned(s, w, m.db.rows) && NothingLost(s, w, m)
  }

  lemma StoredEvolves(n: Node, db: Db)
    requires RowsEvolve(n.db.rows, db.rows)
    ensures NodeEvolves(n, Stored(n, db))
    ensures n.db.outbox <= db.outbox ==> Kept(Stored(n, db)) == Kept(n)
  {
    forall c: nat ensures FileGrows(n, Stored(n, db), c) {
    }
  }

  lemma SameKeysOwned(s: Server, w: WorkerId, before: map<CommandId, Row>, after: map<CommandId, Row>)
    requires RowsOwned(s, w, before) && RowsEvolve(before, after) && before.Keys == after.Keys
    ensures RowsOwned(s, w, after)
  {
    forall c | c in after ensures RowOwned(s, w, after, c) {
      assert c in before.Keys;
      assert RowOwned(s, w, before, c) && RowEvolves(before[c], after[c]);
    }
  }

  /** A transaction on existing rows that only adds to the outbox. */
  lemma StoredIsDone(decode: Decoder, s: Server, w: WorkerId, n: Node, db: Db)
    requires NodeInv(decode, s, w, n) && NodeOk(decode, w, Stored(n, db))
    requires RowsEvolve(n.db.rows, db.rows) && db.rows.Keys == n.db.rows.Keys && n.db.outbox <= db.outbox
    ensures LocalDone(decode, s, w, n, Stored(n, db))
  {
    StoredEvolves(n, db);
    SameKeysOwned(s, w, n.db.rows, db.rows);
  }

  lemma CommandsAreShaped(s: Server, p: SyncResponse)
    requires ResponseOk(s, p)
    ensures CommandsShaped(p.commands)
  {
    forall k | 0 <= k < |p.commands| && p.commands[k].RunJob? ensures p.commands[k].commandId == p.commands[k].attemptId {
      assert CommandOk(s, p.worker, p.commands, k);
    }
  }

  /** Rows taken over from a response belong to the worker it was sent to. */
  lemma NewRowsOwned(decode: Decoder, s: Server, w: WorkerId, n: Node, m: Node, p: SyncResponse)
    requires NodeInv(decode, s, w, n) && NodeOk(decode, w, m) && ResponseOk(s, p) && p.worker == w
    requires RowsEvolve(n.db.rows, m.db.rows) && RowsFrom(n.db.rows, m.db.rows, p.commands)
    ensures RowsOwned(s, w, m.db.rows)
  {
    forall c | c in m.db.rows ensures RowOwned(s, w, m.db.rows, c) {
      assert RowOk(decode, m, c);
      if c in n.db.rows {
        assert RowOwned(s, w, n.db.rows, c) && RowEvolves(n.db.rows[c], m.db.rows[c]);
      } else {
        var k :| 0 <= k < |p.commands| && p.commands[k] == m.db.rows[c].command;
        assert CommandOk(s, w, p.commands, k);
      }
    }
  }

  lemma PersistIsDone(decode: Decoder, s: Server, w: WorkerId, n: Node, p: SyncResponse)
    requires NodeInv(decode, s, w, n) && ResponseOk(s, p) && p.worker == w
    ensures LocalDone(decode, s, w, n, LocalNext(decode, w, n, Persist(p)))
  {
    var r := AcceptCommands(n.db, w, p.commands);
    if r.Ok? {
      CommandsAreShaped(s, p);
      AcceptKeepsNode(decode, w, n, p.commands);
      StoredEvolves(n, r.value);
      NewRowsOwned(decode, s, w, n, Stored(n, r.value), p);
    } else {
      NodeEvolvesReflexive(n);
    }
  }

  lemma ConfirmIsDone(decode: Decoder, s: Server, w: WorkerId, n: Node, p: SyncResponse)
    requires NodeInv(decode, s, w, n) && ResponseOk(s, p) && p.worker == w
    ensures LocalDone(decode, s, w, n, LocalNext(decode, w, n, Confirm(p)))
  {
    AcknowledgeIsExact(decode, w, n, p.acceptedThrough);
    NodeEvolvesReflexive(n);
    var m := LocalNext(decode, w, n, Confirm(p));
    SameFilesGrow(n, m);
  }

  lemma SameFilesGrow(n: Node, m: Node)
    requires m.files == n.files
    ensures forall c: nat :: FileGrows(n, m, c)
  {
    forall c: nat ensures FileGrows(n, m, c) {
    }
  }

  /** A step that is not enabled. */
  lemma NothingIsDone(decode: Decoder, s: Server, w: WorkerId, n: Node)
    requires NodeInv(decode, s, w, n)
    ensures LocalDone(decode, s, w, n, n)
  {
    NodeEvolvesReflexive(n);
  }

  lemma LaunchIsDone(decode: Decoder, s: Server, w: WorkerId, n: Node, c: CommandId, now: int)
    requires NodeInv(decode, s, w, n)
    ensures LocalDone(decode, s, w, n, LocalNext(decode, w, n, Launch(c, now)))
  {
    if c in n.db.rows && n.db.rows[c].state.RowPending? && !n.db.rows[c].cancelRequested {
      StartKeepsNode(decode, w, n, c, now);
      StoredIsDone(decode, s, w, n, MarkStarted(n.db, w, c, now).value);
    } else {
      NothingIsDone(decode, s, w, n);
    }
  }

  lemma FinishIsDone(decode: Decoder, s: Server, w: WorkerId, n: Node, c: CommandId, exitCode: int, error: string, tail: nat, artifacts: seq<Artifact>)
    requires NodeInv(decode, s, w, n)
    ensures LocalDone(decode, s, w, n, LocalNext(decode, w, n, Finish(c, exitCode, error, tail, artifacts)))
  {
    if c in n.db.rows && (n.db.rows[c].state.RowRunning? || (n.db.rows[c].state.RowPending? && n.db.rows[c].cancelRequested)) {
      FinishKeepsNode(decode, w, n, c, exitCode, error, tail, artifacts);
      StoredIsDone(decode, s, w, n, MarkFinished(n.db, w, c, exitCode, error, tail, artifacts).value);
    } else {
      NothingIsDone(decode, s, w, n);
    }
  }

  lemma AnnounceIsDone(decode: Decoder, s: Server, w: WorkerId, n: Node, c: CommandId, artifacts: seq<Artifact>)
    requires NodeInv(decode, s, w, n)
    ensures LocalDone(decode, s, w, n, LocalNext(decode, w, n, Announce(c, artifacts)))
  {
    var r := AnnounceArtifacts(n.db, w, c, artifacts);
    if r.Ok? {
      AnnounceKeepsNode(decode, w, n, c, artifacts);
      RowsEvolveReflexive(n.db.rows);
      StoredIsDone(decode, s, w, n, r.value);
    } else {
      NothingIsDone(decode, s, w, n);
    }
  }

  lemma IngestIsDone(decode: Decoder, s: Server, w: WorkerId, n: Node, c: CommandId)
    requires NodeInv(decode, s, w, n)
    ensures LocalDone(decode, s, w, n, LocalNext(decode, w, n, Ingest(c)))
  {
    if c in n.db.rows && n.db.rows[c].state.RowRunning? {
      IngestKeepsNode(decode, w, n, c);
      StoredIsDone(decode, s, w, n, IngestLine(n.db, w, c, decode, FileOf(n, c)));
    } else {
      NothingIsDone(decode, s, w, n);
    }
  }

  lemma RestartIsDone(decode: Decoder, s: Server, w: WorkerId, n: Node)
    requires NodeInv(decode, s, w, n)
    ensures LocalDone(decode, s, w, n, LocalNext(decode, w, n, Restart))
  {
    var m := LocalNext(decode, w, n, Restart);
    SameRowsKeepNode(decode, w, n, m);
    NodeEvolvesReflexive(n);
    SameFilesGrow(n, m);
  }

  lemma RowsEvolveReflexive(rows: map<CommandId, Row>)
    ensures RowsEvolve(rows, rows)
  {
  }

  lemma LocalIsDone(decode: Decoder, s: Server, w: WorkerId, n: Node, step: LocalStep)
    requires NodeInv(decode, s, w, n)
    requires step.Persist? || step.Confirm? ==> step.response.worker == w && ResponseOk(s, step.response)
    ensures LocalDone(decode, s, w, n, LocalNext(decode, w, n, step))
  {
    match step
    case Persist(p) => PersistIsDone(decode, s, w, n, p);
    case Confirm(p) => ConfirmIsDone(decode, s, w, n, p);
    case Launch(c, now) => LaunchIsDone(decode, s, w, n, c, now);
    case Finish(c, exitCode, error, tail, artifacts) => FinishIsDone(decode, s, w, n, c, exitCode, error, tail, artifacts);
    case Announce(c, artifacts) => AnnounceIsDone(decode, s, w, n, c, artifacts);
    case Write(c, text) => WriteKeepsNode(decode, w, n, c, text);
    case Ingest(c) => IngestIsDone(decode, s, w, n, c);
    case Restart => RestartIsDone(decode, s, w, n);
  }

  /** One worker moves. */
  predicate NodeMoved(sys: System, after: System, w: WorkerId, m: Node) {
    w in sys.nodes && after == sys.(nodes := sys.nodes[w := m])
  }

  lemma MovedTracks(sys: System, after: System, w: WorkerId, m: Node)
    requires Tracks(sys.server, Hist(sys)) && NodeMoved(sys, after, w, m) && sys.nodes[w].history <= m.history
    ensures Tracks(after.server, Hist(after))
  {
    forall v | v in Hist(after) ensures RecordedBy(after.server.log, v) <= Hist(after)[v] {
      assert RecordedBy(sys.server.log, v) <= Hist(sys)[v];
    }
  }

  lemma MovedMessagesOk(sys: System, after: System, w: WorkerId, m: Node)
    requires MessagesOk(sys) && NodeMoved(sys, after, w, m) && NodeEvolves(sys.nodes[w], m) && Kept(sys.nodes[w]) <= Kept(m)
    ensures MessagesOk(after)
  {
    forall request | request in after.requests ensures RequestOk(after.server, after.nodes, request) {
      assert RequestOk(sys.server, sys.nodes, request);
      if request.worker == w {
        var i, j := First(request), First(request) + |request.events|;
        assert m.history[i..j] == sys.nodes[w].history[i..j];
      }
    }
    forall p | p in after.responses ensures p.worker in after.nodes && ResponseOk(after.server, p) {
    }
  }

  lemma MovedNodesOk(decode: Decoder, sys: System, after: System, w: WorkerId, m: Node)
    requires NodesOk(decode, sys) && NodeMoved(sys, after, w, m) && LocalDone(decode, sys.server, w, sys.nodes[w], m)
    ensures NodesOk(decode, after)
  {
    forall v | v in after.nodes
      ensures NodeInv(decode, after.server, v, after.nodes[v]) && RecordsOk(after.server, v, after.nodes[v])
    {
      assert NodeInv(decode, sys.server, v, sys.nodes[v]) && RecordsOk(sys.server, v, sys.nodes[v]);
    }
  }

  lemma MovedEvolves(sys: System, after: System, w: WorkerId, m: Node)
    requires Inv(sys.server) && NodeMoved(sys, after, w, m) && NodeEvolves(sys.nodes[w], m)
    ensures SysEvolves(sys, after)
  {
    SameTables(sys.server, sys.server);
    forall v | v in sys.nodes ensures v in after.nodes && NodeEvolves(sys.nodes[v], after.nodes[v]) {
      NodeEvolvesReflexive(sys.nodes[v]);
    }
  }

  lemma MovedPreserves(decode: Decoder, sys: System, after: System, w: WorkerId, m: Node)
    requires SysInv(decode, sys) && NodeMoved(sys, after, w, m) && LocalDone(decode, sys.server, w, sys.nodes[w], m)
    ensures SysInv(decode, after) && SysEvolves(sys, after)
  {
    MovedTracks(sys, after, w, m);
    MovedMessagesOk(sys, after, w, m);
    MovedNodesOk(decode, sys, after, w, m);
    MovedEvolves(sys, after, w, m);
  }

  lemma LocalPreserves(decode: Decoder, sys: System, w: WorkerId, step: LocalStep)
    requires SysInv(decode, sys)
    ensures var t := Next(decode, sys, Local(w, step)); SysInv(decode, t) && SysEvolves(sys, t)
  {
    if w in sys.nodes && Received(sys, w, step) {
      assert NodeInv(decode, sys.server, w, sys.nodes[w]);
      LocalIsDone(decode, sys.server, w, sys.nodes[w], step);
      MovedPreserves(decode, sys, Next(decode, sys, Local(w, step)), w, LocalNext(decode, w, sys.nodes[w], step));
    } else {
      SysEvolvesReflexive(sys);
    }
  }

  /******* Every run *******/

  lemma NextPreserves(decode: Decoder, sys: System, step: Step)
    requires SysInv(decode, sys)
    ensures SysInv(decode, Next(decode, sys, step)) && SysEvolves(sys, Next(decode, sys, step))
  {
    match step
    case Enroll(w) => EnrollPreserves(decode, sys, w);
    case Admin(op) =>
      if op.Sync? || op.AddWorker? {
        SysEvolvesReflexive(sys);
      } else {
        AdminPreserves(decode, sys, op);
      }
    case Send(w, capacity) => SendPreserves(decode, sys, w, capacity);
    case Deliver(request) => DeliverPreserves(decode, sys, request);
    case Local(w, local) => LocalPreserves(decode, sys, w, local);
  }

  lemma StartInv(decode: Decoder)
    ensures SysInv(decode, START)
  {
  }

  lemma {:induction false} ExecPreserves(decode: Decoder, sys: System, steps: seq<Step>)
    requires SysInv(decode, sys)
    ensures SysInv(decode, Exec(decode, sys, steps)) && SysEvolves(sys, Exec(decode, sys, steps))
    decreases |steps|
  {
    if |steps| == 0 {
      SysEvolvesReflexive(sys);
    } else {
      var next := Next(decode, sys, steps[0]);
      NextPreserves(decode, sys, steps[0]);
      ExecPreserves(decode, next, steps[1..]);
      SysEvolvesTransitive(sys, next, Exec(decode, sys, steps));
    }
  }

  /** Every reachable state satisfies the invariant, whatever the network and the agents do. */
  lemma ReachableInv(decode: Decoder, steps: seq<Step>)
    ensures SysInv(decode, Exec(decode, START, steps))
  {
    StartInv(decode);
    ExecPreserves(decode, START, steps);
  }
}
