/**
 A worker as the protocol sees it: its durable database, the session of its current agent, everything
 it ever enqueued, and the metrics files its commands write.
 */
module Nodes {
  import opened Wrappers
  import opened Domain
  import opened MetricFile
  import opened WorkerDb
  import opened Streams
  import opened Tracking

  datatype Node = Node(db: Db, session: SessionId, history: seq<WorkerEvent>, files: map<CommandId, string>)

  const NEW_NODE := Node(FRESH, 0, [], map[])

  function FileOf(n: Node, id: CommandId): string {
    if id in n.files then n.files[id] else ""
  }

  /** The events a transaction added to the outbox. */
  function Enqueued(before: Db, after: Db): seq<WorkerEvent> {
    if |before.outbox| <= |after.outbox| then after.outbox[|before.outbox|..] else []
  }

  /** A store transaction that enqueues: the history grows by what the outbox grows. */
  function Stored(n: Node, db: Db): Node {
    n.(db := db, history := n.history + Enqueued(n.db, db))
  }

  /** How many events have left the outbox. */
  function Kept(n: Node): int {
    |n.history| - |n.db.outbox|
  }

  function RowPhase(rows: map<CommandId, Row>, attempt: AttemptId): Phase {
    if attempt !in rows then PhaseNone
    else match rows[attempt].state
      case RowPending => PhaseAccepted
      case RowRunning => PhaseRunning
      case RowFinished => PhaseDone
  }

  /** A row is a run command under its own identifier. */
  predicate RowShape(rows: map<CommandId, Row>, c: CommandId)
    requires c in rows
  {
    && rows[c].attemptId == c && rows[c].command.RunJob?
    && rows[c].command.commandId == c && rows[c].command.attemptId == c
  }

  /** The stored offset is a line boundary and the samples before it are those enqueued, in order, once each. */
  predicate MetricsExact(decode: Decoder, rows: map<CommandId, Row>, file: string, history: seq<WorkerEvent>, c: CommandId)
    requires c in rows
  {
    && Boundary(file, rows[c].metricOffset)
    && SamplesIn(decode, file[..rows[c].metricOffset]) == MetricsOf(history, c)
  }

  predicate PhaseAgrees(n: Node, attempt: AttemptId) {
    RowPhase(n.db.rows, attempt) == PhaseOf(n.history, attempt)
  }

  predicate OutboxOk(n: Node) {
    && n.db.last == |n.history|
    && |n.db.outbox| <= |n.history|
    && n.db.outbox == n.history[Kept(n)..]
  }

  predicate RowOk(decode: Decoder, n: Node, c: CommandId)
    requires c in n.db.rows
  {
    RowShape(n.db.rows, c) && MetricsExact(decode, n.db.rows, FileOf(n, c), n.history, c)
  }

  ghost predicate NodeOk(decode: Decoder, worker: WorkerId, n: Node) {
    && HistoryOk(worker, n.history) && OutboxOk(n)
    && (forall c :: c in n.db.rows ==> RowOk(decode, n, c))
    && (forall a: nat :: PhaseAgrees(n, a))
  }

  /******* How a worker evolves *******/

  predicate RowEvolves(before: Row, after: Row) {
    && after.command == before.command && after.attemptId == before.attemptId
    && (before.cancelRequested ==> after.cancelRequested)
    && (before.state.RowFinished? ==> after.state.RowFinished?)
    && (before.state.RowRunning? ==> !after.state.RowPending?)
    && (before.state.RowPending? && before.cancelRequested ==> !after.state.RowRunning?)
  }

  predicate RowsEvolve(before: map<CommandId, Row>, after: map<CommandId, Row>) {
    forall c :: c in before ==> c in after && RowEvolves(before[c], after[c])
  }

  predicate FileGrows(before: Node, after: Node, c: CommandId) {
    FileOf(before, c) <= FileOf(after, c)
  }

  ghost predicate NodeEvolves(before: Node, after: Node) {
    && before.history <= after.history && before.session <= after.session
    && RowsEvolve(before.db.rows, after.db.rows)
    && (forall c: nat :: FileGrows(before, after, c))
  }

  lemma NodeEvolvesTransitive(a: Node, b: Node, c: Node)
    requires NodeEvolves(a, b) && NodeEvolves(b, c)
    ensures NodeEvolves(a, c)
  {
    forall id | id in a.db.rows ensures id in c.db.rows && RowEvolves(a.db.rows[id], c.db.rows[id]) {
      assert RowEvolves(a.db.rows[id], b.db.rows[id]) && RowEvolves(b.db.rows[id], c.db.rows[id]);
    }
    forall id: nat ensures FileGrows(a, c, id) {
      assert FileGrows(a, b, id) && FileGrows(b, c, id);
    }
  }

  lemma NodeEvolvesReflexive(n: Node)
    ensures NodeEvolves(n, n)
  {
    forall c: nat ensures FileGrows(n, n, c) {
    }
  }

  /******* One transaction that enqueues one event *******/

  /** The node after enqueueing one event together with a change of rows. */
  function WithEvent(n: Node, self: WorkerId, rows: map<CommandId, Row>, attempt: AttemptId, body: EventBody): Node {
    Stored(n, Enqueue(n.db.(rows := rows), self, attempt, body))
  }

  lemma WithEventShape(decode: Decoder, self: WorkerId, n: Node, rows: map<CommandId, Row>, attempt: AttemptId, body: EventBody)
    requires OutboxOk(n)
    ensures var m := WithEvent(n, self, rows, attempt, body);
            var e := WorkerEvent(|n.history| + 1, EventId(self, |n.history| + 1), attempt, body);
            && m.history == n.history + [e] && OutboxOk(m) && m.db.rows == rows
            && m.session == n.session && m.files == n.files
  {
  }

  lemma SequencedAppend(self: WorkerId, history: seq<WorkerEvent>, e: WorkerEvent)
    requires HistoryOk(self, history)
    requires e.sequence == |history| + 1 && e.eventId == EventId(self, |history| + 1)
    requires Advance(PhaseOf(history, e.attemptId), e.body).Some?
    ensures HistoryOk(self, history + [e])
  {
    var more := history + [e];
    forall i | 0 <= i < |more| ensures SequencedAt(self, more, i) {
      assert i < |history| ==> SequencedAt(self, history, i);
    }
    AppendAllowed(history, e);
  }

  /** A row's offset and samples once `more` samples have been enqueued for it. */
  predicate RowReady(decode: Decoder, n: Node, rows: map<CommandId, Row>, c: CommandId, more: seq<MetricSample>)
    requires c in rows
  {
    && RowShape(rows, c)
    && Boundary(FileOf(n, c), rows[c].metricOffset)
    && SamplesIn(decode, FileOf(n, c)[..rows[c].metricOffset]) == MetricsOf(n.history, c) + more
  }

  function SampleOf(attempt: AttemptId, body: EventBody, c: CommandId): seq<MetricSample> {
    if c == attempt && body.EventMetric? then [body.sample] else []
  }

  /** An allowed event, with the rows moved to match it, keeps the node's invariant. */
  lemma EventKeepsNode(decode: Decoder, self: WorkerId, n: Node, rows: map<CommandId, Row>, attempt: AttemptId, body: EventBody)
    requires NodeOk(decode, self, n)
    requires Advance(RowPhase(n.db.rows, attempt), body) == Some(RowPhase(rows, attempt))
    requires forall a: nat :: a != attempt ==> RowPhase(rows, a) == RowPhase(n.db.rows, a)
    requires forall c :: c in rows ==> RowReady(decode, n, rows, c, SampleOf(attempt, body, c))
    ensures NodeOk(decode, self, WithEvent(n, self, rows, attempt, body))
  {
    hide MetricsOf, PhaseOf, Advance;
    var m := WithEvent(n, self, rows, attempt, body);
    var e := WorkerEvent(|n.history| + 1, EventId(self, |n.history| + 1), attempt, body);
    WithEventShape(decode, self, n, rows, attempt, body);
    assert PhaseAgrees(n, attempt);
    SequencedAppend(self, n.history, e);
    forall c | c in rows ensures RowOk(decode, m, c) {
      assert RowReady(decode, n, rows, c, SampleOf(attempt, body, c));
      AppendEvent(n.history, e, c);
    }
    forall a: nat ensures PhaseAgrees(m, a) {
      assert PhaseAgrees(n, a);
      AppendEvent(n.history, e, a);
    }
  }

  lemma ReadyIsOk(decode: Decoder, n: Node, m: Node, c: CommandId)
    requires m.history == n.history && m.files == n.files && c in m.db.rows
    requires RowReady(decode, n, m.db.rows, c, [])
    ensures RowOk(decode, m, c)
  {
    assert MetricsOf(n.history, c) + [] == MetricsOf(n.history, c);
  }

  /** Rows that change without an event, in no phase, leave the rest of the node as it was. */
  lemma QuietRowsKeepNode(decode: Decoder, self: WorkerId, n: Node, m: Node)
    requires NodeOk(decode, self, n)
    requires m == n.(db := n.db.(rows := m.db.rows))
    requires forall c :: c in m.db.rows ==> RowReady(decode, n, m.db.rows, c, [])
    requires forall a: nat :: RowPhase(m.db.rows, a) == RowPhase(n.db.rows, a)
    ensures NodeOk(decode, self, m)
  {
    forall c | c in m.db.rows ensures RowOk(decode, m, c) {
      ReadyIsOk(decode, n, m, c);
    }
    forall a: nat ensures PhaseAgrees(m, a) {
      assert PhaseAgrees(n, a);
    }
  }

  lemma MarkEvolves(rows: map<CommandId, Row>, attempt: AttemptId)
    ensures RowsEvolve(rows, MarkCanceled(rows, attempt))
    ensures forall a: nat :: RowPhase(MarkCanceled(rows, attempt), a) == RowPhase(rows, a)
  {
  }

  /** Marking changes no state and no offset. */
  lemma MarkKeepsNode(decode: Decoder, self: WorkerId, n: Node, attempt: AttemptId)
    requires NodeOk(decode, self, n)
    ensures NodeOk(decode, self, n.(db := n.db.(rows := MarkCanceled(n.db.rows, attempt))))
    ensures RowsEvolve(n.db.rows, MarkCanceled(n.db.rows, attempt))
  {
    var m := n.(db := n.db.(rows := MarkCanceled(n.db.rows, attempt)));
    MarkEvolves(n.db.rows, attempt);
    forall c | c in m.db.rows ensures RowReady(decode, n, m.db.rows, c, []) {
      assert RowOk(decode, n, c);
      MarkedIsReady(decode, n, attempt, c);
    }
    QuietRowsKeepNode(decode, self, n, m);
  }

  lemma MarkedIsReady(decode: Decoder, n: Node, attempt: AttemptId, c: CommandId)
    requires c in n.db.rows && RowOk(decode, n, c)
    ensures RowReady(decode, n, MarkCanceled(n.db.rows, attempt), c, [])
  {
    assert MetricsOf(n.history, c) + [] == MetricsOf(n.history, c);
  }

  /******* Accepting commands *******/

  /** An attempt without a row has never been heard of. */
  lemma NewAttemptIsUnheardOf(decode: Decoder, self: WorkerId, n: Node, id: CommandId)
    requires NodeOk(decode, self, n) && id !in n.db.rows
    ensures RowPhase(n.db.rows, id).PhaseNone? && MetricsOf(n.history, id) == []
  {
    assert PhaseAgrees(n, id);
    forall i | 0 <= i < |n.history| ensures n.history[i].attemptId != id {
      HeardOf(n.history, i);
    }
    UnheardOf(n.history, id);
  }

  function NewRow(command: WorkerCommand): Row
    requires command.RunJob?
  {
    Row(command.attemptId, command, RowPending, false, 0)
  }

  lemma NothingBeforeStart(decode: Decoder, file: string)
    ensures Boundary(file, 0) && SamplesIn(decode, file[..0]) == []
  {
    assert file[..0] == "";
  }

  lemma NewRowIsReady(decode: Decoder, n: Node, command: WorkerCommand, c: CommandId)
    requires command.RunJob? && command.commandId == command.attemptId
    requires c in n.db.rows[command.commandId := NewRow(command)]
    requires if c == command.commandId then MetricsOf(n.history, c) == [] else RowOk(decode, n, c)
    ensures RowReady(decode, n, n.db.rows[command.commandId := NewRow(command)], c, [])
  {
    NothingBeforeStart(decode, FileOf(n, c));
  }

  lemma InsertKeepsNode(decode: Decoder, self: WorkerId, n: Node, command: WorkerCommand)
    requires NodeOk(decode, self, n)
    requires command.RunJob? && command.commandId == command.attemptId && command.commandId !in n.db.rows
    ensures var rows := n.db.rows[command.commandId := NewRow(command)];
            && NodeOk(decode, self, WithEvent(n, self, rows, command.attemptId, EventAccepted))
            && RowsEvolve(n.db.rows, rows)
  {
    hide HistoryOk, OutboxOk, MetricsOf, PhaseOf, SamplesIn, Boundary;
    var id := command.commandId;
    var rows := n.db.rows[id := NewRow(command)];
    NewAttemptIsUnheardOf(decode, self, n, id);
    forall c | c in rows
      ensures RowReady(decode, n, rows, c, SampleOf(id, EventAccepted, c))
    {
      assert c != id ==> RowOk(decode, n, c);
      NewRowIsReady(decode, n, command, c);
    }
    EventKeepsNode(decode, self, n, rows, id, EventAccepted);
  }

  /** The commands of a response name run commands under their attempt's identifier. */
  predicate CommandsShaped(commands: seq<WorkerCommand>) {
    forall k :: 0 <= k < |commands| && commands[k].RunJob? ==> commands[k].commandId == commands[k].attemptId
  }

  lemma AcceptOneStored(decode: Decoder, self: WorkerId, n: Node, command: WorkerCommand)
    requires NodeOk(decode, self, n)
    requires command.RunJob? ==> command.commandId == command.attemptId
    requires AcceptCommand(n.db, self, command).Ok?
    ensures var db := AcceptCommand(n.db, self, command).value;
            NodeOk(decode, self, Stored(n, db)) && n.db.outbox <= db.outbox && RowsEvolve(n.db.rows, db.rows)
  {
    var db := AcceptCommand(n.db, self, command).value;
    match command
    case UnknownCommand =>
      assert Stored(n, db) == n;
    case CancelAttempt(attempt) =>
      MarkKeepsNode(decode, self, n, attempt);
      assert Stored(n, db) == n.(db := db);
    case RunJob(id, attempt, _, _, _, _, _) =>
      if id in n.db.rows {
        assert Stored(n, db) == n;
      } else {
        InsertKeepsNode(decode, self, n, command);
      }
  }

  /** What accepting one command does to the rows. */
  lemma AcceptOneRows(db: Db, self: WorkerId, command: WorkerCommand)
    requires AcceptCommand(db, self, command).Ok?
    ensures var after := AcceptCommand(db, self, command).value;
            && (command.RunJob? ==> command.commandId in after.rows)
            && (forall c :: c in after.rows && c !in db.rows ==>
                  command.RunJob? && c == command.commandId && after.rows[c].command == command)
            && (command.CancelAttempt? ==>
                  forall c :: c in after.rows && after.rows[c].attemptId == command.attemptId ==>
                    after.rows[c].cancelRequested || after.rows[c].state.RowFinished?)
  {
  }

  lemma AcceptOneKeepsNode(decode: Decoder, self: WorkerId, n: Node, command: WorkerCommand)
    requires NodeOk(decode, self, n)
    requires command.RunJob? ==> command.commandId == command.attemptId
    requires AcceptCommand(n.db, self, command).Ok?
    ensures var db := AcceptCommand(n.db, self, command).value;
            && NodeOk(decode, self, Stored(n, db)) && n.db.outbox <= db.outbox
            && RowsEvolve(n.db.rows, db.rows)
            && (command.RunJob? ==> command.commandId in db.rows)
            && (forall c :: c in db.rows && c !in n.db.rows ==>
                  command.RunJob? && c == command.commandId && db.rows[c].command == command)
            && (command.CancelAttempt? ==>
                  forall c :: c in db.rows && db.rows[c].attemptId == command.attemptId ==>
                    db.rows[c].cancelRequested || db.rows[c].state.RowFinished?)
  {
    AcceptOneStored(decode, self, n, command);
    AcceptOneRows(n.db, self, command);
  }

  lemma RowsEvolveTransitive(a: map<CommandId, Row>, b: map<CommandId, Row>, c: map<CommandId, Row>)
    requires RowsEvolve(a, b) && RowsEvolve(b, c)
    ensures RowsEvolve(a, c)
  {
    forall id | id in a ensures id in c && RowEvolves(a[id], c[id]) {
      assert RowEvolves(a[id], b[id]) && RowEvolves(b[id], c[id]);
    }
  }

  lemma StoredTwice(n: Node, mid: Db, last: Db)
    requires n.db.outbox <= mid.outbox && mid.outbox <= last.outbox
    ensures Stored(Stored(n, mid), last) == Stored(n, last)
  {
    assert last.outbox[|n.db.outbox|..] == mid.outbox[|n.db.outbox|..] + last.outbox[|mid.outbox|..];
  }

  /** New rows come from run commands of the list. */
  predicate RowsFrom(before: map<CommandId, Row>, after: map<CommandId, Row>, commands: seq<WorkerCommand>) {
    forall c :: c in after && c !in before ==> after[c].command in commands
  }

  lemma {:induction false} AcceptKeepsNode(decode: Decoder, self: WorkerId, n: Node, commands: seq<WorkerCommand>)
    requires NodeOk(decode, self, n) && CommandsShaped(commands)
    requires AcceptCommands(n.db, self, commands).Ok?
    ensures var db := AcceptCommands(n.db, self, commands).value;
            && NodeOk(decode, self, Stored(n, db)) && n.db.outbox <= db.outbox
            && RowsEvolve(n.db.rows, db.rows) && RowsFrom(n.db.rows, db.rows, commands)
    decreases |commands|
  {
    var db := AcceptCommands(n.db, self, commands).value;
    if |commands| == 0 {
      assert Stored(n, db) == n;
    } else {
      var mid := AcceptCommand(n.db, self, commands[0]).value;
      AcceptOneKeepsNode(decode, self, n, commands[0]);
      assert CommandsShaped(commands[1..]);
      AcceptKeepsNode(decode, self, Stored(n, mid), commands[1..]);
      RowsEvolveTransitive(n.db.rows, mid.rows, db.rows);
      StoredTwice(n, mid, db);
      forall c | c in db.rows && c !in n.db.rows ensures db.rows[c].command in commands {
        if c in mid.rows {
          assert RowEvolves(mid.rows[c], db.rows[c]);
          assert commands[0] in commands;
        } else {
          assert db.rows[c].command in commands[1..];
        }
      }
    }
  }

  /** The attempt's row is marked or finished. */
  predicate Stopping(rows: map<CommandId, Row>, attempt: AttemptId) {
    attempt in rows && (rows[attempt].cancelRequested || rows[attempt].state.RowFinished?)
  }

  lemma StoppingStays(before: map<CommandId, Row>, after: map<CommandId, Row>, attempt: AttemptId)
    requires RowsEvolve(before, after) && Stopping(before, attempt)
    ensures Stopping(after, attempt)
  {
    assert RowEvolves(before[attempt], after[attempt]);
  }

  /** After accepting, every run command has its row. */
  lemma {:induction false} RunCommandsHaveRows(decode: Decoder, self: WorkerId, n: Node, commands: seq<WorkerCommand>, k: nat)
    requires NodeOk(decode, self, n) && CommandsShaped(commands) && k < |commands| && commands[k].RunJob?
    requires AcceptCommands(n.db, self, commands).Ok?
    ensures commands[k].commandId in AcceptCommands(n.db, self, commands).value.rows
    decreases |commands|
  {
    var m := Stored(n, AcceptCommand(n.db, self, commands[0]).value);
    AcceptOneKeepsNode(decode, self, n, commands[0]);
    assert CommandsShaped(commands[1..]);
    if k == 0 {
      AcceptKeepsNode(decode, self, m, commands[1..]);
    } else {
      assert commands[1..][k - 1] == commands[k];
      RunCommandsHaveRows(decode, self, m, commands[1..], k - 1);
    }
  }

  lemma OfferedEarlierInTail(commands: seq<WorkerCommand>, k: nat, attempt: AttemptId)
    requires 0 < k < |commands| && OfferedEarlier(commands, k, attempt)
    requires !(commands[0].RunJob? && commands[0].attemptId == attempt)
    ensures OfferedEarlier(commands[1..], k - 1, attempt)
  {
    var e :| 0 <= e < k && commands[e].RunJob? && commands[e].attemptId == attempt;
    assert commands[1..][e - 1] == commands[e];
  }

  lemma FirstCancelTakesEffect(decode: Decoder, self: WorkerId, n: Node, attempt: AttemptId)
    requires NodeOk(decode, self, n) && attempt in n.db.rows
    ensures Stopping(MarkCanceled(n.db.rows, attempt), attempt)
  {
    assert RowOk(decode, n, attempt);
  }

  /** The worker has the attempt's row, or a run command before the k-th brings it. */
  predicate Reaches(rows: map<CommandId, Row>, commands: seq<WorkerCommand>, k: int, attempt: AttemptId) {
    attempt in rows || OfferedEarlier(commands, k, attempt)
  }

  /** The node once the first command has been accepted. */
  function AfterHead(self: WorkerId, n: Node, commands: seq<WorkerCommand>): Node
    requires |commands| > 0 && AcceptCommand(n.db, self, commands[0]).Ok?
  {
    Stored(n, AcceptCommand(n.db, self, commands[0]).value)
  }

  /** What remains then is to accept the rest. */
  lemma AcceptRest(decode: Decoder, self: WorkerId, n: Node, commands: seq<WorkerCommand>)
    requires NodeOk(decode, self, n) && CommandsShaped(commands) && |commands| > 0
    requires AcceptCommands(n.db, self, commands).Ok?
    ensures AcceptCommand(n.db, self, commands[0]).Ok?
    ensures NodeOk(decode, self, AfterHead(self, n, commands)) && CommandsShaped(commands[1..])
    ensures AcceptCommands(AfterHead(self, n, commands).db, self, commands[1..]) == AcceptCommands(n.db, self, commands)
  {
    AcceptOneKeepsNode(decode, self, n, commands[0]);
  }

  /** And the rest still reach the attempt. */
  lemma RestReaches(decode: Decoder, self: WorkerId, n: Node, commands: seq<WorkerCommand>, k: nat, attempt: AttemptId)
    requires NodeOk(decode, self, n) && CommandsShaped(commands) && 0 < k < |commands|
    requires AcceptCommand(n.db, self, commands[0]).Ok? && Reaches(n.db.rows, commands, k, attempt)
    ensures Reaches(AfterHead(self, n, commands).db.rows, commands[1..], k - 1, attempt)
  {
    AcceptOneKeepsNode(decode, self, n, commands[0]);
    if attempt !in AfterHead(self, n, commands).db.rows {
      OfferedEarlierInTail(commands, k, attempt);
    }
  }

  lemma HeadCancelTakesEffect(decode: Decoder, self: WorkerId, n: Node, commands: seq<WorkerCommand>)
    requires NodeOk(decode, self, n) && CommandsShaped(commands) && |commands| > 0 && commands[0].CancelAttempt?
    requires AcceptCommands(n.db, self, commands).Ok? && commands[0].attemptId in n.db.rows
    ensures Stopping(AcceptCommands(n.db, self, commands).value.rows, commands[0].attemptId)
  {
    hide NodeOk, RowsEvolve, RowsFrom, Stopping;
    var mid := AcceptCommand(n.db, self, commands[0]).value;
    AcceptOneKeepsNode(decode, self, n, commands[0]);
    FirstCancelTakesEffect(decode, self, n, commands[0].attemptId);
    assert CommandsShaped(commands[1..]);
    AcceptKeepsNode(decode, self, Stored(n, mid), commands[1..]);
    StoppingStays(mid.rows, AcceptCommands(n.db, self, commands).value.rows, commands[0].attemptId);
  }

  /** After accepting, a cancel has marked its attempt's row, if the worker had one or the response brought it. */
  lemma {:induction false} CancelsTakeEffect(decode: Decoder, self: WorkerId, n: Node, commands: seq<WorkerCommand>, k: nat)
    requires NodeOk(decode, self, n) && CommandsShaped(commands) && k < |commands| && commands[k].CancelAttempt?
    requires AcceptCommands(n.db, self, commands).Ok?
    requires Reaches(n.db.rows, commands, k, commands[k].attemptId)
    ensures Stopping(AcceptCommands(n.db, self, commands).value.rows, commands[k].attemptId)
    decreases |commands|
  {
    hide NodeOk, AcceptCommands, Stopping, AfterHead;
    if k == 0 {
      HeadCancelTakesEffect(decode, self, n, commands);
    } else {
      var rest := commands[1..];
      AcceptRest(decode, self, n, commands);
      RestReaches(decode, self, n, commands, k, commands[k].attemptId);
      assert rest[k - 1] == commands[k];
      CancelsTakeEffect(decode, self, AfterHead(self, n, commands), rest, k - 1);
    }
  }

  /** A run command the worker already has is the command that was stored first. */
  predicate Unchanged(rows: map<CommandId, Row>, command: WorkerCommand) {
    command.RunJob? && command.commandId in rows ==> rows[command.commandId].command == command
  }

  predicate AllUnchanged(rows: map<CommandId, Row>, commands: seq<WorkerCommand>) {
    forall k :: 0 <= k < |commands| ==> Unchanged(rows, commands[k])
  }

  lemma AcceptOneSucceedsIff(decode: Decoder, self: WorkerId, n: Node, command: WorkerCommand)
    requires NodeOk(decode, self, n) && (command.RunJob? ==> command.commandId == command.attemptId)
    ensures AcceptCommand(n.db, self, command).Ok? <==> Unchanged(n.db.rows, command)
  {
    if command.RunJob? && HasAttempt(n.db.rows, command.attemptId) {
      var c :| c in n.db.rows && n.db.rows[c].attemptId == command.attemptId;
      assert RowOk(decode, n, c);
    }
  }

  lemma OthersStayUnchanged(decode: Decoder, self: WorkerId, n: Node, head: WorkerCommand, other: WorkerCommand)
    requires NodeOk(decode, self, n) && (head.RunJob? ==> head.commandId == head.attemptId)
    requires AcceptCommand(n.db, self, head).Ok?
    requires head.RunJob? && other.RunJob? ==> head.commandId != other.commandId
    ensures Unchanged(AcceptCommand(n.db, self, head).value.rows, other) <==> Unchanged(n.db.rows, other)
  {
    AcceptOneKeepsNode(decode, self, n, head);
    if other.RunJob? && other.commandId in n.db.rows {
      assert RowEvolves(n.db.rows[other.commandId], AcceptCommand(n.db, self, head).value.rows[other.commandId]);
    }
  }

  lemma AllUnchangedByHead(rows: map<CommandId, Row>, commands: seq<WorkerCommand>)
    requires |commands| > 0
    ensures AllUnchanged(rows, commands) <==> Unchanged(rows, commands[0]) && AllUnchanged(rows, commands[1..])
  {
    assert forall k :: 1 <= k < |commands| ==> commands[k] == commands[1..][k - 1];
  }

  lemma RestStaysUnchanged(decode: Decoder, self: WorkerId, n: Node, commands: seq<WorkerCommand>)
    requires NodeOk(decode, self, n) && |commands| > 0 && CommandsShaped(commands) && RunOnce(commands)
    requires AcceptCommand(n.db, self, commands[0]).Ok?
    ensures AllUnchanged(AcceptCommand(n.db, self, commands[0]).value.rows, commands[1..]) <==>
            AllUnchanged(n.db.rows, commands[1..])
    ensures CommandsShaped(commands[1..]) && RunOnce(commands[1..])
  {
    var rest := commands[1..];
    assert forall k :: 0 <= k < |rest| ==> rest[k] == commands[k + 1];
    var rows := AcceptCommand(n.db, self, commands[0]).value.rows;
    forall k | 0 <= k < |rest| ensures Unchanged(rows, rest[k]) <==> Unchanged(n.db.rows, rest[k]) {
      OthersStayUnchanged(decode, self, n, commands[0], rest[k]);
    }
  }

  /**
   When a response can be stored: exactly when every run command in it that the worker already has is,
   state and revision included, the command that was stored first.
   */
  lemma {:induction false} AcceptSucceedsIff(decode: Decoder, self: WorkerId, n: Node, commands: seq<WorkerCommand>)
    requires NodeOk(decode, self, n) && CommandsShaped(commands) && RunOnce(commands)
    ensures AcceptCommands(n.db, self, commands).Ok? <==> AllUnchanged(n.db.rows, commands)
    decreases |commands|
  {
    if |commands| > 0 {
      AllUnchangedByHead(n.db.rows, commands);
      AcceptOneSucceedsIff(decode, self, n, commands[0]);
      var first := AcceptCommand(n.db, self, commands[0]);
      if first.Ok? {
        AcceptOneKeepsNode(decode, self, n, commands[0]);
        RestStaysUnchanged(decode, self, n, commands);
        AcceptSucceedsIff(decode, self, Stored(n, first.value), commands[1..]);
      }
    }
  }

  /******* Running commands *******/

  /** A change of one row's state and nothing else. */
  predicate RowMoved(before: map<CommandId, Row>, after: map<CommandId, Row>, id: CommandId) {
    && id in before && id in after
    && after == before[id := after[id]] && after[id] == before[id].(state := after[id].state)
  }

  lemma MovedRowIsReady(decode: Decoder, n: Node, id: CommandId, rows: map<CommandId, Row>, c: CommandId)
    requires RowMoved(n.db.rows, rows, id) && c in n.db.rows && c in rows && RowOk(decode, n, c)
    ensures RowReady(decode, n, rows, c, [])
  {
    assert MetricsOf(n.history, c) + [] == MetricsOf(n.history, c);
  }

  lemma OtherPhasesStay(before: map<CommandId, Row>, after: map<CommandId, Row>, id: CommandId)
    requires RowMoved(before, after, id)
    ensures forall a: nat :: a != id ==> RowPhase(after, a) == RowPhase(before, a)
  {
  }

  lemma RowMovedEvolves(before: map<CommandId, Row>, after: map<CommandId, Row>, id: CommandId)
    requires RowMoved(before, after, id) && RowEvolves(before[id], after[id])
    ensures RowsEvolve(before, after) && after.Keys == before.Keys
  {
    forall c | c in before ensures c in after && RowEvolves(before[c], after[c]) {
    }
  }

  /** Moving one row's state with the event that reports it. */
  lemma MoveRowKeepsNode(decode: Decoder, self: WorkerId, n: Node, id: CommandId, rows: map<CommandId, Row>, body: EventBody)
    requires NodeOk(decode, self, n) && RowMoved(n.db.rows, rows, id) && !body.EventMetric?
    requires Advance(RowPhase(n.db.rows, id), body) == Some(RowPhase(rows, id))
    ensures NodeOk(decode, self, WithEvent(n, self, rows, n.db.rows[id].attemptId, body))
  {
    assert RowOk(decode, n, id);
    forall c | c in rows
      ensures RowReady(decode, n, rows, c, SampleOf(id, body, c))
    {
      assert RowOk(decode, n, c);
      MovedRowIsReady(decode, n, id, rows, c);
    }
    OtherPhasesStay(n.db.rows, rows, id);
    EventKeepsNode(decode, self, n, rows, id, body);
  }

  lemma StartKeepsNode(decode: Decoder, self: WorkerId, n: Node, id: CommandId, now: int)
    requires NodeOk(decode, self, n) && MarkStarted(n.db, self, id, now).Ok? && !n.db.rows[id].cancelRequested
    ensures var db := MarkStarted(n.db, self, id, now).value;
            NodeOk(decode, self, Stored(n, db)) && RowsEvolve(n.db.rows, db.rows) && db.rows.Keys == n.db.rows.Keys
  {
    var rows := n.db.rows[id := n.db.rows[id].(state := RowRunning)];
    RowMovedEvolves(n.db.rows, rows, id);
    MoveRowKeepsNode(decode, self, n, id, rows, EventStarted(now));
  }

  lemma FinishKeepsNode(decode: Decoder, self: WorkerId, n: Node, id: CommandId, exitCode: int, error: string, tail: nat, artifacts: seq<Artifact>)
    requires NodeOk(decode, self, n) && MarkFinished(n.db, self, id, exitCode, error, tail, artifacts).Ok?
    ensures var db := MarkFinished(n.db, self, id, exitCode, error, tail, artifacts).value;
            NodeOk(decode, self, Stored(n, db)) && RowsEvolve(n.db.rows, db.rows) && db.rows.Keys == n.db.rows.Keys
  {
    var rows := n.db.rows[id := n.db.rows[id].(state := RowFinished)];
    RowMovedEvolves(n.db.rows, rows, id);
    MoveRowKeepsNode(decode, self, n, id, rows, EventFinished(Some(exitCode), error, tail, artifacts));
  }

  lemma AnnounceKeepsNode(decode: Decoder, self: WorkerId, n: Node, id: CommandId, artifacts: seq<Artifact>)
    requires NodeOk(decode, self, n) && AnnounceArtifacts(n.db, self, id, artifacts).Ok?
    ensures var db := AnnounceArtifacts(n.db, self, id, artifacts).value;
            NodeOk(decode, self, Stored(n, db)) && db.rows == n.db.rows
  {
    if |artifacts| == 0 {
      assert Stored(n, n.db) == n;
    } else {
      MoveRowKeepsNode(decode, self, n, id, n.db.rows, EventArtifacts(artifacts));
      assert Stored(n, AnnounceArtifacts(n.db, self, id, artifacts).value) ==
             WithEvent(n, self, n.db.rows, n.db.rows[id].attemptId, EventArtifacts(artifacts));
    }
  }

  /** Reading one line of a running command's metrics file. */
  lemma IngestKeepsNode(decode: Decoder, self: WorkerId, n: Node, id: CommandId)
    requires NodeOk(decode, self, n) && id in n.db.rows && n.db.rows[id].state.RowRunning?
    ensures var db := IngestLine(n.db, self, id, decode, FileOf(n, id));
            && NodeOk(decode, self, Stored(n, db)) && n.db.outbox <= db.outbox
            && RowsEvolve(n.db.rows, db.rows) && db.rows.Keys == n.db.rows.Keys
  {
    var file := FileOf(n, id);
    var offset := n.db.rows[id].metricOffset;
    var db := IngestLine(n.db, self, id, decode, file);
    assert RowOk(decode, n, id);
    ReadLineIsExact(decode, file, offset);
    match ReadLine(decode, file, offset)
    case Wait => assert Stored(n, db) == n;
    case TooLong => assert Stored(n, db) == n;
    case Skip(next) => SkipKeepsNode(decode, self, n, id, next);
    case Take(sample, next) => TakeKeepsNode(decode, self, n, id, sample, next);
  }

  lemma OffsetEvolves(rows: map<CommandId, Row>, id: CommandId, next: nat)
    requires id in rows
    ensures RowsEvolve(rows, SetOffset(rows, id, next)) && SetOffset(rows, id, next).Keys == rows.Keys
    ensures forall a: nat :: RowPhase(SetOffset(rows, id, next), a) == RowPhase(rows, a)
  {
  }

  lemma OffsetIsReady(decode: Decoder, n: Node, id: CommandId, next: nat, more: seq<MetricSample>, c: CommandId)
    requires id in n.db.rows && c in n.db.rows && RowOk(decode, n, c)
    requires Boundary(FileOf(n, id), next)
    requires SamplesIn(decode, FileOf(n, id)[..next]) == MetricsOf(n.history, id) + more
    ensures RowReady(decode, n, SetOffset(n.db.rows, id, next), c, if c == id then more else [])
  {
  }

  lemma SkipKeepsNode(decode: Decoder, self: WorkerId, n: Node, id: CommandId, next: nat)
    requires NodeOk(decode, self, n) && id in n.db.rows
    requires Boundary(FileOf(n, id), next)
    requires SamplesIn(decode, FileOf(n, id)[..next]) == MetricsOf(n.history, id)
    ensures NodeOk(decode, self, Stored(n, SkipMetric(n.db, id, next)))
    ensures RowsEvolve(n.db.rows, SkipMetric(n.db, id, next).rows) && SkipMetric(n.db, id, next).rows.Keys == n.db.rows.Keys
  {
    var m := n.(db := SkipMetric(n.db, id, next));
    SkipIsQuiet(n, id, next);
    OffsetEvolves(n.db.rows, id, next);
    assert MetricsOf(n.history, id) + [] == MetricsOf(n.history, id);
    forall c | c in m.db.rows ensures RowReady(decode, n, m.db.rows, c, []) {
      assert RowOk(decode, n, c);
      OffsetIsReady(decode, n, id, next, [], c);
    }
    QuietRowsKeepNode(decode, self, n, m);
  }

  lemma SkipIsQuiet(n: Node, id: CommandId, next: nat)
    ensures Stored(n, SkipMetric(n.db, id, next)) == n.(db := SkipMetric(n.db, id, next))
  {
    assert n.history + [] == n.history;
  }

  lemma TakeKeepsNode(decode: Decoder, self: WorkerId, n: Node, id: CommandId, sample: MetricSample, next: nat)
    requires NodeOk(decode, self, n) && id in n.db.rows && n.db.rows[id].state.RowRunning?
    requires Boundary(FileOf(n, id), next)
    requires SamplesIn(decode, FileOf(n, id)[..next]) == MetricsOf(n.history, id) + [sample]
    ensures var db := EnqueueMetric(n.db, self, id, n.db.rows[id].attemptId, sample, next);
            NodeOk(decode, self, Stored(n, db)) && RowsEvolve(n.db.rows, db.rows) && db.rows.Keys == n.db.rows.Keys
  {
    hide HistoryOk, OutboxOk, MetricsOf, PhaseOf, SamplesIn, Boundary;
    var rows := SetOffset(n.db.rows, id, next);
    assert RowOk(decode, n, id);
    OffsetEvolves(n.db.rows, id, next);
    forall c | c in rows ensures RowReady(decode, n, rows, c, SampleOf(id, EventMetric(sample), c)) {
      assert RowOk(decode, n, c);
      OffsetIsReady(decode, n, id, next, [sample], c);
    }
    EventKeepsNode(decode, self, n, rows, id, EventMetric(sample));
    MetricIsEvent(n.db, self, id, id, sample, next);
  }

  /** Storing a sample with its offset is enqueueing an event beside a change of rows. */
  lemma MetricIsEvent(db: Db, self: WorkerId, id: CommandId, attempt: AttemptId, sample: MetricSample, next: nat)
    ensures EnqueueMetric(db, self, id, attempt, sample, next) ==
            Enqueue(db.(rows := SetOffset(db.rows, id, next)), self, attempt, EventMetric(sample))
  {
  }

  /** With no newline behind it, an offset has all complete lines before it. */
  lemma NothingBehind(decode: Decoder, file: string, offset: nat)
    requires Boundary(file, offset) && LineEnd(file, offset).None?
    ensures SamplesIn(decode, file) == SamplesIn(decode, file[..offset])
  {
    var a, b := file[..offset], file[offset..];
    assert file == a + b;
    LineEndShift(file, 0, offset);
    assert CompleteLines(b) == [];
    LinesConcat(a, b);
    AcceptedConcat(decode, CompleteLines(a), CompleteLines(b));
  }

  lemma OneLineOfMany(self: WorkerId, db: Db, id: CommandId, decode: Decoder, file: string)
    requires id in db.rows
    ensures var reading := ReadLine(decode, file, db.rows[id].metricOffset);
            var next := IngestLine(db, self, id, decode, file);
            && id in next.rows && next.rows[id].state == db.rows[id].state
            && (reading.Skip? || reading.Take? ==>
                  && next.rows[id].metricOffset == reading.next
                  && IngestMetrics(db, self, id, decode, file) == IngestMetrics(next, self, id, decode, file))
  {
  }

  /** Reading a line and then the rest is reading it all. */
  lemma IngestSteps(decode: Decoder, self: WorkerId, n: Node, id: CommandId)
    requires NodeOk(decode, self, n) && id in n.db.rows && n.db.rows[id].state.RowRunning?
    requires var reading := ReadLine(decode, FileOf(n, id), n.db.rows[id].metricOffset); reading.Skip? || reading.Take?
    ensures var m := Stored(n, IngestLine(n.db, self, id, decode, FileOf(n, id)));
            && NodeOk(decode, self, m) && n.db.outbox <= m.db.outbox && FileOf(m, id) == FileOf(n, id)
            && id in m.db.rows && m.db.rows[id].state.RowRunning?
            && n.db.rows[id].metricOffset < m.db.rows[id].metricOffset <= |FileOf(n, id)|
            && IngestMetrics(n.db, self, id, decode, FileOf(n, id)) == IngestMetrics(m.db, self, id, decode, FileOf(n, id))
  {
    hide PhaseAgrees, HistoryOk, MetricsExact, RowOk;
    IngestKeepsNode(decode, self, n, id);
    OneLineOfMany(self, n.db, id, decode, FileOf(n, id));
  }

  /** Where reading stops, at the end of the complete lines, all their samples have been enqueued. */
  lemma IngestStops(decode: Decoder, self: WorkerId, n: Node, id: CommandId)
    requires NodeOk(decode, self, n) && id in n.db.rows
    requires var reading := ReadLine(decode, FileOf(n, id), n.db.rows[id].metricOffset); reading.Wait? || reading.TooLong?
    ensures var (db, ok) := IngestMetrics(n.db, self, id, decode, FileOf(n, id));
            && db == n.db && Stored(n, db) == n
            && (ok ==> MetricsOf(n.history, id) == SamplesIn(decode, FileOf(n, id)))
            && (!ok ==> ReadLine(decode, FileOf(n, id), n.db.rows[id].metricOffset).TooLong?)
  {
    assert RowOk(decode, n, id);
    assert Stored(n, n.db) == n;
    if ReadLine(decode, FileOf(n, id), n.db.rows[id].metricOffset).Wait? {
      NothingBehind(decode, FileOf(n, id), n.db.rows[id].metricOffset);
    }
  }

  /**
   Reading to the end of the file enqueues exactly the well-formed samples on its complete lines, unless it stops
   at one that is too long.
   */
  lemma {:induction false} IngestAll(decode: Decoder, self: WorkerId, n: Node, id: CommandId)
    requires NodeOk(decode, self, n) && id in n.db.rows && n.db.rows[id].state.RowRunning?
    ensures var (db, ok) := IngestMetrics(n.db, self, id, decode, FileOf(n, id));
            && NodeOk(decode, self, Stored(n, db)) && n.db.outbox <= db.outbox
            && (ok ==> MetricsOf(Stored(n, db).history, id) == SamplesIn(decode, FileOf(n, id)))
            && (!ok ==> id in db.rows && ReadLine(decode, FileOf(n, id), db.rows[id].metricOffset).TooLong?)
    decreases |FileOf(n, id)| - n.db.rows[id].metricOffset
  {
    var file := FileOf(n, id);
    var (db, ok) := IngestMetrics(n.db, self, id, decode, file);
    var reading := ReadLine(decode, file, n.db.rows[id].metricOffset);
    if reading.Wait? || reading.TooLong? {
      IngestStops(decode, self, n, id);
    } else {
      var mid := IngestLine(n.db, self, id, decode, file);
      IngestSteps(decode, self, n, id);
      IngestAll(decode, self, Stored(n, mid), id);
      StoredTwice(n, mid, db);
    }
  }

  lemma WriteKeepsNode(decode: Decoder, self: WorkerId, n: Node, id: CommandId, text: string)
    requires NodeOk(decode, self, n)
    ensures var m := n.(files := n.files[id := FileOf(n, id) + text]);
            NodeOk(decode, self, m) && NodeEvolves(n, m)
  {
    var m := n.(files := n.files[id := FileOf(n, id) + text]);
    forall c | c in m.db.rows ensures RowOk(decode, m, c) {
      assert RowOk(decode, n, c);
      if c == id {
        AppendKeepsPrefix(FileOf(n, id), text, n.db.rows[id].metricOffset);
      }
    }
    forall a: nat ensures PhaseAgrees(m, a) {
      assert PhaseAgrees(n, a);
    }
    forall c: nat ensures FileGrows(n, m, c) {
    }
  }

  /******* Acknowledging *******/

  /** On an outbox of consecutive sequences, dropping through a sequence drops a prefix. */
  lemma {:induction false} DropThroughIsDrop(outbox: seq<WorkerEvent>, first: nat, through: nat)
    requires forall i :: 0 <= i < |outbox| ==> outbox[i].sequence == first + i
    ensures DropThrough(outbox, through) ==
            if through < first then outbox
            else if through - first + 1 >= |outbox| then [] else outbox[through - first + 1..]
    decreases |outbox|
  {
    if |outbox| > 0 {
      DropThroughIsDrop(outbox[1..], first + 1, through);
      if outbox[0].sequence <= through && through - first + 1 < |outbox| {
        assert outbox[1..][through - first..] == outbox[through - first + 1..];
      }
    }
  }

  /** The first event an acknowledgement through a sequence keeps. */
  function KeptFrom(n: Node, through: nat): int {
    var kept := Kept(n);
    if through <= kept then kept else if through <= |n.history| then through else |n.history|
  }

  lemma OutboxIsSequenced(self: WorkerId, n: Node)
    requires HistoryOk(self, n.history) && OutboxOk(n)
    ensures forall i :: 0 <= i < |n.db.outbox| ==> n.db.outbox[i].sequence == Kept(n) + 1 + i
  {
    var kept := Kept(n);
    forall i | 0 <= i < |n.db.outbox| ensures n.db.outbox[i].sequence == kept + 1 + i {
      assert n.db.outbox[i] == n.history[kept + i];
      assert SequencedAt(self, n.history, kept + i);
    }
  }

  lemma SuffixOfSuffix<T>(all: seq<T>, k: nat, m: nat)
    requires k <= m <= |all|
    ensures all[k..][m - k..] == all[m..]
  {
  }

  /** Dropping k events from what follows position `kept`. */
  lemma DropFromSuffix<T>(all: seq<T>, suffix: seq<T>, kept: nat, k: nat)
    requires kept <= |all| && suffix == all[kept..]
    ensures k < |suffix| ==> suffix[k..] == all[kept + k..]
    ensures |suffix| <= k ==> [] == all[|all|..]
  {
  }

  lemma AcknowledgedSequence(n: Node, through: nat)
    requires OutboxOk(n)
    requires forall i :: 0 <= i < |n.db.outbox| ==> n.db.outbox[i].sequence == Kept(n) + 1 + i
    ensures 0 <= KeptFrom(n, through) <= |n.history|
    ensures DropThrough(n.db.outbox, through) == n.history[KeptFrom(n, through)..]
  {
    var kept := Kept(n);
    DropThroughIsDrop(n.db.outbox, kept + 1, through);
    if through > kept {
      DropFromSuffix(n.history, n.db.outbox, kept, through - kept);
    }
  }

  lemma AcknowledgedOutbox(self: WorkerId, n: Node, through: nat)
    requires HistoryOk(self, n.history) && OutboxOk(n)
    ensures 0 <= KeptFrom(n, through) <= |n.history|
    ensures Acknowledge(n.db, through).outbox == n.history[KeptFrom(n, through)..]
  {
    OutboxIsSequenced(self, n);
    AcknowledgedSequence(n, through);
  }

  /** Acknowledging through a sequence keeps exactly the events after it. */
  lemma AcknowledgeIsExact(decode: Decoder, self: WorkerId, n: Node, through: nat)
    requires NodeOk(decode, self, n)
    ensures var m := n.(db := Acknowledge(n.db, through));
            && NodeOk(decode, self, m)
            && 0 <= KeptFrom(n, through) <= |n.history|
            && m.db.outbox == n.history[KeptFrom(n, through)..]
            && m.db.rows == n.db.rows
  {
    AcknowledgedOutbox(self, n, through);
    SameRowsKeepNode(decode, self, n, n.(db := Acknowledge(n.db, through)));
  }

  lemma SameRowsKeepNode(decode: Decoder, self: WorkerId, n: Node, m: Node)
    requires NodeOk(decode, self, n) && OutboxOk(m)
    requires m.db.rows == n.db.rows && m.history == n.history && m.files == n.files
    ensures NodeOk(decode, self, m)
  {
    forall c | c in m.db.rows ensures RowOk(decode, m, c) {
      assert RowOk(decode, n, c);
    }
    forall a: nat ensures PhaseAgrees(m, a) {
      assert PhaseAgrees(n, a);
    }
  }

  /** Every event is about an attempt the worker holds a row for. */
  lemma EventsHaveRows(decode: Decoder, self: WorkerId, n: Node, i: nat)
    requires NodeOk(decode, self, n) && i < |n.history|
    ensures n.history[i].attemptId in n.db.rows
  {
    HeardOf(n.history, i);
    assert PhaseAgrees(n, n.history[i].attemptId);
  }
}
