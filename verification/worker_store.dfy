/** The worker's store and the agent that drives it, updating their tables in place. */
module WorkerStore {
  import opened Wrappers
  import opened Domain
  import opened MetricFile
  import WorkerDb

  type Row = WorkerDb.Row
  type Error = WorkerDb.Error

  const COMMAND_LIMIT := 1000

  predicate CanceledPending(rows: map<CommandId, Row>, c: CommandId) {
    c in rows && rows[c].state.RowPending? && rows[c].cancelRequested
  }

  /** A list of canceled pending commands, each once: all of them, or a thousand. */
  ghost predicate Listed(commands: seq<CommandId>, rows: map<CommandId, Row>) {
    && (forall i :: 0 <= i < |commands| ==> CanceledPending(rows, commands[i]))
    && (forall i, k :: 0 <= i < k < |commands| ==> commands[i] != commands[k])
    && |commands| <= COMMAND_LIMIT
    && (|commands| < COMMAND_LIMIT ==> forall c :: CanceledPending(rows, c) ==> c in commands)
  }

  predicate IsCanceledReport(e: WorkerEvent, attempt: AttemptId) {
    e.attemptId == attempt && e.body == EventFinished(Some(-1), "canceled before start", 0, [])
  }

  lemma NoneLeft(before: map<CommandId, Row>, after: map<CommandId, Row>, commands: seq<CommandId>)
    requires Listed(commands, before) && after.Keys == before.Keys
    requires forall c :: c in after ==> after[c] == if c in commands then before[c].(state := WorkerDb.RowFinished) else before[c]
    ensures |commands| < COMMAND_LIMIT ==> forall c :: !CanceledPending(after, c)
  {
    forall c | |commands| < COMMAND_LIMIT ensures !CanceledPending(after, c) {
      assert CanceledPending(before, c) ==> c in commands;
    }
  }

  /** A transaction that fails leaves every table as it was. */
  class Store {
    const self: WorkerId
    var rows: map<CommandId, Row>
    var outbox: seq<WorkerEvent>
    var last: nat

    function Value(): WorkerDb.Db
      reads this
    {
      WorkerDb.Db(rows, outbox, last)
    }

    constructor (self: WorkerId)
      ensures this.self == self && Value() == WorkerDb.FRESH
    {
      this.self := self;
      rows, outbox, last := map[], [], 0;
    }

    method EnqueueEvent(attempt: AttemptId, body: EventBody)
      modifies this
      ensures Value() == WorkerDb.Enqueue(old(Value()), self, attempt, body)
    {
      last := last + 1;
      outbox := outbox + [WorkerEvent(last, EventId(self, last), attempt, body)];
    }

    /** UPDATE commands SET cancel_requested_at WHERE attempt_id matches and the command is unfinished. */
    method RequestCancel(attempt: AttemptId)
      modifies `rows
      ensures Value() == old(Value()).(rows := WorkerDb.MarkCanceled(old(rows), attempt))
    {
      var todo := rows.Keys;
      while todo != {}
        invariant todo <= old(rows).Keys == rows.Keys
        invariant forall c :: c in todo ==> rows[c] == old(rows)[c]
        invariant forall c :: c in rows && c !in todo ==> rows[c] == WorkerDb.MarkCanceled(old(rows), attempt)[c]
        decreases |todo|
      {
        var c :| c in todo;
        if rows[c].attemptId == attempt && WorkerDb.Unfinished(rows[c]) {
          rows := rows[c := rows[c].(cancelRequested := true)];
        }
        todo := todo - {c};
      }
    }

    /** INSERT OR IGNORE: both the command and the attempt are unique. */
    method InsertCommand(command: WorkerCommand) returns (inserted: bool)
      requires command.RunJob?
      modifies `rows
      ensures inserted <==> command.commandId !in old(rows) && !WorkerDb.HasAttempt(old(rows), command.attemptId)
      ensures rows == if inserted
                      then old(rows)[command.commandId := WorkerDb.Row(command.attemptId, command, WorkerDb.RowPending, false, 0)]
                      else old(rows)
    {
      if command.commandId in rows || exists c :: c in rows && rows[c].attemptId == command.attemptId {
        return false;
      }
      rows := rows[command.commandId := WorkerDb.Row(command.attemptId, command, WorkerDb.RowPending, false, 0)];
      return true;
    }

    /** The order, by the time of storing, is left open. */
    method PendingCanceledCommands() returns (commands: seq<CommandId>)
      ensures Listed(commands, rows)
    {
      commands := [];
      var todo := rows.Keys;
      while todo != {} && |commands| < COMMAND_LIMIT
        invariant todo <= rows.Keys && |commands| <= COMMAND_LIMIT
        invariant forall i :: 0 <= i < |commands| ==> CanceledPending(rows, commands[i]) && commands[i] !in todo
        invariant forall i, k :: 0 <= i < k < |commands| ==> commands[i] != commands[k]
        invariant forall c :: c in rows && c !in todo && CanceledPending(rows, c) ==> c in commands
        decreases |todo|
      {
        var c :| c in todo;
        if CanceledPending(rows, c) {
          commands := commands + [c];
        }
        todo := todo - {c};
      }
    }

    method AcceptCommand(command: WorkerCommand) returns (r: Result<(), Error>)
      modifies this
      ensures match WorkerDb.AcceptCommand(old(Value()), self, command)
              case Ok(db) => r == Ok(()) && Value() == db
              case Err(e) => r == Err(e) && Value() == old(Value())
    {
      match command {
        case UnknownCommand =>
          return Ok(());
        case CancelAttempt(attempt) =>
          RequestCancel(attempt);
          return Ok(());
        case RunJob(id, attempt, _, _, _, _, _) =>
          var inserted := InsertCommand(command);
          if !inserted {
            if id !in rows {
              return Err(WorkerDb.NoDuplicateRow);
            }
            if rows[id].command != command {
              return Err(WorkerDb.CommandChanged);
            }
            return Ok(());
          }
          EnqueueEvent(attempt, EventAccepted);
          return Ok(());
      }
    }

    method AcceptCommands(commands: seq<WorkerCommand>) returns (r: Result<(), Error>)
      modifies this
      ensures match WorkerDb.AcceptCommands(old(Value()), self, commands)
              case Ok(db) => r == Ok(()) && Value() == db
              case Err(e) => r == Err(e) && Value() == old(Value())
    {
      var rows0, outbox0, last0 := rows, outbox, last;
      var i := 0;
      while i < |commands|
        invariant 0 <= i <= |commands|
        invariant WorkerDb.AcceptCommands(old(Value()), self, commands) == WorkerDb.AcceptCommands(Value(), self, commands[i..])
      {
        assert commands[i..][0] == commands[i] && commands[i..][1..] == commands[i + 1..];
        var one := AcceptCommand(commands[i]);
        if one.Err? {
          rows, outbox, last := rows0, outbox0, last0;
          return one;
        }
        i := i + 1;
      }
      return Ok(());
    }

    method MarkStarted(id: CommandId, now: int) returns (r: Result<(), Error>)
      modifies this
      ensures match WorkerDb.MarkStarted(old(Value()), self, id, now)
              case Ok(db) => r == Ok(()) && Value() == db
              case Err(e) => r == Err(e) && Value() == old(Value())
    {
      if id !in rows || !rows[id].state.RowPending? {
        return Err(WorkerDb.NotPending);
      }
      rows := rows[id := rows[id].(state := WorkerDb.RowRunning)];
      EnqueueEvent(rows[id].attemptId, EventStarted(now));
      return Ok(());
    }

    method MarkFinished(id: CommandId, exitCode: int, error: string, logTailLength: nat, artifacts: seq<Artifact>)
      returns (r: Result<(), Error>)
      modifies this
      ensures match WorkerDb.MarkFinished(old(Value()), self, id, exitCode, error, logTailLength, artifacts)
              case Ok(db) => r == Ok(()) && Value() == db
              case Err(e) => r == Err(e) && Value() == old(Value())
    {
      if id !in rows || !WorkerDb.Unfinished(rows[id]) {
        return Err(WorkerDb.NotUnfinished);
      }
      rows := rows[id := rows[id].(state := WorkerDb.RowFinished)];
      EnqueueEvent(rows[id].attemptId, EventFinished(Some(exitCode), error, logTailLength, artifacts));
      return Ok(());
    }

    method AnnounceArtifacts(id: CommandId, artifacts: seq<Artifact>) returns (r: Result<(), Error>)
      modifies this
      ensures match WorkerDb.AnnounceArtifacts(old(Value()), self, id, artifacts)
              case Ok(db) => r == Ok(()) && Value() == db
              case Err(e) => r == Err(e) && Value() == old(Value())
    {
      if |artifacts| == 0 {
        return Ok(());
      }
      if id !in rows || !rows[id].state.RowRunning? {
        return Err(WorkerDb.NotRunning);
      }
      EnqueueEvent(rows[id].attemptId, EventArtifacts(artifacts));
      return Ok(());
    }

    method SkipMetric(id: CommandId, offset: nat)
      modifies `rows
      ensures Value() == WorkerDb.SkipMetric(old(Value()), id, offset)
    {
      if id in rows {
        rows := rows[id := rows[id].(metricOffset := offset)];
      }
    }

    method EnqueueMetric(id: CommandId, attempt: AttemptId, sample: MetricSample, offset: nat)
      modifies this
      ensures Value() == WorkerDb.EnqueueMetric(old(Value()), self, id, attempt, sample, offset)
    {
      EnqueueEvent(attempt, EventMetric(sample));
      if id in rows {
        rows := rows[id := rows[id].(metricOffset := offset)];
      }
    }

    /** SELECT ... ORDER BY sequence LIMIT, read row by row. */
    method Events(limit: int) returns (events: seq<WorkerEvent>)
      ensures events == WorkerDb.Events(Value(), limit)
      ensures var most := if 1 <= limit <= 1000 then limit else 1000;
              events <= outbox && |events| == if |outbox| < most then |outbox| else most
    {
      var n := if limit <= 0 || limit > WorkerDb.EVENT_LIMIT then WorkerDb.EVENT_LIMIT else limit;
      events := [];
      while |events| < n && |events| < |outbox|
        invariant |events| <= n && events <= outbox
        decreases |outbox| - |events|
      {
        events := events + [outbox[|events|]];
      }
    }

    /** DELETE FROM outbox WHERE sequence <= through. */
    method Acknowledge(through: nat)
      modifies `outbox
      ensures Value() == WorkerDb.Acknowledge(old(Value()), through)
    {
      if through == 0 {
        return;
      }
      var kept := [];
      var i := |outbox|;
      while i > 0
        invariant 0 <= i <= |outbox| && outbox == old(outbox)
        invariant kept == WorkerDb.DropThrough(outbox[i..], through)
      {
        i := i - 1;
        assert outbox[i..][1..] == outbox[i + 1..];
        if outbox[i].sequence > through {
          kept := [outbox[i]] + kept;
        }
      }
      assert outbox[0..] == outbox;
      outbox := kept;
    }
  }

  class Agent {
    const store: Store
    var session: SessionId

    constructor (store: Store, session: SessionId)
      ensures this.store == store && this.session == session
    {
      this.store := store;
      this.session := session;
    }

    /** Every complete line of a running command's metrics file; false when a line is too long. */
    method IngestMetrics(id: CommandId, decode: Decoder, file: string) returns (ok: bool)
      requires id in store.rows
      modifies store
      ensures (store.Value(), ok) == WorkerDb.IngestMetrics(old(store.Value()), store.self, id, decode, file)
    {
      var offset := store.rows[id].metricOffset;
      var attempt := store.rows[id].attemptId;
      while true
        invariant id in store.rows && store.rows[id].metricOffset == offset && store.rows[id].attemptId == attempt
        invariant WorkerDb.IngestMetrics(old(store.Value()), store.self, id, decode, file) ==
                  WorkerDb.IngestMetrics(store.Value(), store.self, id, decode, file)
        decreases |file| - offset
      {
        var end := LineEnd(file, offset);
        if end.None? {
          return true;
        }
        if end.value - offset > MAX_LINE {
          return false;
        }
        var sample := decode(file[offset..end.value]);
        if sample.None? || sample.value.value.NonFinite? {
          store.SkipMetric(id, end.value);
        } else {
          store.EnqueueMetric(id, attempt, sample.value, end.value);
        }
        offset := end.value;
      }
    }

    /** The request of a cycle: the agent's own session and the oldest events. */
    method BuildRequest(capacity: Capacity) returns (request: SyncRequest)
      ensures request == SyncRequest(store.self, session, capacity, WorkerDb.Events(store.Value(), 1000))
    {
      var events := store.Events(1000);
      request := SyncRequest(store.self, session, capacity, events);
    }

    /** Commands are stored before the events of the request are acknowledged, and only then. */
    method HandleResponse(response: SyncResponse) returns (r: Result<(), Error>)
      modifies store
      ensures match WorkerDb.AcceptCommands(old(store.Value()), store.self, response.commands)
              case Ok(db) => r == Ok(()) && store.Value() == WorkerDb.Acknowledge(db, response.acceptedThrough)
              case Err(e) => r == Err(e) && store.Value() == old(store.Value())
    {
      r := store.AcceptCommands(response.commands);
      if r.Ok? {
        store.Acknowledge(response.acceptedThrough);
      }
    }

    /** Pending commands whose cancellation was requested are finished without ever starting, up to a thousand at a time. */
    method FinishCanceled() returns (r: Result<(), Error>, ghost canceled: seq<CommandId>)
      modifies store
      ensures r == Ok(()) && store.rows.Keys == old(store.rows.Keys)
      ensures Listed(canceled, old(store.rows))
      ensures forall c :: c in store.rows ==>
                store.rows[c] == if c in canceled then old(store.rows)[c].(state := WorkerDb.RowFinished) else old(store.rows)[c]
      ensures |store.outbox| == |old(store.outbox)| + |canceled| && old(store.outbox) <= store.outbox
      ensures forall i :: 0 <= i < |canceled| ==>
                IsCanceledReport(store.outbox[|old(store.outbox)| + i], old(store.rows)[canceled[i]].attemptId)
      ensures |canceled| < COMMAND_LIMIT ==> forall c :: !CanceledPending(store.rows, c)
    {
      var list := store.PendingCanceledCommands();
      canceled := list;
      var i := 0;
      while i < |list|
        invariant 0 <= i <= |list| && store.rows.Keys == old(store.rows.Keys)
        invariant forall c :: c in store.rows ==>
                    store.rows[c] == if c in list[..i] then old(store.rows)[c].(state := WorkerDb.RowFinished) else old(store.rows)[c]
        invariant |store.outbox| == |old(store.outbox)| + i && old(store.outbox) <= store.outbox
        invariant forall k :: 0 <= k < i ==>
                    IsCanceledReport(store.outbox[|old(store.outbox)| + k], old(store.rows)[list[k]].attemptId)
      {
        assert list[i] in list && list[i] !in list[..i];
        r := store.MarkFinished(list[i], -1, "canceled before start", 0, []);
        assert list[..i + 1] == list[..i] + [list[i]];
        i := i + 1;
      }
      assert list[..i] == list;
      NoneLeft(old(store.rows), store.rows, list);
      r := Ok(());
    }

    /** A command either starts, or is recorded as started and failed at once. */
    method Launch(id: CommandId, now: int, failure: Option<string>) returns (r: Result<(), Error>)
      modifies store
      ensures match WorkerDb.MarkStarted(old(store.Value()), store.self, id, now)
              case Err(e) => r == Err(e) && store.Value() == old(store.Value())
              case Ok(started) =>
                && r == Ok(())
                && (failure.None? ==> store.Value() == started)
                && (failure.Some? ==>
                      WorkerDb.MarkFinished(started, store.self, id, -1, failure.value, 0, []) == Ok(store.Value()))
    {
      r := store.MarkStarted(id, now);
      if r.Ok? && failure.Some? {
        r := store.MarkFinished(id, -1, failure.value, 0, []);
      }
    }
  }
}
