/** What each transaction of the worker does to its rows and its outbox, field by field. */
module WorkerEffects {
  import opened Wrappers
  import opened Domain
  import opened MetricFile
  import opened WorkerDb

  /******* Commands *******/

  /** A cancel marks the unfinished rows of its attempt; every other row, and the outbox, is as it was. */
  lemma CancelEffect(db: Db, self: WorkerId, attempt: AttemptId)
    ensures var r := AcceptCommand(db, self, CancelAttempt(attempt));
            && r.Ok? && r.value.rows.Keys == db.rows.Keys && r.value.outbox == db.outbox && r.value.last == db.last
            && forall c :: c in db.rows ==>
                 r.value.rows[c] ==
                 if db.rows[c].attemptId == attempt && db.rows[c].state != RowFinished then db.rows[c].(cancelRequested := true)
                 else db.rows[c]
  {
  }

  /** A run command the worker does not know brings an unmarked pending row and its acceptance. */
  lemma NewCommandEffect(db: Db, self: WorkerId, command: WorkerCommand)
    requires command.RunJob? && command.commandId !in db.rows
    requires forall c :: c in db.rows ==> db.rows[c].attemptId != command.attemptId
    ensures AcceptCommand(db, self, command) ==
            Ok(Db(db.rows[command.commandId := Row(command.attemptId, command, RowPending, false, 0)],
                  db.outbox + [WorkerEvent(db.last + 1, EventId(self, db.last + 1), command.attemptId, EventAccepted)],
                  db.last + 1))
  {
  }

  /** One it knows changes nothing, if it is the same. */
  lemma KnownCommandEffect(db: Db, self: WorkerId, command: WorkerCommand)
    requires command.RunJob? && command.commandId in db.rows
    ensures AcceptCommand(db, self, command) == if db.rows[command.commandId].command == command then Ok(db) else Err(CommandChanged)
  {
  }

  predicate Marked(rows: map<CommandId, Row>, c: CommandId) {
    c in rows && rows[c].cancelRequested
  }

  /** Some cancel of the list names the attempt. */
  predicate Named(commands: seq<WorkerCommand>, attempt: AttemptId) {
    exists k :: 0 <= k < |commands| && commands[k] == CancelAttempt(attempt)
  }

  /** The row is as it was but for the mark, which is new only if a cancel named its attempt. */
  predicate MarkedAsNamed(before: map<CommandId, Row>, after: map<CommandId, Row>, commands: seq<WorkerCommand>, c: CommandId)
    requires c in after
  {
    && (Marked(after, c) ==> Marked(before, c) || Named(commands, after[c].attemptId))
    && (c in before ==> after[c] == before[c] || after[c] == before[c].(cancelRequested := true))
    && (c !in before ==> after[c].state == RowPending && after[c].metricOffset == 0)
  }

  lemma OneMarksAsNamed(db: Db, self: WorkerId, command: WorkerCommand, c: CommandId)
    requires AcceptCommand(db, self, command).Ok? && c in AcceptCommand(db, self, command).value.rows
    ensures MarkedAsNamed(db.rows, AcceptCommand(db, self, command).value.rows, [command], c)
    ensures c in db.rows ==> AcceptCommand(db, self, command).value.rows[c].attemptId == db.rows[c].attemptId
  {
    if command.CancelAttempt? {
      assert [command][0] == CancelAttempt(command.attemptId);
    }
  }

  /**
   Accepting a response: whatever else it holds, a row is newly marked only if some cancel in it names the row's
   own attempt, and no known row changes in any other way.
   */
  lemma {:induction false} OnlyNamedAreMarked(db: Db, self: WorkerId, commands: seq<WorkerCommand>, c: CommandId)
    requires AcceptCommands(db, self, commands).Ok? && c in AcceptCommands(db, self, commands).value.rows
    ensures c in db.rows ==> AcceptCommands(db, self, commands).value.rows[c].attemptId == db.rows[c].attemptId
    ensures MarkedAsNamed(db.rows, AcceptCommands(db, self, commands).value.rows, commands, c)
    decreases |commands|
  {
    if |commands| > 0 {
      var mid := AcceptCommand(db, self, commands[0]).value;
      OnlyNamedAreMarked(mid, self, commands[1..], c);
      var attempt := AcceptCommands(db, self, commands).value.rows[c].attemptId;
      NamedByParts(commands, attempt);
      if c in mid.rows {
        OneMarksAsNamed(db, self, commands[0], c);
      } else {
        RowsRemain(db, self, commands[0], c);
      }
    }
  }

  lemma NamedByParts(commands: seq<WorkerCommand>, attempt: AttemptId)
    requires |commands| > 0
    ensures Named(commands, attempt) <==> Named([commands[0]], attempt) || Named(commands[1..], attempt)
  {
    assert [commands[0]][0] == commands[0];
    assert forall k :: 0 <= k < |commands[1..]| ==> commands[1..][k] == commands[k + 1];
    if k :| 0 <= k < |commands| && commands[k] == CancelAttempt(attempt) {
      assert k > 0 ==> commands[1..][k - 1] == CancelAttempt(attempt);
    }
  }

  lemma RowsRemain(db: Db, self: WorkerId, command: WorkerCommand, c: CommandId)
    requires AcceptCommand(db, self, command).Ok? && c !in AcceptCommand(db, self, command).value.rows
    ensures c !in db.rows
  {
  }

  /******* Reports *******/

  /** One row changed, and one event with the next sequence joined the outbox. */
  predicate Reports(db: Db, after: Db, self: WorkerId, c: CommandId, row: Row, attempt: AttemptId, body: EventBody) {
    after == Db(db.rows[c := row], db.outbox + [WorkerEvent(db.last + 1, EventId(self, db.last + 1), attempt, body)], db.last + 1)
  }

  /** A pending command starts, and its report carries the time. */
  lemma StartEffect(db: Db, self: WorkerId, c: CommandId, now: int)
    ensures var r := MarkStarted(db, self, c, now);
            if c in db.rows && db.rows[c].state == RowPending
            then r.Ok? && Reports(db, r.value, self, c, db.rows[c].(state := RowRunning), db.rows[c].attemptId, EventStarted(now))
            else r.Err?
  {
  }

  /** An unfinished command finishes, and its report carries exactly what the process returned. */
  lemma FinishEffect(db: Db, self: WorkerId, c: CommandId, exitCode: int, error: string, tail: nat, artifacts: seq<Artifact>)
    ensures var r := MarkFinished(db, self, c, exitCode, error, tail, artifacts);
            if c in db.rows && db.rows[c].state != RowFinished
            then r.Ok? && Reports(db, r.value, self, c, db.rows[c].(state := RowFinished), db.rows[c].attemptId,
                                  EventFinished(Some(exitCode), error, tail, artifacts))
            else r.Err?
  {
  }

  lemma AnnounceEffect(db: Db, self: WorkerId, c: CommandId, artifacts: seq<Artifact>)
    ensures var r := AnnounceArtifacts(db, self, c, artifacts);
            if |artifacts| == 0 then r == Ok(db)
            else if c in db.rows && db.rows[c].state == RowRunning
            then r.Ok? && Reports(db, r.value, self, c, db.rows[c], db.rows[c].attemptId, EventArtifacts(artifacts))
            else r.Err?
  {
    if c in db.rows {
      assert db.rows[c := db.rows[c]] == db.rows;
    }
  }

  lemma MetricEffect(db: Db, self: WorkerId, c: CommandId, sample: MetricSample, offset: nat)
    requires c in db.rows
    ensures Reports(db, EnqueueMetric(db, self, c, db.rows[c].attemptId, sample, offset), self, c,
                    db.rows[c].(metricOffset := offset), db.rows[c].attemptId, EventMetric(sample))
  {
  }
}
