/** The worker's durable inbox and outbox and their transactions, as functions from one state to the next. */
module WorkerDb {
  import opened Wrappers
  import opened Domain
  import opened MetricFile

  datatype RowState = RowPending | RowRunning | RowFinished

  /** A row of the commands table. */
  datatype Row = Row(attemptId: AttemptId, command: WorkerCommand, state: RowState, cancelRequested: bool, metricOffset: nat)

  /** `last` is the largest sequence ever used; sequences are never reused. */
  datatype Db = Db(rows: map<CommandId, Row>, outbox: seq<WorkerEvent>, last: nat)

  const FRESH := Db(map[], [], 0)

  datatype Error = CommandChanged | NoDuplicateRow | NotPending | NotUnfinished | NotRunning

  const EVENT_LIMIT := 1000

  predicate Unfinished(row: Row) {
    !row.state.RowFinished?
  }

  function Enqueue(db: Db, self: WorkerId, attempt: AttemptId, body: EventBody): Db {
    var n := db.last + 1;
    db.(outbox := db.outbox + [WorkerEvent(n, EventId(self, n), attempt, body)], last := n)
  }

  predicate HasAttempt(rows: map<CommandId, Row>, attempt: AttemptId) {
    exists c :: c in rows && rows[c].attemptId == attempt
  }

  /** Mark the unfinished command of an attempt; repeats and unknown attempts change nothing. */
  function MarkCanceled(rows: map<CommandId, Row>, attempt: AttemptId): map<CommandId, Row> {
    map c | c in rows ::
      if rows[c].attemptId == attempt && Unfinished(rows[c]) then rows[c].(cancelRequested := true) else rows[c]
  }

  function AcceptCommand(db: Db, self: WorkerId, command: WorkerCommand): Result<Db, Error> {
    match command
    case UnknownCommand => Ok(db)
    case CancelAttempt(attempt) => Ok(db.(rows := MarkCanceled(db.rows, attempt)))
    case RunJob(id, attempt, _, _, _, _, _) =>
      if id in db.rows || HasAttempt(db.rows, attempt) then
        if id !in db.rows then Err(NoDuplicateRow)
        else if db.rows[id].command != command then Err(CommandChanged)
        else Ok(db)
      else
        Ok(Enqueue(db.(rows := db.rows[id := Row(attempt, command, RowPending, false, 0)]), self, attempt, EventAccepted))
  }

  function AcceptCommands(db: Db, self: WorkerId, commands: seq<WorkerCommand>): Result<Db, Error>
    decreases |commands|
  {
    if |commands| == 0 then Ok(db)
    else
      var next :- AcceptCommand(db, self, commands[0]);
      AcceptCommands(next, self, commands[1..])
  }

  function MarkStarted(db: Db, self: WorkerId, id: CommandId, now: int): Result<Db, Error> {
    if id !in db.rows || !db.rows[id].state.RowPending? then Err(NotPending)
    else Ok(Enqueue(db.(rows := db.rows[id := db.rows[id].(state := RowRunning)]), self, db.rows[id].attemptId, EventStarted(now)))
  }

  function MarkFinished(db: Db, self: WorkerId, id: CommandId, exitCode: int, error: string, logTailLength: nat, artifacts: seq<Artifact>): Result<Db, Error> {
    if id !in db.rows || !Unfinished(db.rows[id]) then Err(NotUnfinished)
    else
      Ok(Enqueue(db.(rows := db.rows[id := db.rows[id].(state := RowFinished)]), self, db.rows[id].attemptId,
                 EventFinished(Some(exitCode), error, logTailLength, artifacts)))
  }

  function AnnounceArtifacts(db: Db, self: WorkerId, id: CommandId, artifacts: seq<Artifact>): Result<Db, Error> {
    if |artifacts| == 0 then Ok(db)
    else if id !in db.rows || !db.rows[id].state.RowRunning? then Err(NotRunning)
    else Ok(Enqueue(db, self, db.rows[id].attemptId, EventArtifacts(artifacts)))
  }

  function SetOffset(rows: map<CommandId, Row>, id: CommandId, offset: nat): map<CommandId, Row> {
    if id in rows then rows[id := rows[id].(metricOffset := offset)] else rows
  }

  function SkipMetric(db: Db, id: CommandId, offset: nat): Db {
    db.(rows := SetOffset(db.rows, id, offset))
  }

  /** The sample and the offset behind it are stored together. */
  function EnqueueMetric(db: Db, self: WorkerId, id: CommandId, attempt: AttemptId, sample: MetricSample, offset: nat): Db {
    var queued := Enqueue(db, self, attempt, EventMetric(sample));
    queued.(rows := SetOffset(queued.rows, id, offset))
  }

  /** The oldest events, at most a thousand. */
  function Events(db: Db, limit: int): seq<WorkerEvent> {
    var n := if limit <= 0 || limit > EVENT_LIMIT then EVENT_LIMIT else limit;
    if |db.outbox| <= n then db.outbox else db.outbox[..n]
  }

  function DropThrough(outbox: seq<WorkerEvent>, through: nat): seq<WorkerEvent>
    decreases |outbox|
  {
    if |outbox| == 0 then []
    else (if outbox[0].sequence <= through then [] else [outbox[0]]) + DropThrough(outbox[1..], through)
  }

  function Acknowledge(db: Db, through: nat): Db {
    if through == 0 then db else db.(outbox := DropThrough(db.outbox, through))
  }

  /** One line of a running command's metrics file. */
  function IngestLine(db: Db, self: WorkerId, id: CommandId, decode: Decoder, file: string): Db
    requires id in db.rows
  {
    match ReadLine(decode, file, db.rows[id].metricOffset)
    case Skip(next) => SkipMetric(db, id, next)
    case Take(sample, next) => EnqueueMetric(db, self, id, db.rows[id].attemptId, sample, next)
    case _ => db
  }

  /** All complete lines; stops, keeping what was stored, at a line that is too long. */
  function IngestMetrics(db: Db, self: WorkerId, id: CommandId, decode: Decoder, file: string): (Db, bool)
    requires id in db.rows
    decreases |file| - db.rows[id].metricOffset
  {
    match ReadLine(decode, file, db.rows[id].metricOffset)
    case Wait => (db, true)
    case TooLong => (db, false)
    case Skip(next) => IngestMetrics(SkipMetric(db, id, next), self, id, decode, file)
    case Take(sample, next) =>
      IngestMetrics(EnqueueMetric(db, self, id, db.rows[id].attemptId, sample, next), self, id, decode, file)
  }
}
