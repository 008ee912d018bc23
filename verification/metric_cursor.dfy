/**
 Polling a job's metric series with a cursor, while jobs are submitted, offered, canceled and reported on.
 Rows are numbered from 1 in commit order, over all jobs.
 */
module MetricCursor {
  import opened Wrappers
  import opened Domain
  import opened ControlPlane
  import opened Lifecycle
  import opened Runs
  import opened Scheduler

  datatype Point = Point(name: string, attempt: nat, step: Option<int>, value: Value, observedAt: int)

  /** The join of one row with its attempt. */
  predicate OfJob(s: Server, job: JobId, row: int)
    requires 0 <= row < |s.samples|
  {
    s.samples[row].attempt < |s.attempts| && s.attempts[s.samples[row].attempt].job == job
  }

  function PointAt(s: Server, row: int): Point
    requires 0 <= row < |s.samples| && s.samples[row].attempt < |s.attempts|
  {
    var m := s.samples[row];
    Point(m.sample.name, s.attempts[m.attempt].number, m.sample.step, m.sample.value, m.sample.observedAt)
  }

  /** The job's points on the rows after `lo` and up to `hi`, in commit order. */
  function PointsOf(s: Server, job: JobId, lo: nat, hi: nat): seq<Point>
    requires hi <= |s.samples|
    decreases hi
  {
    if hi <= lo then []
    else PointsOf(s, job, lo, hi - 1) + if OfJob(s, job, hi - 1) then [PointAt(s, hi - 1)] else []
  }

  /** The job's last row after `after`, or `after` itself. */
  function LastRow(s: Server, job: JobId, after: nat, hi: nat): nat
    requires hi <= |s.samples|
    decreases hi
  {
    if hi <= after then after
    else if OfJob(s, job, hi - 1) then hi
    else LastRow(s, job, after, hi - 1)
  }

  /** One poll: the row loop appends points and overwrites the cursor. */
  method ListJobMetricPoints(s: Server, job: JobId, after: nat) returns (points: seq<Point>, cursor: nat)
    ensures points == PointsOf(s, job, after, |s.samples|)
    ensures cursor == LastRow(s, job, after, |s.samples|)
  {
    points, cursor := [], after;
    var row := after;
    if row > |s.samples| {
      row := |s.samples|;
    }
    while row < |s.samples|
      invariant row <= |s.samples|
      invariant points == PointsOf(s, job, after, row)
      invariant cursor == LastRow(s, job, after, row)
      invariant after <= |s.samples| ==> after <= row
    {
      if OfJob(s, job, row) {
        cursor := row + 1;
        points := points + [PointAt(s, row)];
      }
      row := row + 1;
    }
  }

  /** The row is a sample of an attempt of the job, and the point is what it says. */
  predicate Shows(s: Server, job: JobId, row: int, point: Point) {
    && 0 <= row < |s.samples| && s.samples[row].attempt < |s.attempts|
    && var attempt, sample := s.attempts[s.samples[row].attempt], s.samples[row].sample;
       && attempt.job == job
       && point == Point(sample.name, attempt.number, sample.step, sample.value, sample.observedAt)
  }

  predicate SampledFor(s: Server, job: JobId, row: int) {
    0 <= row < |s.samples| && s.samples[row].attempt < |s.attempts| && s.attempts[s.samples[row].attempt].job == job
  }

  /** The rows of the range that are samples of the job's attempts, in row order. */
  function RowsFor(s: Server, job: JobId, lo: nat, hi: nat): seq<nat>
    decreases hi
  {
    if hi <= lo then []
    else RowsFor(s, job, lo, hi - 1) + if SampledFor(s, job, hi - 1) then [hi - 1] else []
  }

  lemma {:induction false} RowsAreExact(s: Server, job: JobId, lo: nat, hi: nat)
    ensures forall row :: row in RowsFor(s, job, lo, hi) <==> lo <= row < hi && SampledFor(s, job, row)
    ensures forall i, k :: 0 <= i < k < |RowsFor(s, job, lo, hi)| ==> RowsFor(s, job, lo, hi)[i] < RowsFor(s, job, lo, hi)[k]
    decreases hi
  {
    hide SampledFor;
    if lo < hi {
      RowsAreExact(s, job, lo, hi - 1);
      var before := RowsFor(s, job, lo, hi - 1);
      assert forall i :: 0 <= i < |before| ==> before[i] in before;
    }
  }

  /** A read shows, in row order and once each, exactly the rows of the range that are samples of the job's attempts. */
  lemma {:induction false} PointsAreRows(s: Server, job: JobId, lo: nat, hi: nat)
    requires hi <= |s.samples|
    ensures |PointsOf(s, job, lo, hi)| == |RowsFor(s, job, lo, hi)|
    ensures forall k :: 0 <= k < |RowsFor(s, job, lo, hi)| ==> Shows(s, job, RowsFor(s, job, lo, hi)[k], PointsOf(s, job, lo, hi)[k])
    decreases hi
  {
    if lo < hi {
      PointsAreRows(s, job, lo, hi - 1);
      OneRow(s, job, hi - 1);
    }
  }

  lemma OneRow(s: Server, job: JobId, row: nat)
    requires row < |s.samples|
    ensures OfJob(s, job, row) <==> SampledFor(s, job, row)
    ensures OfJob(s, job, row) ==> Shows(s, job, row, PointAt(s, row))
  {
  }

  lemma {:induction false} PointsSplit(s: Server, job: JobId, lo: nat, mid: nat, hi: nat)
    requires lo <= mid <= hi <= |s.samples|
    ensures PointsOf(s, job, lo, mid) + PointsOf(s, job, mid, hi) == PointsOf(s, job, lo, hi)
    decreases hi
  {
    if mid < hi {
      PointsSplit(s, job, lo, mid, hi - 1);
    }
  }

  /** The cursor a poll returns leaves none of the job's rows behind. */
  lemma {:induction false} NothingAfterCursor(s: Server, job: JobId, after: nat, hi: nat)
    requires after <= hi <= |s.samples|
    ensures after <= LastRow(s, job, after, hi) <= hi
    ensures PointsOf(s, job, LastRow(s, job, after, hi), hi) == []
    ensures PointsOf(s, job, after, LastRow(s, job, after, hi)) == PointsOf(s, job, after, hi)
    decreases hi
  {
    if after < hi && !OfJob(s, job, hi - 1) {
      NothingAfterCursor(s, job, after, hi - 1);
    }
  }

  /******* The tables under a poll *******/

  /** Every sample belongs to an attempt. */
  predicate SamplesHeld(s: Server) {
    forall k :: 0 <= k < |s.samples| ==> s.samples[k].attempt < |s.attempts|
  }

  lemma {:induction false} RecordAllKeepsSamples(s: Server, worker: WorkerId, session: SessionId, events: seq<WorkerEvent>)
    requires SamplesHeld(s) && RecordAll(s, worker, session, events).Ok?
    ensures var t := RecordAll(s, worker, session, events).value; SamplesHeld(t) && s.samples <= t.samples
    decreases |events|
  {
    if |events| > 0 {
      var one := RecordWorkerEvent(s, worker, session, events[0]).value;
      assert SamplesHeld(one) && s.samples <= one.samples;
      RecordAllKeepsSamples(one, worker, session, events[1..]);
    }
  }

  lemma DoKeepsSamples(s: Server, op: Op)
    requires Inv(s) && SamplesHeld(s)
    ensures SamplesHeld(Do(s, op)) && s.samples <= Do(s, op).samples
  {
    DoPreserves(s, op);
    if op.Sync? {
      var r := op.request;
      var recorded := RecordAll(s, r.worker, r.session, r.events);
      if r.worker in s.workers && recorded.Ok? {
        var m := recorded.value;
        RecordAllKeepsSamples(s, r.worker, r.session, r.events);
        RecordAllPreserves(s, r.worker, r.session, r.events);
        OfferJobsPreserves(m, r.worker, r.capacity);
        OfferFromKeepsKeys(m, r.worker, Normalize(r.capacity), CurrentAllocation(m, r.worker), Candidates(m));
      }
    }
  }

  /** Rows already there keep their points. */
  lemma {:induction false} PointsStay(s: Server, t: Server, job: JobId, lo: nat, hi: nat)
    requires Evolves(s, t) && SamplesHeld(s) && s.samples <= t.samples && hi <= |s.samples|
    ensures PointsOf(t, job, lo, hi) == PointsOf(s, job, lo, hi)
    decreases hi
  {
    if lo < hi {
      PointsStay(s, t, job, lo, hi - 1);
      assert AttemptEvolvesAt(s, t, s.samples[hi - 1].attempt);
    }
  }

  /******* A page that polls while the system runs *******/

  datatype Turn = Operate(op: Op) | Poll
  datatype Watch = Watch(server: Server, cursor: nat, seen: seq<Point>)

  function Turned(watch: Watch, job: JobId, turn: Turn): Watch {
    match turn
    case Operate(op) => watch.(server := Do(watch.server, op))
    case Poll =>
      var s := watch.server;
      Watch(s, LastRow(s, job, watch.cursor, |s.samples|), watch.seen + PointsOf(s, job, watch.cursor, |s.samples|))
  }

  function Watched(watch: Watch, job: JobId, turns: seq<Turn>): Watch
    decreases |turns|
  {
    if |turns| == 0 then watch else Watched(Turned(watch, job, turns[0]), job, turns[1..])
  }

  /** What was seen so far is what a full read shows up to the cursor. */
  predicate WatchOk(watch: Watch, job: JobId) {
    && Inv(watch.server) && SamplesHeld(watch.server)
    && watch.cursor <= |watch.server.samples|
    && watch.seen == PointsOf(watch.server, job, 0, watch.cursor)
  }

  lemma TurnKeepsWatch(watch: Watch, job: JobId, turn: Turn)
    requires WatchOk(watch, job)
    ensures WatchOk(Turned(watch, job, turn), job)
  {
    var s := watch.server;
    match turn
    case Operate(op) =>
      DoPreserves(s, op);
      DoKeepsSamples(s, op);
      PointsStay(s, Do(s, op), job, 0, watch.cursor);
    case Poll =>
      NothingAfterCursor(s, job, watch.cursor, |s.samples|);
      PointsSplit(s, job, 0, watch.cursor, LastRow(s, job, watch.cursor, |s.samples|));
  }

  lemma {:induction false} TurnsKeepWatch(watch: Watch, job: JobId, turns: seq<Turn>)
    requires WatchOk(watch, job)
    ensures WatchOk(Watched(watch, job, turns), job)
    decreases |turns|
  {
    if |turns| > 0 {
      TurnKeepsWatch(watch, job, turns[0]);
      TurnsKeepWatch(Turned(watch, job, turns[0]), job, turns[1..]);
    }
  }

  /**
   However operations and polls interleave, what the polls returned, put together, is the full read up to
   the last cursor; and one more poll completes it to the full read, with no gap and no repeat.
   */
  lemma PollingIsTheFullRead(job: JobId, turns: seq<Turn>)
    ensures var watch := Watched(Watch(EMPTY, 0, []), job, turns);
            var rows := |watch.server.samples|;
            && watch.cursor <= rows
            && watch.seen == PointsOf(watch.server, job, 0, watch.cursor)
            && watch.seen + PointsOf(watch.server, job, watch.cursor, rows) == PointsOf(watch.server, job, 0, rows)
  {
    EmptyInv();
    TurnsKeepWatch(Watch(EMPTY, 0, []), job, turns);
    var watch := Watched(Watch(EMPTY, 0, []), job, turns);
    PointsSplit(watch.server, job, 0, watch.cursor, |watch.server.samples|);
  }
}
