/**
 The control plane against the histories of its workers: what it has recorded of a worker is a prefix
 of everything that worker ever enqueued, and every attempt row is where that prefix leaves it.
 */
module Tracking {
  import opened Wrappers
  import opened Domain
  import opened JobSpecs
  import opened ControlPlane
  import opened Lifecycle
  import opened Runs
  import opened Streams

  type Histories = map<WorkerId, seq<WorkerEvent>>

  /** The events recorded for a worker, in the order they were applied, whatever the session. */
  function RecordedBy(log: seq<LogEntry>, worker: WorkerId): seq<WorkerEvent> {
    if |log| == 0 then []
    else
      var e := log[|log| - 1];
      RecordedBy(log[..|log| - 1], worker) + if e.worker == worker then [e.event] else []
  }

  /** The metric rows a log accounts for. */
  function SamplesOf(log: seq<LogEntry>): seq<Sample> {
    if |log| == 0 then []
    else
      var e := log[|log| - 1].event;
      SamplesOf(log[..|log| - 1]) +
      if e.body.EventMetric?
      then [Sample(e.attemptId, e.eventId, e.body.sample)] else []
  }

  /** The n-th event a worker enqueues has sequence n. */
  predicate HistoryOk(worker: WorkerId, history: seq<WorkerEvent>) {
    && (forall i :: 0 <= i < |history| ==> SequencedAt(worker, history, i))
    && StreamOk(history)
  }

  predicate SequencedAt(worker: WorkerId, history: seq<WorkerEvent>, i: int)
    requires 0 <= i < |history|
  {
    history[i].sequence == i + 1 && history[i].eventId == EventId(worker, i + 1)
  }

  /** A worker reports only on attempts that are its own. */
  predicate Owned(s: Server, worker: WorkerId, history: seq<WorkerEvent>) {
    forall i :: 0 <= i < |history| ==> OwnedAt(s, worker, history, i)
  }

  predicate OwnedAt(s: Server, worker: WorkerId, history: seq<WorkerEvent>, i: int)
    requires 0 <= i < |history|
  {
    history[i].attemptId < |s.attempts| && s.attempts[history[i].attemptId].worker == worker
  }

  predicate HistoriesOk(s: Server, h: Histories) {
    forall w :: w in h ==> HistoryOk(w, h[w]) && Owned(s, w, h[w])
  }

  /** The attempt states a phase stands for. */
  predicate Matches(state: AttemptState, phase: Phase) {
    match phase
    case PhaseNone => state.AttemptOffered?
    case PhaseAccepted => state.AttemptAccepted?
    case PhaseRunning => state.AttemptRunning?
    case PhaseDone => !Live(state)
  }

  predicate PrefixRecorded(s: Server, h: Histories) {
    && (forall k :: 0 <= k < |s.log| ==> s.log[k].worker in h)
    && (forall w :: w in h ==> RecordedBy(s.log, w) <= h[w])
  }

  predicate AttemptsTracked(s: Server) {
    forall a :: 0 <= a < |s.attempts| ==> TrackedAt(s, a)
  }

  predicate TrackedAt(s: Server, a: int)
    requires 0 <= a < |s.attempts|
  {
    Matches(s.attempts[a].state, PhaseOf(RecordedBy(s.log, s.attempts[a].worker), a))
  }

  predicate Tracks(s: Server, h: Histories) {
    && PrefixRecorded(s, h) && AttemptsTracked(s)
    && (forall a :: 0 <= a < |s.attempts| ==> s.attempts[a].worker in h)
    && s.samples == SamplesOf(s.log)
  }

  /******* The log and its projections *******/

  lemma {:induction false} EntryPosition(log: seq<LogEntry>, k: nat) returns (p: nat)
    requires k < |log|
    ensures p < |RecordedBy(log, log[k].worker)| && RecordedBy(log, log[k].worker)[p] == log[k].event
  {
    var n := |log| - 1;
    if k == n {
      p := |RecordedBy(log[..n], log[k].worker)|;
    } else {
      p := EntryPosition(log[..n], k);
    }
  }

  lemma {:induction false} PositionEntry(log: seq<LogEntry>, worker: WorkerId, p: nat) returns (k: nat)
    requires p < |RecordedBy(log, worker)|
    ensures k < |log| && log[k].worker == worker && log[k].event == RecordedBy(log, worker)[p]
  {
    var n := |log| - 1;
    if p < |RecordedBy(log[..n], worker)| {
      k := PositionEntry(log[..n], worker, p);
    } else {
      k := n;
    }
  }

  /** The session recorded an event of that sequence. */
  predicate InSession(log: seq<LogEntry>, worker: WorkerId, session: SessionId, sequence: nat) {
    exists k :: 0 <= k < |log| && log[k].worker == worker && log[k].session == session && log[k].event.sequence == sequence
  }

  lemma {:induction false} RecordedAtIsInSession(log: seq<LogEntry>, worker: WorkerId, session: SessionId, sequence: nat)
    ensures RecordedAt(log, worker, session, sequence).Some? <==> InSession(log, worker, session, sequence)
    ensures RecordedAt(log, worker, session, sequence).Some? ==>
              exists k :: 0 <= k < |log| && log[k].worker == worker && log[k].event.sequence == sequence &&
                          log[k].event.eventId == RecordedAt(log, worker, session, sequence).value
  {
    if |log| > 0 {
      var n := |log| - 1;
      var init := log[..n];
      RecordedAtIsInSession(init, worker, session, sequence);
      assert forall k :: 0 <= k < n ==> init[k] == log[k];
      var e := log[n];
      if !(e.worker == worker && e.session == session && e.event.sequence == sequence) {
        if InSession(log, worker, session, sequence) {
          var k :| 0 <= k < |log| && log[k].worker == worker && log[k].session == session && log[k].event.sequence == sequence;
          assert init[k] == log[k];
        }
      }
    }
  }

  /** In a tracked log, a worker's entries are its history's events at their own positions. */
  lemma EntryIsHistory(s: Server, h: Histories, k: nat)
    requires PrefixRecorded(s, h) && HistoriesOk(s, h) && k < |s.log|
    ensures var w := s.log[k].worker;
            var q := s.log[k].event.sequence;
            && 1 <= q <= |RecordedBy(s.log, w)| && s.log[k].event == h[w][q - 1]
            && s.log[k].event.eventId == EventId(w, q)
  {
    var w := s.log[k].worker;
    var p := EntryPosition(s.log, k);
    assert RecordedBy(s.log, w)[p] == h[w][p];
    assert HistoryOk(w, h[w]) && SequencedAt(w, h[w], p);
  }

  /** What the duplicate test decides about the event at position i of a worker's history. */
  lemma DuplicateTest(s: Server, h: Histories, worker: WorkerId, session: SessionId, i: nat)
    requires PrefixRecorded(s, h) && HistoriesOk(s, h) && worker in h && i < |h[worker]|
    ensures HasEventId(s.log, h[worker][i].eventId) <==> i < |RecordedBy(s.log, worker)|
    ensures RecordedAt(s.log, worker, session, i + 1).Some? ==>
              i < |RecordedBy(s.log, worker)| && RecordedAt(s.log, worker, session, i + 1).value == h[worker][i].eventId
    ensures RecordedAt(s.log, worker, session, i + 1).Some? <==> InSession(s.log, worker, session, i + 1)
  {
    RecordedAtIsInSession(s.log, worker, session, i + 1);
    assert HistoryOk(worker, h[worker]) && SequencedAt(worker, h[worker], i);
    if HasEventId(s.log, h[worker][i].eventId) {
      var k :| 0 <= k < |s.log| && s.log[k].event.eventId == h[worker][i].eventId;
      EntryIsHistory(s, h, k);
    }
    if i < |RecordedBy(s.log, worker)| {
      var k := PositionEntry(s.log, worker, i);
      assert s.log[k].event.eventId == h[worker][i].eventId;
    }
    if RecordedAt(s.log, worker, session, i + 1).Some? {
      var id := RecordedAt(s.log, worker, session, i + 1).value;
      var k :| 0 <= k < |s.log| && s.log[k].worker == worker && s.log[k].event.sequence == i + 1 && s.log[k].event.eventId == id;
      EntryIsHistory(s, h, k);
    }
  }

  /******* Recording one event *******/

  /** The checks on an event's contents, which the state guards have no part in. */
  predicate PayloadOk(s: Server, e: WorkerEvent) {
    && e.attemptId < |s.attempts| && s.attempts[e.attemptId].job < |s.jobs|
    && match e.body
       case EventFinished(_, _, logTailLength, artifacts) => logTailLength <= MAX_INLINE && ArtifactsFit(artifacts)
       case EventArtifacts(artifacts) => |artifacts| > 0 && ArtifactsFit(artifacts)
       case EventMetric(sample) =>
         && sample.name != "" && sample.value.Finite?
         && DefinedMetric(s.jobs[s.attempts[e.attemptId].job].spec.metrics, sample.name, sample.value.v)
       case EventUnknown => false
       case _ => true
  }

  /** An attempt's state guard lets through exactly the events its phase allows. */
  lemma GuardsFollowPhase(s: Server, worker: WorkerId, e: WorkerEvent, phase: Phase)
    requires e.attemptId < |s.attempts| && s.attempts[e.attemptId].worker == worker
    requires s.attempts[e.attemptId].job < |s.jobs|
    requires Matches(s.attempts[e.attemptId].state, phase) && Advance(phase, e.body).Some?
    ensures ApplyWorkerEvent(s, worker, e).Ok? <==> PayloadOk(s, e)
  {
  }

  /** The attempt of a worker's next event is its own, in the phase the recorded prefix leaves it in. */
  lemma NextEventIsAllowed(s: Server, h: Histories, worker: WorkerId)
    requires Numbered(s) && Tracks(s, h) && HistoriesOk(s, h) && worker in h
    requires |RecordedBy(s.log, worker)| < |h[worker]|
    ensures var n := |RecordedBy(s.log, worker)|;
            var e := h[worker][n];
            var phase := PhaseOf(RecordedBy(s.log, worker), e.attemptId);
            && e.attemptId < |s.attempts| && s.attempts[e.attemptId].worker == worker
            && s.attempts[e.attemptId].job < |s.jobs|
            && Matches(s.attempts[e.attemptId].state, phase) && Advance(phase, e.body).Some?
            && h[worker][..n] == RecordedBy(s.log, worker)
            && h[worker][..n + 1] == RecordedBy(s.log, worker) + [e]
            && e.sequence == n + 1
  {
    var recorded := RecordedBy(s.log, worker);
    var n := |recorded|;
    assert HistoryOk(worker, h[worker]) && Owned(s, worker, h[worker]);
    assert SequencedAt(worker, h[worker], n) && OwnedAt(s, worker, h[worker], n) && AllowedAt(h[worker], n);
    assert recorded <= h[worker];
    assert h[worker][..n] == recorded;
    assert TrackedAt(s, h[worker][n].attemptId);
  }

  /** After the next event has been applied, its attempt is where the longer prefix leaves it. */
  lemma AppliedMatches(s: Server, worker: WorkerId, e: WorkerEvent, phase: Phase)
    requires ApplyWorkerEvent(s, worker, e).Ok?
    requires Matches(s.attempts[e.attemptId].state, phase) && Advance(phase, e.body).Some?
    ensures var t := ApplyWorkerEvent(s, worker, e).value;
            && |t.attempts| == |s.attempts|
            && Matches(t.attempts[e.attemptId].state, Advance(phase, e.body).value)
            && (forall a :: 0 <= a < |s.attempts| && a != e.attemptId ==> t.attempts[a] == s.attempts[a])
            && t.attempts[e.attemptId].worker == worker
            && t.log == s.log
            && t.samples == s.samples +
               if e.body.EventMetric?
               then [Sample(e.attemptId, e.eventId, e.body.sample)] else []
  {
  }

  lemma RecordedByAppend(log: seq<LogEntry>, entry: LogEntry)
    ensures RecordedBy(log + [entry], entry.worker) == RecordedBy(log, entry.worker) + [entry.event]
    ensures forall w: nat :: w != entry.worker ==> RecordedBy(log + [entry], w) == RecordedBy(log, w)
    ensures SamplesOf(log + [entry]) == SamplesOf(log) +
            if entry.event.body.EventMetric?
            then [Sample(entry.event.attemptId, entry.event.eventId, entry.event.body.sample)] else []
  {
    assert (log + [entry])[..|log|] == log;
  }

  lemma TrackedStep(s: Server, t: Server, worker: WorkerId, e: WorkerEvent)
    requires AttemptsTracked(s) && |t.attempts| == |s.attempts|
    requires RecordedBy(t.log, worker) == RecordedBy(s.log, worker) + [e]
    requires forall w: nat :: w != worker ==> RecordedBy(t.log, w) == RecordedBy(s.log, w)
    requires e.attemptId < |s.attempts| && t.attempts[e.attemptId].worker == worker
    requires forall a :: 0 <= a < |s.attempts| && a != e.attemptId ==> t.attempts[a] == s.attempts[a]
    requires Advance(PhaseOf(RecordedBy(s.log, worker), e.attemptId), e.body).Some?
    requires Matches(t.attempts[e.attemptId].state, Advance(PhaseOf(RecordedBy(s.log, worker), e.attemptId), e.body).value)
    ensures AttemptsTracked(t)
  {
    forall a | 0 <= a < |t.attempts|
      ensures TrackedAt(t, a)
    {
      assert TrackedAt(s, a) || a == e.attemptId;
      AppendEvent(RecordedBy(s.log, worker), e, a);
    }
  }

  lemma PrefixStep(s: Server, t: Server, h: Histories, worker: WorkerId, entry: LogEntry)
    requires PrefixRecorded(s, h) && worker in h && t.log == s.log + [entry] && entry.worker == worker
    requires |RecordedBy(s.log, worker)| < |h[worker]| && entry.event == h[worker][|RecordedBy(s.log, worker)|]
    ensures PrefixRecorded(t, h)
  {
    RecordedByAppend(s.log, entry);
  }

  lemma NextEventTracks(s: Server, h: Histories, worker: WorkerId, session: SessionId)
    requires Numbered(s) && Tracks(s, h) && HistoriesOk(s, h) && worker in h
    requires |RecordedBy(s.log, worker)| < |h[worker]|
    requires PayloadOk(s, h[worker][|RecordedBy(s.log, worker)|])
    ensures var n := |RecordedBy(s.log, worker)|;
            var e := h[worker][n];
            var logged := s.(log := s.log + [LogEntry(worker, session, e)]);
            ApplyWorkerEvent(logged, worker, e).Ok? &&
            var t := ApplyWorkerEvent(logged, worker, e).value;
            && Tracks(t, h) && t.log == logged.log
            && RecordedBy(t.log, worker) == h[worker][..n + 1]
            && (forall w: nat :: w != worker ==> RecordedBy(t.log, w) == RecordedBy(s.log, w))
  {
    var n := |RecordedBy(s.log, worker)|;
    var e := h[worker][n];
    var entry := LogEntry(worker, session, e);
    var logged := s.(log := s.log + [entry]);
    var phase := PhaseOf(RecordedBy(s.log, worker), e.attemptId);
    NextEventIsAllowed(s, h, worker);
    GuardsFollowPhase(logged, worker, e, phase);
    AppliedMatches(logged, worker, e, phase);
    var t := ApplyWorkerEvent(logged, worker, e).value;
    RecordedByAppend(s.log, entry);
    TrackedStep(s, t, worker, e);
    PrefixStep(s, t, h, worker, entry);
  }

  /** An event recorded before is accepted exactly when this session recorded it, and changes nothing. */
  lemma RecordOld(s: Server, h: Histories, worker: WorkerId, session: SessionId, i: nat)
    requires PrefixRecorded(s, h) && HistoriesOk(s, h) && worker in h && i < |h[worker]|
    requires i < |RecordedBy(s.log, worker)|
    ensures var r := RecordWorkerEvent(s, worker, session, h[worker][i]);
            (r.Ok? <==> InSession(s.log, worker, session, i + 1)) && (r.Ok? ==> r.value == s)
  {
    DuplicateTest(s, h, worker, session, i);
    assert HistoryOk(worker, h[worker]) && SequencedAt(worker, h[worker], i);
  }

  /** The next event is accepted exactly when its contents pass, and extends the recorded prefix by one. */
  lemma RecordNext(s: Server, h: Histories, worker: WorkerId, session: SessionId)
    requires Inv(s) && Tracks(s, h) && HistoriesOk(s, h) && worker in h
    requires |RecordedBy(s.log, worker)| < |h[worker]|
    ensures var n := |RecordedBy(s.log, worker)|;
            var r := RecordWorkerEvent(s, worker, session, h[worker][n]);
            && (r.Ok? <==> PayloadOk(s, h[worker][n]))
            && (r.Ok? ==>
                  && Inv(r.value) && Evolves(s, r.value) && Tracks(r.value, h)
                  && r.value.log == s.log + [LogEntry(worker, session, h[worker][n])]
                  && RecordedBy(r.value.log, worker) == h[worker][..n + 1]
                  && (forall w: nat :: w != worker ==> RecordedBy(r.value.log, w) == RecordedBy(s.log, w)))
  {
    var n := |RecordedBy(s.log, worker)|;
    var e := h[worker][n];
    DuplicateTest(s, h, worker, session, n);
    NextEventIsAllowed(s, h, worker);
    var logged := s.(log := s.log + [LogEntry(worker, session, e)]);
    assert RecordWorkerEvent(s, worker, session, e) == ApplyWorkerEvent(logged, worker, e);
    GuardsFollowPhase(logged, worker, e, PhaseOf(RecordedBy(s.log, worker), e.attemptId));
    if PayloadOk(s, e) {
      NextEventTracks(s, h, worker, session);
      RecordPreserves(s, worker, session, e);
    }
  }
}
