/**
 One sync transaction against the histories: which batches it accepts, what it records, and what the
 response may say.
 */
module Exchange {
  import opened Wrappers
  import opened Domain
  import opened JobSpecs
  import opened Scheduler
  import opened ControlPlane
  import opened Lifecycle
  import opened Runs
  import opened Streams
  import opened Tracking

  /******* A batch of consecutive events *******/

  /** Whether the event at position k of a worker's history would be accepted in this session. */
  predicate Acceptable(s: Server, worker: WorkerId, session: SessionId, history: seq<WorkerEvent>, k: nat)
    requires k < |history|
  {
    if k < |RecordedBy(s.log, worker)| then InSession(s.log, worker, session, k + 1) else PayloadOk(s, history[k])
  }

  predicate BatchAcceptable(s: Server, worker: WorkerId, session: SessionId, history: seq<WorkerEvent>, i: nat, j: nat)
    requires i <= j <= |history|
  {
    forall k :: i <= k < j ==> Acceptable(s, worker, session, history, k)
  }

  lemma PayloadStable(s: Server, t: Server, e: WorkerEvent)
    requires Numbered(s) && Evolves(s, t) && e.attemptId < |s.attempts|
    ensures PayloadOk(t, e) <==> PayloadOk(s, e)
  {
    assert AttemptEvolvesAt(s, t, e.attemptId);
    assert JobEvolvesAt(s, t, s.attempts[e.attemptId].job);
  }

  lemma OwnedStays(s: Server, t: Server, h: Histories)
    requires HistoriesOk(s, h) && Evolves(s, t)
    ensures HistoriesOk(t, h)
  {
    forall w | w in h ensures Owned(t, w, h[w]) {
      forall i | 0 <= i < |h[w]| ensures OwnedAt(t, w, h[w], i) {
        assert Owned(s, w, h[w]) && OwnedAt(s, w, h[w], i);
        assert AttemptEvolvesAt(s, t, h[w][i].attemptId);
      }
    }
  }

  /** Every event of the batch is recorded in this session. */
  predicate AllInSession(log: seq<LogEntry>, worker: WorkerId, session: SessionId, i: nat, j: nat) {
    forall q :: i < q <= j ==> InSession(log, worker, session, q)
  }

  lemma InSessionPersists(log: seq<LogEntry>, longer: seq<LogEntry>, worker: WorkerId, session: SessionId, sequence: nat)
    requires log <= longer && InSession(log, worker, session, sequence)
    ensures InSession(longer, worker, session, sequence)
  {
    var k :| 0 <= k < |log| && log[k].worker == worker && log[k].session == session && log[k].event.sequence == sequence;
    assert longer[k] == log[k];
  }

  /** Recording the event after the recorded prefix leaves the verdict on all later events as it was. */
  lemma LaterVerdictsStand(s: Server, t: Server, h: Histories, worker: WorkerId, session: SessionId, j: nat)
    requires Inv(s) && HistoriesOk(s, h) && worker in h && Evolves(s, t)
    requires var n := |RecordedBy(s.log, worker)|; n < j <= |h[worker]| && |RecordedBy(t.log, worker)| == n + 1
    ensures var n := |RecordedBy(s.log, worker)|;
            BatchAcceptable(t, worker, session, h[worker], n + 1, j) <==>
            BatchAcceptable(s, worker, session, h[worker], n + 1, j)
  {
    var n := |RecordedBy(s.log, worker)|;
    forall k | n + 1 <= k < j
      ensures Acceptable(t, worker, session, h[worker], k) <==> Acceptable(s, worker, session, h[worker], k)
    {
      assert Owned(s, worker, h[worker]) && OwnedAt(s, worker, h[worker], k);
      PayloadStable(s, t, h[worker][k]);
    }
  }

  /** What a recorded batch leaves behind. */
  ghost predicate BatchRecorded(s: Server, t: Server, h: Histories, worker: WorkerId, session: SessionId, i: nat, j: nat)
    requires worker in h && i <= j <= |h[worker]|
  {
    && Inv(t) && Evolves(s, t) && Tracks(t, h)
    && s.log <= t.log && t.workers == s.workers && |t.attempts| == |s.attempts|
    && RecordedBy(t.log, worker) ==
       (if |RecordedBy(s.log, worker)| < j then h[worker][..j] else RecordedBy(s.log, worker))
    && (forall w: nat :: w != worker ==> RecordedBy(t.log, w) == RecordedBy(s.log, w))
    && AllInSession(t.log, worker, session, i, j)
  }

  lemma ApplyKeepsTables(s: Server, worker: WorkerId, session: SessionId, e: WorkerEvent)
    requires RecordWorkerEvent(s, worker, session, e).Ok?
    ensures var t := RecordWorkerEvent(s, worker, session, e).value;
            t.workers == s.workers && |t.attempts| == |s.attempts| && s.log <= t.log
  {
  }

  /** The head of a batch is old. */
  lemma OldHead(s: Server, t: Server, h: Histories, worker: WorkerId, session: SessionId, i: nat, j: nat)
    requires worker in h && i < j <= |h[worker]| && InSession(s.log, worker, session, i + 1)
    requires BatchRecorded(s, t, h, worker, session, i + 1, j)
    ensures BatchRecorded(s, t, h, worker, session, i, j)
  {
    InSessionPersists(s.log, t.log, worker, session, i + 1);
  }

  /** The head of a batch is the next event. */
  lemma NewHead(s: Server, m: Server, t: Server, h: Histories, worker: WorkerId, session: SessionId, j: nat)
    requires worker in h && |RecordedBy(s.log, worker)| < j <= |h[worker]| && HistoryOk(worker, h[worker])
    requires var n := |RecordedBy(s.log, worker)|;
             && m.log == s.log + [LogEntry(worker, session, h[worker][n])]
             && RecordedBy(m.log, worker) == h[worker][..n + 1]
             && Evolves(s, m) && m.workers == s.workers && |m.attempts| == |s.attempts|
             && (forall w: nat :: w != worker ==> RecordedBy(m.log, w) == RecordedBy(s.log, w))
             && BatchRecorded(m, t, h, worker, session, n + 1, j)
    ensures BatchRecorded(s, t, h, worker, session, |RecordedBy(s.log, worker)|, j)
  {
    var n := |RecordedBy(s.log, worker)|;
    EvolvesTransitive(s, m, t);
    assert SequencedAt(worker, h[worker], n);
    assert m.log[|s.log|] == LogEntry(worker, session, h[worker][n]);
    assert InSession(m.log, worker, session, n + 1);
    InSessionPersists(m.log, t.log, worker, session, n + 1);
  }

  /** The verdict on a batch: accepted exactly when every event in it is acceptable, and what that records. */
  ghost predicate BatchVerdict(s: Server, h: Histories, worker: WorkerId, session: SessionId, i: nat, j: nat)
    requires worker in h && i <= j <= |h[worker]|
  {
    var r := RecordAll(s, worker, session, h[worker][i..j]);
    && (r.Ok? <==> BatchAcceptable(s, worker, session, h[worker], i, j))
    && (r.Ok? ==> BatchRecorded(s, r.value, h, worker, session, i, j))
  }

  lemma VerdictWithOldHead(s: Server, h: Histories, worker: WorkerId, session: SessionId, i: nat, j: nat)
    requires PrefixRecorded(s, h) && HistoriesOk(s, h) && worker in h
    requires i < |RecordedBy(s.log, worker)| && i < j <= |h[worker]|
    requires BatchVerdict(s, h, worker, session, i + 1, j)
    ensures BatchVerdict(s, h, worker, session, i, j)
  {
    var batch := h[worker][i..j];
    assert batch[0] == h[worker][i] && batch[1..] == h[worker][i + 1..j];
    RecordOld(s, h, worker, session, i);
    assert Acceptable(s, worker, session, h[worker], i) <==> RecordWorkerEvent(s, worker, session, batch[0]).Ok?;
    var r := RecordAll(s, worker, session, batch);
    if r.Ok? {
      OldHead(s, r.value, h, worker, session, i, j);
    }
  }

  /** The next event was recorded, giving m. */
  ghost predicate NextRecorded(s: Server, m: Server, h: Histories, worker: WorkerId, session: SessionId)
    requires worker in h && |RecordedBy(s.log, worker)| < |h[worker]|
  {
    var n := |RecordedBy(s.log, worker)|;
    && RecordWorkerEvent(s, worker, session, h[worker][n]) == Ok(m)
    && Evolves(s, m)
    && m.log == s.log + [LogEntry(worker, session, h[worker][n])]
    && RecordedBy(m.log, worker) == h[worker][..n + 1]
    && (forall w: nat :: w != worker ==> RecordedBy(m.log, w) == RecordedBy(s.log, w))
  }

  lemma RecordNextInBatch(s: Server, h: Histories, worker: WorkerId, session: SessionId) returns (m: Server)
    requires Inv(s) && Tracks(s, h) && HistoriesOk(s, h) && worker in h
    requires |RecordedBy(s.log, worker)| < |h[worker]|
    requires PayloadOk(s, h[worker][|RecordedBy(s.log, worker)|])
    ensures Inv(m) && Tracks(m, h) && HistoriesOk(m, h) && NextRecorded(s, m, h, worker, session)
  {
    RecordNext(s, h, worker, session);
    m := RecordWorkerEvent(s, worker, session, h[worker][|RecordedBy(s.log, worker)|]).value;
    OwnedStays(s, m, h);
  }

  lemma RefusedHead(s: Server, h: Histories, worker: WorkerId, session: SessionId, j: nat)
    requires Inv(s) && Tracks(s, h) && HistoriesOk(s, h) && worker in h
    requires |RecordedBy(s.log, worker)| < j <= |h[worker]|
    requires !PayloadOk(s, h[worker][|RecordedBy(s.log, worker)|])
    ensures BatchVerdict(s, h, worker, session, |RecordedBy(s.log, worker)|, j)
  {
    var n := |RecordedBy(s.log, worker)|;
    RecordNext(s, h, worker, session);
    assert h[worker][n..j][0] == h[worker][n];
    assert !Acceptable(s, worker, session, h[worker], n);
  }

  lemma VerdictWithNewHead(s: Server, m: Server, h: Histories, worker: WorkerId, session: SessionId, j: nat)
    requires Inv(s) && HistoriesOk(s, h)
    requires worker in h && |RecordedBy(s.log, worker)| < j <= |h[worker]|
    requires PayloadOk(s, h[worker][|RecordedBy(s.log, worker)|])
    requires NextRecorded(s, m, h, worker, session)
    requires BatchVerdict(m, h, worker, session, |RecordedBy(s.log, worker)| + 1, j)
    ensures BatchVerdict(s, h, worker, session, |RecordedBy(s.log, worker)|, j)
  {
    var n := |RecordedBy(s.log, worker)|;
    LaterVerdictsStand(s, m, h, worker, session, j);
    AcceptableHead(s, worker, session, h[worker], n, j);
    RecordAllFromHead(s, m, worker, session, h[worker], n, j);
    var r := RecordAll(m, worker, session, h[worker][n + 1..j]);
    if r.Ok? {
      ApplyKeepsTables(s, worker, session, h[worker][n]);
      NewHead(s, m, r.value, h, worker, session, j);
    }
  }

  lemma AcceptableHead(s: Server, worker: WorkerId, session: SessionId, history: seq<WorkerEvent>, n: nat, j: nat)
    requires n < j <= |history| && Acceptable(s, worker, session, history, n)
    ensures BatchAcceptable(s, worker, session, history, n, j) <==> BatchAcceptable(s, worker, session, history, n + 1, j)
  {
  }

  lemma RecordAllFromHead(s: Server, m: Server, worker: WorkerId, session: SessionId, history: seq<WorkerEvent>, n: nat, j: nat)
    requires n < j <= |history| && RecordWorkerEvent(s, worker, session, history[n]) == Ok(m)
    ensures RecordAll(s, worker, session, history[n..j]) == RecordAll(m, worker, session, history[n + 1..j])
  {
    var batch := history[n..j];
    assert batch[0] == history[n] && batch[1..] == history[n + 1..j];
  }

  /**
   A batch of consecutive events whose first is at most the next one: it is accepted exactly when every
   event in it is acceptable, and then the recorded prefix reaches at least to its end.
   */
  lemma {:induction false} RecordBatch(s: Server, h: Histories, worker: WorkerId, session: SessionId, i: nat, j: nat)
    requires Inv(s) && Tracks(s, h) && HistoriesOk(s, h) && worker in h
    requires i <= |RecordedBy(s.log, worker)| && i <= j <= |h[worker]|
    ensures BatchVerdict(s, h, worker, session, i, j)
    decreases j - i, 1
  {
    hide BatchVerdict, Inv, HistoriesOk;
    if i == j {
      EmptyBatch(s, h, worker, session, i);
    } else if i < |RecordedBy(s.log, worker)| {
      RecordBatch(s, h, worker, session, i + 1, j);
      VerdictWithOldHead(s, h, worker, session, i, j);
    } else {
      RecordNewBatch(s, h, worker, session, j);
    }
  }

  /** A batch that starts with the next event. */
  lemma {:induction false} RecordNewBatch(s: Server, h: Histories, worker: WorkerId, session: SessionId, j: nat)
    requires Inv(s) && Tracks(s, h) && HistoriesOk(s, h) && worker in h
    requires |RecordedBy(s.log, worker)| < j <= |h[worker]|
    ensures BatchVerdict(s, h, worker, session, |RecordedBy(s.log, worker)|, j)
    decreases j - |RecordedBy(s.log, worker)|, 0
  {
    var n := |RecordedBy(s.log, worker)|;
    if PayloadOk(s, h[worker][n]) {
      var m := RecordNextInBatch(s, h, worker, session);
      RecordBatch(m, h, worker, session, n + 1, j);
      VerdictWithNewHead(s, m, h, worker, session, j);
    } else {
      RefusedHead(s, h, worker, session, j);
    }
  }

  lemma EmptyBatch(s: Server, h: Histories, worker: WorkerId, session: SessionId, i: nat)
    requires Inv(s) && Tracks(s, h) && worker in h && i <= |h[worker]| && i <= |RecordedBy(s.log, worker)|
    ensures BatchVerdict(s, h, worker, session, i, i)
  {
    SameTables(s, s);
    assert h[worker][i..i] == [];
  }

  /******* Offering *******/

  lemma {:induction false} OfferFromAppends(s: Server, worker: WorkerId, capacity: Capacity, allocation: Allocation, ids: seq<JobId>)
    requires forall k :: 0 <= k < |ids| ==> ids[k] < |s.jobs|
    ensures var t := OfferFrom(s, worker, capacity, allocation, ids);
            && s.attempts <= t.attempts
            && (forall a :: |s.attempts| <= a < |t.attempts| ==>
                  t.attempts[a].worker == worker && t.attempts[a].state.AttemptOffered?)
    decreases |ids|
  {
    if |ids| > 0 && allocation.active < capacity.maxParallel {
      var spec := s.jobs[ids[0]].spec;
      if JobFits(spec, capacity, allocation) {
        OfferFromAppends(Offer(s, worker, ids[0]), worker, capacity, Occupy(allocation, spec.resources), ids[1..]);
      } else {
        OfferFromAppends(s, worker, capacity, allocation, ids[1..]);
      }
    }
  }

  lemma OfferTracks(s: Server, h: Histories, worker: WorkerId, declared: Capacity)
    requires Inv(s) && Tracks(s, h) && HistoriesOk(s, h) && worker in h
    ensures var t := OfferJobs(s, worker, declared);
            && Inv(t) && Evolves(s, t) && Tracks(t, h) && t.log == s.log && t.workers == s.workers
  {
    var t := OfferJobs(s, worker, declared);
    OfferJobsPreserves(s, worker, declared);
    OfferFromAppends(s, worker, Normalize(declared), CurrentAllocation(s, worker), Candidates(s));
    OfferFromKeepsKeys(s, worker, Normalize(declared), CurrentAllocation(s, worker), Candidates(s));
    forall a | 0 <= a < |t.attempts|
      ensures TrackedAt(t, a)
    {
      if a < |s.attempts| {
        assert TrackedAt(s, a);
        assert t.attempts[a] == s.attempts[a];
      } else {
        var recorded := RecordedBy(s.log, worker);
        assert Owned(s, worker, h[worker]);
        forall i | 0 <= i < |recorded| ensures recorded[i].attemptId != a {
          assert recorded[i] == h[worker][i] && OwnedAt(s, worker, h[worker], i);
        }
        UnheardOf(recorded, a);
      }
    }
    forall a | 0 <= a < |t.attempts| ensures t.attempts[a].worker in h {
      if a < |s.attempts| {
        assert t.attempts[a] == s.attempts[a];
      }
    }
  }

  /******* The response *******/

  lemma {:induction false} OfferedCommandsAreOffers(s: Server, worker: WorkerId, n: nat)
    requires n <= |s.attempts|
    ensures forall k :: 0 <= k < |OfferedCommands(s, worker, n)| ==>
              var c := OfferedCommands(s, worker, n)[k];
              && c.RunJob? && c.attemptId < n && s.attempts[c.attemptId].job < |s.jobs|
              && s.attempts[c.attemptId].worker == worker && s.attempts[c.attemptId].state.AttemptOffered?
              && c == RunCommand(s, c.attemptId)
    ensures forall a | 0 <= a < n && s.attempts[a].worker == worker && s.attempts[a].state.AttemptOffered? ::
              s.attempts[a].job < |s.jobs| ==> RunCommand(s, a) in OfferedCommands(s, worker, n)
  {
    if n > 0 {
      OfferedCommandsAreOffers(s, worker, n - 1);
      var init, a := OfferedCommands(s, worker, n - 1), s.attempts[n - 1];
      if a.worker == worker && a.state.AttemptOffered? && a.job < |s.jobs| {
        assert OfferedCommands(s, worker, n) == init + [RunCommand(s, n - 1)];
      } else {
        assert OfferedCommands(s, worker, n) == init + [] == init;
      }
    }
  }

  /** A response carries a cancel exactly for the live attempts the worker holds on jobs to be canceled. */
  lemma {:induction false} CancelCommandsAreExact(s: Server, worker: WorkerId, n: nat)
    requires n <= |s.attempts|
    ensures forall k :: 0 <= k < |CancelCommands(s, worker, n)| ==> CancelCommands(s, worker, n)[k].CancelAttempt?
    ensures forall a: nat :: CancelAttempt(a) in CancelCommands(s, worker, n) <==>
              && a < n && Holds(s, s.attempts[a], worker)
              && (s.jobs[s.attempts[a].job].state.JobCanceling? || s.jobs[s.attempts[a].job].state.JobCanceled?)
  {
    if n > 0 {
      CancelCommandsAreExact(s, worker, n - 1);
    }
  }

  lemma {:induction false} AcceptedThroughIsMax(log: seq<LogEntry>, worker: WorkerId, session: SessionId)
    ensures AcceptedThrough(log, worker, session) == 0 || InSession(log, worker, session, AcceptedThrough(log, worker, session))
    ensures forall q: nat :: InSession(log, worker, session, q) ==> q <= AcceptedThrough(log, worker, session)
  {
    if |log| > 0 {
      var n := |log| - 1;
      var init := log[..n];
      AcceptedThroughIsMax(init, worker, session);
      var e := log[n];
      var top := AcceptedThrough(log, worker, session);
      if top != 0 && top == AcceptedThrough(init, worker, session) {
        InSessionPersists(init, log, worker, session, top);
      } else if top != 0 {
        assert log[n].event.sequence == top;
      }
      forall q: nat | InSession(log, worker, session, q) ensures q <= top {
        var k :| 0 <= k < |log| && log[k].worker == worker && log[k].session == session && log[k].event.sequence == q;
        if k < n {
          assert init[k] == log[k];
          assert InSession(init, worker, session, q);
        }
      }
    }
  }

  /** The attempt's job, its number and the specification as it was submitted. */
  predicate Describes(s: Server, attempt: AttemptId, number: nat, job: JobId, spec: JobSpec)
    requires attempt < |s.attempts|
  {
    && s.attempts[attempt].job == job && s.attempts[attempt].number == number
    && job < |s.jobs| && s.jobs[job].spec == spec
  }

  lemma StillDescribes(s: Server, t: Server, attempt: AttemptId, number: nat, job: JobId, spec: JobSpec)
    requires Evolves(s, t) && attempt < |s.attempts| && Describes(s, attempt, number, job, spec)
    ensures Describes(t, attempt, number, job, spec)
  {
    assert AttemptEvolvesAt(s, t, attempt) && JobEvolvesAt(s, t, job);
  }

  /** A command that names an attempt of the worker; a cancel never comes before the worker can know the attempt. */
  predicate CommandOk(s: Server, worker: WorkerId, commands: seq<WorkerCommand>, k: int)
    requires 0 <= k < |commands|
  {
    match commands[k]
    case RunJob(id, attempt, number, job, _, _, spec) =>
      id == attempt && attempt < |s.attempts| && s.attempts[attempt].worker == worker && Describes(s, attempt, number, job, spec)
    case CancelAttempt(attempt) =>
      && attempt < |s.attempts| && s.attempts[attempt].worker == worker
      && (!PhaseOf(RecordedBy(s.log, worker), attempt).PhaseNone? || OfferedEarlier(commands, k, attempt))
    case UnknownCommand => false
  }

  /** A response acknowledges only what is recorded. */
  predicate ResponseOk(s: Server, p: SyncResponse) {
    && p.acceptedThrough <= |RecordedBy(s.log, p.worker)| && RunOnce(p.commands)
    && forall k :: 0 <= k < |p.commands| ==> CommandOk(s, p.worker, p.commands, k)
  }

  /** Offers are listed by attempt, each once. */
  lemma {:induction false} OffersAreDistinct(s: Server, worker: WorkerId, n: nat)
    requires n <= |s.attempts|
    ensures RunOnce(OfferedCommands(s, worker, n))
  {
    if n > 0 {
      OfferedCommandsAreOffers(s, worker, n - 1);
      OffersAreDistinct(s, worker, n - 1);
    }
  }

  lemma RespondsOnce(s: Server, worker: WorkerId, session: SessionId)
    ensures RunOnce(Respond(s, worker, session).commands)
  {
    var offered := OfferedCommands(s, worker, |s.attempts|);
    var cancels := CancelCommands(s, worker, |s.attempts|);
    OffersAreDistinct(s, worker, |s.attempts|);
    CancelCommandsAreExact(s, worker, |s.attempts|);
    var all := offered + cancels;
    forall k | |offered| <= k < |all| ensures !all[k].RunJob? {
      assert all[k] == cancels[k - |offered|];
    }
  }

  lemma AcknowledgesRecorded(s: Server, h: Histories, worker: WorkerId, session: SessionId)
    requires PrefixRecorded(s, h) && HistoriesOk(s, h)
    ensures AcceptedThrough(s.log, worker, session) <= |RecordedBy(s.log, worker)|
  {
    AcceptedThroughIsMax(s.log, worker, session);
    var top := AcceptedThrough(s.log, worker, session);
    if top != 0 {
      var k :| 0 <= k < |s.log| && s.log[k].worker == worker && s.log[k].session == session && s.log[k].event.sequence == top;
      EntryIsHistory(s, h, k);
    }
  }

  lemma OfferIsOk(s: Server, worker: WorkerId, commands: seq<WorkerCommand>, k: nat)
    requires OfferedCommands(s, worker, |s.attempts|) <= commands && k < |OfferedCommands(s, worker, |s.attempts|)|
    ensures CommandOk(s, worker, commands, k)
  {
    OfferedCommandsAreOffers(s, worker, |s.attempts|);
    assert commands[k] == OfferedCommands(s, worker, |s.attempts|)[k];
  }

  /** A cancel comes after the offer of its attempt, or after the worker has been heard of it. */
  lemma CancelIsOk(s: Server, worker: WorkerId, commands: seq<WorkerCommand>, k: nat, a: AttemptId)
    requires AttemptsTracked(s) && OfferedCommands(s, worker, |s.attempts|) <= commands
    requires |OfferedCommands(s, worker, |s.attempts|)| <= k < |commands| && commands[k] == CancelAttempt(a)
    requires a < |s.attempts| && Holds(s, s.attempts[a], worker)
    ensures CommandOk(s, worker, commands, k)
  {
    var offered := OfferedCommands(s, worker, |s.attempts|);
    OfferedCommandsAreOffers(s, worker, |s.attempts|);
    assert TrackedAt(s, a);
    if s.attempts[a].state.AttemptOffered? {
      var e :| 0 <= e < |offered| && offered[e] == RunCommand(s, a);
      assert commands[e] == offered[e];
    }
  }

  lemma RespondIsOk(s: Server, h: Histories, worker: WorkerId, session: SessionId)
    requires Tracks(s, h) && HistoriesOk(s, h)
    ensures ResponseOk(s, Respond(s, worker, session))
  {
    var offered := OfferedCommands(s, worker, |s.attempts|);
    var cancels := CancelCommands(s, worker, |s.attempts|);
    var commands := offered + cancels;
    CancelCommandsAreExact(s, worker, |s.attempts|);
    RespondsOnce(s, worker, session);
    AcknowledgesRecorded(s, h, worker, session);
    forall k | 0 <= k < |commands| ensures CommandOk(s, worker, commands, k) {
      if k < |offered| {
        OfferIsOk(s, worker, commands, k);
      } else {
        assert commands[k] == cancels[k - |offered|];
        assert CancelAttempt(commands[k].attemptId) in cancels;
        CancelIsOk(s, worker, commands, k, commands[k].attemptId);
      }
    }
  }

  /******* The whole transaction *******/

  /** What a successful sync of the batch i..j leaves behind. */
  ghost predicate SyncDone(s: Server, t: Server, h: Histories, worker: WorkerId, session: SessionId, i: nat, j: nat)
    requires worker in h && i <= j <= |h[worker]|
  {
    && Inv(t) && Evolves(s, t) && Tracks(t, h) && s.log <= t.log && t.workers == s.workers
    && RecordedBy(t.log, worker) ==
       (if |RecordedBy(s.log, worker)| < j then h[worker][..j] else RecordedBy(s.log, worker))
    && (forall w: nat :: w != worker ==> RecordedBy(t.log, w) == RecordedBy(s.log, w))
    && AllInSession(t.log, worker, session, i, j)
  }

  lemma OfferAfterBatch(s: Server, m: Server, h: Histories, request: SyncRequest, i: nat, j: nat)
    requires HistoriesOk(m, h) && request.worker in h && i <= j <= |h[request.worker]|
    requires BatchRecorded(s, m, h, request.worker, request.session, i, j)
    ensures SyncDone(s, OfferJobs(m, request.worker, request.capacity), h, request.worker, request.session, i, j)
    ensures ResponseOk(OfferJobs(m, request.worker, request.capacity),
                       Respond(OfferJobs(m, request.worker, request.capacity), request.worker, request.session))
  {
    OfferTracks(m, h, request.worker, request.capacity);
    var t := OfferJobs(m, request.worker, request.capacity);
    EvolvesTransitive(s, m, t);
    OwnedStays(m, t, h);
    RespondIsOk(t, h, request.worker, request.session);
  }

  /**
   What a sync does with a batch that starts at position i of its worker's history: it succeeds exactly
   when every event of the batch is acceptable, and what it then leaves behind and answers.
   */
  ghost predicate Verdict(s: Server, h: Histories, request: SyncRequest, i: nat)
    requires request.worker in h && i + |request.events| <= |h[request.worker]|
  {
    var r := SyncWorker(s, request);
    var w, j := request.worker, i + |request.events|;
    && (r.Ok? <==> w in s.workers && BatchAcceptable(s, w, request.session, h[w], i, j))
    && (r.Ok? ==>
          && SyncDone(s, r.value.0, h, w, request.session, i, j)
          && r.value.1 == Respond(r.value.0, w, request.session)
          && ResponseOk(r.value.0, r.value.1))
  }

  lemma SyncBatch(s: Server, h: Histories, request: SyncRequest, i: nat)
    requires Inv(s) && Tracks(s, h) && HistoriesOk(s, h) && request.worker in h
    requires i <= |RecordedBy(s.log, request.worker)| && i + |request.events| <= |h[request.worker]|
    requires request.events == h[request.worker][i..i + |request.events|]
    ensures Verdict(s, h, request, i)
  {
    hide Inv, Evolves, Tracks, HistoriesOk, RecordAll, OfferFrom, Respond, Candidates, CurrentAllocation, AllInSession, RecordedBy;
    var j := i + |request.events|;
    RecordBatch(s, h, request.worker, request.session, i, j);
    var recorded := RecordAll(s, request.worker, request.session, request.events);
    if recorded.Ok? {
      OwnedStays(s, recorded.value, h);
      OfferAfterBatch(s, recorded.value, h, request, i, j);
    }
  }
}
