/**
 Health policies over runs of the control plane itself: the candidates, the readings and the finished attempts are
 read from its tables, so what fires is stated about jobs and attempts and nothing is assumed of the evaluations.
 */
module HealthRuns {
  import opened Wrappers
  import opened Domain
  import opened JobSpecs
  import opened Scheduler
  import opened ControlPlane
  import opened Lifecycle
  import opened Runs
  import opened Exchange
  import opened Stall
  import opened Health
  import ControlEffects

  /******* What an evaluation reads *******/

  /** A running attempt of a running job. */
  predicate Watched(s: Server, a: AttemptId) {
    && a < |s.attempts| && s.attempts[a].state.AttemptRunning? && s.attempts[a].startedAt.Some?
    && s.attempts[a].job < |s.jobs| && s.jobs[s.attempts[a].job].state.JobRunning?
  }

  function CandidateOf(s: Server, a: AttemptId): Candidate
    requires Watched(s, a)
  {
    Candidate(a, s.attempts[a].startedAt.value, s.jobs[s.attempts[a].job].spec.health)
  }

  /** The candidates of one job among the first n attempts, which is by attempt number. */
  function CandidatesOfJob(s: Server, job: JobId, n: nat): seq<Candidate>
    requires n <= |s.attempts|
  {
    if n == 0 then []
    else
      CandidatesOfJob(s, job, n - 1) +
      if s.attempts[n - 1].job == job && Watched(s, n - 1) then [CandidateOf(s, n - 1)] else []
  }

  /** The candidates of the first n jobs, by job and attempt number. */
  function HealthCandidates(s: Server, n: nat): seq<Candidate> {
    if n == 0 then [] else HealthCandidates(s, n - 1) + CandidatesOfJob(s, n - 1, |s.attempts|)
  }

  /** The samples of an attempt's metric, in row order. */
  function SamplesOf(samples: seq<Sample>, attempt: AttemptId, name: string): seq<Observation> {
    if |samples| == 0 then []
    else
      var last := samples[|samples| - 1];
      SamplesOf(samples[..|samples| - 1], attempt, name) +
      if last.attempt == attempt && last.sample.name == name && last.sample.value.Finite?
      then [Observation(last.sample.value.v, last.sample.observedAt)] else []
  }

  function TickOf(s: Server, now: int): Event {
    Tick(s.targets, HealthCandidates(s, |s.jobs|), (attempt: AttemptId, name: string) => SamplesOf(s.samples, attempt, name), now)
  }

  lemma {:induction false} JobCandidatesAreWatched(s: Server, job: JobId, n: nat, c: Candidate)
    requires n <= |s.attempts|
    ensures c in CandidatesOfJob(s, job, n) <==>
            c.attempt < n && Watched(s, c.attempt) && s.attempts[c.attempt].job == job && c == CandidateOf(s, c.attempt)
  {
    if n > 0 {
      JobCandidatesAreWatched(s, job, n - 1, c);
    }
  }

  lemma {:induction false} CandidatesAreWatched(s: Server, n: nat, c: Candidate)
    ensures c in HealthCandidates(s, n) <==>
            Watched(s, c.attempt) && s.attempts[c.attempt].job < n && c == CandidateOf(s, c.attempt)
  {
    if n > 0 {
      CandidatesAreWatched(s, n - 1, c);
      JobCandidatesAreWatched(s, n - 1, |s.attempts|, c);
    }
  }

  /** The query lists exactly the running attempts of running jobs, as started and with their job's policies. */
  lemma CandidatesAreRunning(s: Server, c: Candidate)
    ensures c in TickOf(s, 0).candidates <==>
            && c.attempt < |s.attempts| && s.attempts[c.attempt].state == AttemptRunning
            && s.attempts[c.attempt].startedAt == Some(c.startedAt)
            && s.attempts[c.attempt].job < |s.jobs| && s.jobs[s.attempts[c.attempt].job].state == JobRunning
            && s.jobs[s.attempts[c.attempt].job].spec.health == c.policies
  {
    CandidatesAreWatched(s, |s.jobs|, c);
  }

  /** The evaluation on the tables as they are. */
  method EvaluateNow(store: HealthStore, s: Server, now: int) returns (fired: nat, ok: bool)
    modifies store
    ensures Evaluation(store.Value(), fired, ok) ==
            FireAll(old(store.Value()), s.targets, AllDue(TickOf(s, now).candidates, TickOf(s, now).readings, now))
  {
    var tick := TickOf(s, now);
    fired, ok := store.EvaluateHealthPolicies(tick.targets, tick.candidates, tick.readings, now);
  }

  /******* Runs *******/

  /** A transaction of the control plane, or an evaluation. */
  datatype Turn = Operate(op: Op) | Look(now: int)

  /** The event was recorded, not recognised, and reports a finish. */
  predicate Finishing(s: Server, t: Server, e: WorkerEvent) {
    e.body.EventFinished? && t.log != s.log
  }

  function EndOf(s: Server, a: AttemptId): Event
    requires a < |s.attempts| && s.attempts[a].job < |s.jobs|
  {
    End(s.targets, a, s.jobs[s.attempts[a].job].spec.health)
  }

  /** The finishes a batch records, in order. */
  function Finishes(s: Server, worker: WorkerId, session: SessionId, events: seq<WorkerEvent>): seq<Event>
    decreases |events|
  {
    if |events| == 0 then []
    else
      var recorded := RecordWorkerEvent(s, worker, session, events[0]);
      var a := events[0].attemptId;
      if recorded.Err? then []
      else
        (if Finishing(s, recorded.value, events[0]) && a < |s.attempts| && s.attempts[a].job < |s.jobs| then [EndOf(s, a)] else [])
        + Finishes(recorded.value, worker, session, events[1..])
  }

  /** What a turn means to the health policies; a transaction that fails means nothing. */
  function EventsOf(s: Server, turn: Turn): seq<Event> {
    match turn
    case Look(now) => [TickOf(s, now)]
    case Operate(op) =>
      if op.Sync? && SyncWorker(s, op.request).Ok? then Finishes(s, op.request.worker, op.request.session, op.request.events)
      else []
  }

  function After(s: Server, turn: Turn): Server {
    match turn
    case Look(_) => s
    case Operate(op) => Do(s, op)
  }

  function ServerAfter(turns: seq<Turn>): Server {
    if |turns| == 0 then EMPTY else After(ServerAfter(turns[..|turns| - 1]), turns[|turns| - 1])
  }

  function AllEvents(turns: seq<Turn>): seq<Event> {
    if |turns| == 0 then []
    else AllEvents(turns[..|turns| - 1]) + EventsOf(ServerAfter(turns[..|turns| - 1]), turns[|turns| - 1])
  }

  function TablesAfter(turns: seq<Turn>): Tables {
    AfterAll(NO_TABLES, AllEvents(turns))
  }

  lemma {:induction false} TurnsKeepInv(turns: seq<Turn>)
    ensures Inv(ServerAfter(turns)) && SpecsOk(ServerAfter(turns))
  {
    if |turns| == 0 {
      EmptyInv();
    } else {
      var before := turns[..|turns| - 1];
      TurnsKeepInv(before);
      if turns[|turns| - 1].Operate? {
        DoPreserves(ServerAfter(before), turns[|turns| - 1].op);
        DoKeepsSpecs(ServerAfter(before), turns[|turns| - 1].op);
      }
    }
  }

  lemma {:induction false} TurnsEvolve(turns: seq<Turn>, k: nat)
    requires k <= |turns|
    ensures Evolves(ServerAfter(turns[..k]), ServerAfter(turns))
    decreases |turns|
  {
    TurnsKeepInv(turns);
    if k == |turns| {
      assert turns[..k] == turns;
      SameTables(ServerAfter(turns), ServerAfter(turns));
    } else {
      var before := turns[..|turns| - 1];
      assert before[..k] == turns[..k];
      TurnsEvolve(before, k);
      TurnsKeepInv(before);
      if turns[|turns| - 1].Operate? {
        DoPreserves(ServerAfter(before), turns[|turns| - 1].op);
        EvolvesTransitive(ServerAfter(turns[..k]), ServerAfter(before), ServerAfter(turns));
      }
    }
  }

  /** The event comes from the k-th turn. */
  ghost predicate ComesFrom(turns: seq<Turn>, k: int, event: Event) {
    0 <= k < |turns| && event in EventsOf(ServerAfter(turns[..k]), turns[k])
  }

  lemma ComesFromBefore(turns: seq<Turn>, k: int, event: Event)
    requires |turns| > 0 && k < |turns| - 1
    ensures ComesFrom(turns[..|turns| - 1], k, event) <==> ComesFrom(turns, k, event)
  {
    if 0 <= k {
      assert turns[..|turns| - 1][..k] == turns[..k];
    }
  }

  lemma {:induction false} EventsComeFromTurns(turns: seq<Turn>, event: Event)
    ensures event in AllEvents(turns) <==> exists k :: ComesFrom(turns, k, event)
  {
    hide ServerAfter, EventsOf;
    if |turns| > 0 {
      var last := |turns| - 1;
      var before := turns[..last];
      EventsComeFromTurns(before, event);
      if event in AllEvents(before) {
        var k :| ComesFrom(before, k, event);
        ComesFromBefore(turns, k, event);
      }
      if event in EventsOf(ServerAfter(before), turns[last]) {
        assert ComesFrom(turns, last, event);
      }
      if k :| ComesFrom(turns, k, event) {
        if k < last {
          ComesFromBefore(turns, k, event);
        }
      }
    }
  }

  /******* Periodic and stall firings *******/

  predicate NotAfter(turns: seq<Turn>, latest: int) {
    forall k :: 0 <= k < |turns| && turns[k].Look? ==> turns[k].now <= latest
  }

  /** Every event sees an attempt as its row ends up: started then, with the policies of its job. */
  lemma EventSees(turns: seq<Turn>, k: nat, event: Event, a: AttemptId, p: nat, startedAt: int, latest: int)
    requires ComesFrom(turns, k, event) && NotAfter(turns, latest)
    requires var t := ServerAfter(turns);
             && a < |t.attempts| && t.attempts[a].job < |t.jobs| && p < |t.jobs[t.attempts[a].job].spec.health|
             && (t.attempts[a].startedAt.Some? ==> t.attempts[a].startedAt.value == startedAt)
    ensures var t := ServerAfter(turns); Sees(event, a, p, startedAt, t.jobs[t.attempts[a].job].spec.health[p].window, latest)
  {
    if event.Tick? {
      var s, t := ServerAfter(turns[..k]), ServerAfter(turns);
      OnlyLooksTick(s, turns[k], event);
      TurnsEvolve(turns, k);
      forall i | 0 <= i < |event.candidates| && event.candidates[i].attempt == a
        ensures event.candidates[i].startedAt == startedAt && event.candidates[i].policies == t.jobs[t.attempts[a].job].spec.health
      {
        CandidatesAreWatched(s, |s.jobs|, event.candidates[i]);
        assert AttemptEvolvesAt(s, t, a) && JobEvolvesAt(s, t, s.attempts[a].job);
      }
    }
  }

  lemma OnlyLooksTick(s: Server, turn: Turn, event: Event)
    requires event in EventsOf(s, turn) && event.Tick?
    ensures turn.Look? && event == TickOf(s, turn.now)
  {
    if turn.Operate? {
      FinishesAreEnds(s, turn.op.request.worker, turn.op.request.session, turn.op.request.events);
    }
  }

  lemma {:induction false} FinishesAreEnds(s: Server, worker: WorkerId, session: SessionId, events: seq<WorkerEvent>)
    ensures forall k :: 0 <= k < |Finishes(s, worker, session, events)| ==> Finishes(s, worker, session, events)[k].End?
    decreases |events|
  {
    if |events| > 0 && RecordWorkerEvent(s, worker, session, events[0]).Ok? {
      FinishesAreEnds(RecordWorkerEvent(s, worker, session, events[0]).value, worker, session, events[1..]);
    }
  }

  lemma RunsAreSeen(turns: seq<Turn>, a: AttemptId, p: nat, startedAt: int, latest: int)
    requires NotAfter(turns, latest)
    requires var t := ServerAfter(turns);
             && a < |t.attempts| && t.attempts[a].job < |t.jobs| && p < |t.jobs[t.attempts[a].job].spec.health|
             && (t.attempts[a].startedAt.Some? ==> t.attempts[a].startedAt.value == startedAt)
    ensures var t := ServerAfter(turns);
            SeesAll(AllEvents(turns), a, p, startedAt, t.jobs[t.attempts[a].job].spec.health[p].window, latest)
  {
    var events := AllEvents(turns);
    forall e | 0 <= e < |events|
      ensures var t := ServerAfter(turns); Sees(events[e], a, p, startedAt, t.jobs[t.attempts[a].job].spec.health[p].window, latest)
    {
      EventsComeFromTurns(turns, events[e]);
      var k :| ComesFrom(turns, k, events[e]);
      EventSees(turns, k, events[e], a, p, startedAt, latest);
    }
  }

  /** In the run's last state: the attempt's worker reported that it started then, and it was recorded. */
  predicate StartRecorded(turns: seq<Turn>, a: AttemptId, at: int) {
    ControlEffects.StartRecorded(ServerAfter(turns), a, at)
  }

  lemma {:induction false} TurnsKeepStarts(turns: seq<Turn>)
    ensures ControlEffects.StartsTold(ServerAfter(turns))
  {
    hide ControlEffects.StartsTold, Do;
    if |turns| == 0 {
      NoStartsYet();
    } else {
      var before := turns[..|turns| - 1];
      TurnsKeepStarts(before);
      TurnsKeepInv(before);
      if turns[|turns| - 1].Operate? {
        ControlEffects.DoKeepsStarts(ServerAfter(before), turns[|turns| - 1].op);
      }
    }
  }

  lemma NoStartsYet()
    ensures ControlEffects.StartsTold(EMPTY)
  {
  }

  /** The start time of a row is the reported one. */
  lemma StartIsReported(turns: seq<Turn>, a: AttemptId, at: int)
    requires a < |ServerAfter(turns).attempts|
    ensures ServerAfter(turns).attempts[a].startedAt == Some(at) <==> StartRecorded(turns, a, at)
  {
    TurnsKeepStarts(turns);
    assert ControlEffects.ToldAt(ServerAfter(turns), a, at);
  }

  /** How long after the start that is, not counting time before it. */
  function Elapsed(at: int, latest: int): nat {
    if latest < at then 0 else latest - at
  }

  /** Over every run a periodic policy fires at most once per completed window since its attempt's reported start. */
  lemma PeriodicAtMostOncePerWindow(turns: seq<Turn>, a: AttemptId, p: nat, latest: int)
    requires NotAfter(turns, latest)
    requires var t := ServerAfter(turns);
             && a < |t.attempts| && t.attempts[a].job < |t.jobs| && p < |t.jobs[t.attempts[a].job].spec.health|
             && t.jobs[t.attempts[a].job].spec.health[p].kind.KindPeriodic?
    ensures var t := ServerAfter(turns);
            var window := t.jobs[t.attempts[a].job].spec.health[p].window;
            var firings := PeriodicFirings(TablesAfter(turns).firings, a, p);
            && window > 0
            && (forall at :: StartRecorded(turns, a, at) ==> firings <= Elapsed(at, latest) / window)
            && ((forall at :: !StartRecorded(turns, a, at)) ==> firings == 0)
  {
    hide AfterAll, PeriodicFirings, SeesAll, Inv, AllEvents, ServerAfter, StartRecorded;
    var t := ServerAfter(turns);
    TurnsKeepInv(turns);
    assert ValidPolicy(t.jobs[t.attempts[a].job].spec, t.jobs[t.attempts[a].job].spec.health[p]);
    var startedAt := if t.attempts[a].startedAt.Some? then t.attempts[a].startedAt.value else latest;
    var last := if latest < startedAt then startedAt else latest;
    RunsAreSeen(turns, a, p, startedAt, last);
    PeriodicFiringsBounded(AllEvents(turns), a, p, startedAt, t.jobs[t.attempts[a].job].spec.health[p].window, last);
    StartIsReported(turns, a, startedAt);
    forall at | StartRecorded(turns, a, at) ensures at == startedAt {
      StartIsReported(turns, a, at);
    }
  }

  predicate StallAt(tables: Tables, k: nat, a: AttemptId, p: nat) {
    && k < |tables.firings| && tables.firings[k].attempt == a && tables.firings[k].policy == p
    && tables.firings[k].key.StalledKey?
  }

  /** Over every run a stall policy fires at most once per attempt, and only after a whole window. */
  lemma StallAtMostOnce(turns: seq<Turn>, a: AttemptId, p: nat, latest: int, i: nat, k: nat)
    requires NotAfter(turns, latest) && StallAt(TablesAfter(turns), i, a, p) && StallAt(TablesAfter(turns), k, a, p)
    requires var t := ServerAfter(turns);
             a < |t.attempts| && t.attempts[a].job < |t.jobs| && p < |t.jobs[t.attempts[a].job].spec.health|
    ensures var t := ServerAfter(turns);
            var window := t.jobs[t.attempts[a].job].spec.health[p].window;
            i == k && window > 0 && exists at :: StartRecorded(turns, a, at) && Elapsed(at, latest) >= window
  {
    hide AfterAll, SeesAll, AllEvents, ServerAfter, StartRecorded;
    var t := ServerAfter(turns);
    var startedAt := if t.attempts[a].startedAt.Some? then t.attempts[a].startedAt.value else latest;
    RunsAreSeen(turns, a, p, startedAt, latest);
    StallFiresOnce(AllEvents(turns), a, p, startedAt, t.jobs[t.attempts[a].job].spec.health[p].window, latest, i, k);
    StartIsReported(turns, a, startedAt);
  }

  /** The evaluation then finds the attempt running and the policy due under that key, and comes as far. */
  ghost predicate FindsThen(s: Server, now: int, due: Due) {
    && Watched(s, due.attempt) && due.policy < |CandidateOf(s, due.attempt).policies|
    && DueKey(CandidateOf(s, due.attempt), CandidateOf(s, due.attempt).policies[due.policy], TickOf(s, now).readings, now) == Some(due.key)
    && exists i :: Examines(TickOf(s, now), i, due.attempt, due.policy)
  }

  ghost predicate FindsAt(turns: seq<Turn>, k: int, due: Due) {
    0 <= k < |turns| && turns[k].Look? && FindsThen(ServerAfter(turns[..k]), turns[k].now, due)
  }

  lemma TickFires(s: Server, now: int, due: Due)
    ensures Fires(TickOf(s, now), due) <==> FindsThen(s, now, due)
  {
    hide DueUpTo, DueKey, SamplesOf;
    var tick := TickOf(s, now);
    forall i | 0 <= i < |tick.candidates|
      ensures Watched(s, tick.candidates[i].attempt) && tick.candidates[i] == CandidateOf(s, tick.candidates[i].attempt)
    {
      CandidatesAreWatched(s, |s.jobs|, tick.candidates[i]);
    }
    if i :| Finds(tick, i, due) {
      assert Examines(tick, i, due.attempt, due.policy);
    }
    if FindsThen(s, now, due) {
      var i :| Examines(tick, i, due.attempt, due.policy);
      assert Finds(tick, i, due);
    }
  }

  lemma EndFiresFinished(event: Event, due: Due)
    requires Fires(event, due) && due.key != FinishedKey
    ensures event.Tick?
  {
  }

  /** A periodic or stall policy fires through evaluations only. */
  lemma FiredByLookIff(turns: seq<Turn>, due: Due)
    requires due.key != FinishedKey
    ensures Fired(TablesAfter(turns), due) <==> exists k :: FindsAt(turns, k, due)
  {
    hide AfterAll, Fires, FindsThen, Fired;
    var events := AllEvents(turns);
    FiredExactly(events, due);
    if e :| 0 <= e < |events| && Fires(events[e], due) {
      EventsComeFromTurns(turns, events[e]);
      var k :| ComesFrom(turns, k, events[e]);
      EndFiresFinished(events[e], due);
      OnlyLooksTick(ServerAfter(turns[..k]), turns[k], events[e]);
      TickFires(ServerAfter(turns[..k]), turns[k].now, due);
      assert FindsAt(turns, k, due);
    }
    if k :| FindsAt(turns, k, due) {
      var s := ServerAfter(turns[..k]);
      TickFires(s, turns[k].now, due);
      assert ComesFrom(turns, k, TickOf(s, turns[k].now));
      EventsComeFromTurns(turns, TickOf(s, turns[k].now));
      var e :| 0 <= e < |events| && events[e] == TickOf(s, turns[k].now);
    }
  }

  /** The evaluation of the k-th turn finds the attempt running and comes as far as the policy. */
  ghost predicate Examined(turns: seq<Turn>, k: int, a: AttemptId, p: nat) {
    && 0 <= k < |turns| && turns[k].Look?
    && var s := ServerAfter(turns[..k]);
       && a < |s.attempts| && s.attempts[a].state == AttemptRunning
       && s.attempts[a].job < |s.jobs| && s.jobs[s.attempts[a].job].state == JobRunning
       && p < |s.jobs[s.attempts[a].job].spec.health|
       && exists i :: Examines(TickOf(s, turns[k].now), i, a, p)
  }

  /** And it falls into the b-th interval after the reported start, for a periodic policy. */
  ghost predicate LooksIn(turns: seq<Turn>, k: int, a: AttemptId, p: nat, b: int) {
    && Examined(turns, k, a, p)
    && var policy := PolicyThen(turns[..k], a, p);
       && policy.kind.KindPeriodic? && policy.window > 0
       && exists at :: StartRecorded(turns[..k], a, at) && (turns[k].now - at) / policy.window == b >= 1
  }

  /** And the attempt has run for the window of a stall policy whose metric has stalled in the samples stored then. */
  ghost predicate SeesStall(turns: seq<Turn>, k: int, a: AttemptId, p: nat) {
    && Examined(turns, k, a, p)
    && var policy := PolicyThen(turns[..k], a, p);
       && policy.kind.KindMetricStalled?
       && (exists at :: StartRecorded(turns[..k], a, at) && 0 < policy.window <= turns[k].now - at)
       && Stalled(InWindow(SamplesOf(ServerAfter(turns[..k]).samples, a, policy.metric), turns[k].now - policy.window),
                  policy.mode, policy.minimumDelta)
  }

  function PolicyThen(turns: seq<Turn>, a: AttemptId, p: nat): HealthPolicy
    requires a < |ServerAfter(turns).attempts| && ServerAfter(turns).attempts[a].job < |ServerAfter(turns).jobs|
    requires p < |ServerAfter(turns).jobs[ServerAfter(turns).attempts[a].job].spec.health|
  {
    ServerAfter(turns).jobs[ServerAfter(turns).attempts[a].job].spec.health[p]
  }

  /**
   Over every run of the control plane: a periodic policy has fired for its attempt's b-th interval exactly if
   some evaluation found the attempt running b whole windows, and less than b + 1, after its reported start, and came as far.
   */
  lemma IntervalFiresIff(turns: seq<Turn>, a: AttemptId, p: nat, b: int, target: string)
    ensures Fired(TablesAfter(turns), Due(a, p, PeriodicKey(b), target)) <==> exists k :: LooksIn(turns, k, a, p, b)
  {
    hide Fired, TablesAfter;
    var due := Due(a, p, PeriodicKey(b), target);
    FiredByLookIff(turns, due);
    forall k ensures FindsAt(turns, k, due) <==> LooksIn(turns, k, a, p, b) {
      FindsInterval(turns, k, a, p, b, target);
    }
  }

  lemma StartsAreReported(turns: seq<Turn>, k: int, a: AttemptId)
    ensures 0 <= k < |turns| && a < |ServerAfter(turns[..k]).attempts| ==>
              forall at :: ServerAfter(turns[..k]).attempts[a].startedAt == Some(at) <==> StartRecorded(turns[..k], a, at)
  {
    hide ServerAfter, StartRecorded;
    if 0 <= k < |turns| && a < |ServerAfter(turns[..k]).attempts| {
      forall at ensures ServerAfter(turns[..k]).attempts[a].startedAt == Some(at) <==> StartRecorded(turns[..k], a, at) {
        StartIsReported(turns[..k], a, at);
      }
    }
  }

  lemma FindsInterval(turns: seq<Turn>, k: int, a: AttemptId, p: nat, b: int, target: string)
    ensures FindsAt(turns, k, Due(a, p, PeriodicKey(b), target)) <==> LooksIn(turns, k, a, p, b)
  {
    hide ServerAfter, Examines, HealthCandidates, SamplesOf, Stalled, StartRecorded;
    StartsAreReported(turns, k, a);
  }

  lemma FindsStall(turns: seq<Turn>, k: int, a: AttemptId, p: nat, target: string)
    ensures FindsAt(turns, k, Due(a, p, StalledKey, target)) <==> SeesStall(turns, k, a, p)
  {
    hide ServerAfter, Examines, HealthCandidates, SamplesOf, Stalled, StartRecorded;
    StartsAreReported(turns, k, a);
  }

  /**
   Over every run of the control plane: a stall policy has fired for an attempt exactly if some evaluation found the
   attempt running a whole window after its reported start, the metric stalled in the samples stored then, and came as far.
   */
  lemma StallFiresIff(turns: seq<Turn>, a: AttemptId, p: nat, target: string)
    ensures Fired(TablesAfter(turns), Due(a, p, StalledKey, target)) <==> exists k :: SeesStall(turns, k, a, p)
  {
    hide Fired, TablesAfter;
    var due := Due(a, p, StalledKey, target);
    FiredByLookIff(turns, due);
    forall k ensures FindsAt(turns, k, due) <==> SeesStall(turns, k, a, p) {
      FindsStall(turns, k, a, p, target);
    }
  }

  /******* Finished attempts *******/

  /** Recording adds no attempt, and a finish is about one that exists. */
  lemma RecordKeepsRows(s: Server, worker: WorkerId, session: SessionId, e: WorkerEvent)
    requires RecordWorkerEvent(s, worker, session, e).Ok?
    ensures var t := RecordWorkerEvent(s, worker, session, e).value;
            && |t.attempts| == |s.attempts| && t.targets == s.targets
            && (Finishing(s, t, e) ==> e.attemptId < |s.attempts| && s.attempts[e.attemptId].job < |s.jobs|)
  {
  }

  /** One recorded event ends an attempt exactly if it is the finish of that attempt. */
  lemma RecordEnds(s: Server, worker: WorkerId, session: SessionId, e: WorkerEvent, a: AttemptId)
    requires RecordWorkerEvent(s, worker, session, e).Ok? && a < |s.attempts|
    ensures var t := RecordWorkerEvent(s, worker, session, e).value;
            && a < |t.attempts|
            && (Live(s.attempts[a].state) && !Live(t.attempts[a].state) <==> Finishing(s, t, e) && e.attemptId == a)
  {
  }

  /** The attempt ends between the two states. */
  predicate Ends(s: Server, t: Server, a: AttemptId) {
    a < |s.attempts| && a < |t.attempts| && Live(s.attempts[a].state) && !Live(t.attempts[a].state)
  }

  lemma EndOfStays(s: Server, m: Server, a: AttemptId)
    requires Inv(s) && Inv(m) && Evolves(s, m) && m.targets == s.targets && a < |s.attempts|
    ensures EndOf(m, a) == EndOf(s, a)
  {
    assert AttemptEvolvesAt(s, m, a) && JobEvolvesAt(s, m, s.attempts[a].job);
  }

  /** A batch fires the finish of exactly the attempts it ends. */
  lemma {:induction false} FinishesAreTheEnded(s: Server, worker: WorkerId, session: SessionId, events: seq<WorkerEvent>, event: Event)
    requires Inv(s) && RecordAll(s, worker, session, events).Ok? && event.End?
    ensures event in Finishes(s, worker, session, events) <==>
            Ends(s, RecordAll(s, worker, session, events).value, event.attempt) && event == EndOf(s, event.attempt)
    decreases |events|
  {
    if |events| > 0 {
      var m := RecordWorkerEvent(s, worker, session, events[0]).value;
      var t := RecordAll(s, worker, session, events).value;
      var rest := events[1..];
      RecordPreserves(s, worker, session, events[0]);
      RecordAllPreserves(m, worker, session, rest);
      FinishesAreTheEnded(m, worker, session, rest, event);
      RecordKeepsRows(s, worker, session, events[0]);
      var a := event.attempt;
      if a < |s.attempts| {
        RecordEnds(s, worker, session, events[0], a);
        EndOfStays(s, m, a);
        assert AttemptEvolvesAt(s, m, a) && AttemptEvolvesAt(m, t, a);
      }
    }
  }

  /** An attempt ends in a sync exactly if the batch ends it: what is offered afterwards is new. */
  lemma SyncEnds(s: Server, request: SyncRequest, a: AttemptId)
    requires SyncWorker(s, request).Ok?
    ensures Ends(s, SyncWorker(s, request).value.0, a) <==>
            Ends(s, RecordAll(s, request.worker, request.session, request.events).value, a)
  {
    var recorded := RecordAll(s, request.worker, request.session, request.events).value;
    OfferFromAppends(recorded, request.worker, Normalize(request.capacity), CurrentAllocation(recorded, request.worker), Candidates(recorded));
    RecordAllKeepsCount(s, request.worker, request.session, request.events);
  }

  lemma {:induction false} RecordAllKeepsCount(s: Server, worker: WorkerId, session: SessionId, events: seq<WorkerEvent>)
    requires RecordAll(s, worker, session, events).Ok?
    ensures |RecordAll(s, worker, session, events).value.attempts| == |s.attempts|
    decreases |events|
  {
    if |events| > 0 {
      RecordKeepsRows(s, worker, session, events[0]);
      RecordAllKeepsCount(RecordWorkerEvent(s, worker, session, events[0]).value, worker, session, events[1..]);
    }
  }

  /** No other operation ends an attempt. */
  lemma OnlySyncsEnd(s: Server, op: Op, a: AttemptId)
    requires !op.Sync? || SyncWorker(s, op.request).Err?
    ensures !Ends(s, Do(s, op), a)
  {
  }

  /** A turn fires the finish of exactly the attempts that end in it. */
  lemma TurnEnds(s: Server, turn: Turn, event: Event)
    requires Inv(s) && event.End?
    ensures event in EventsOf(s, turn) <==> Ends(s, After(s, turn), event.attempt) && event == EndOf(s, event.attempt)
  {
    hide SyncWorker, Finishes, RecordAll;
    if turn.Operate? {
      if turn.op.Sync? && SyncWorker(s, turn.op.request).Ok? {
        var r := turn.op.request;
        SyncRecords(s, r);
        FinishesAreTheEnded(s, r.worker, r.session, r.events, event);
        SyncEnds(s, r, event.attempt);
      } else {
        OnlySyncsEnd(s, turn.op, event.attempt);
      }
    }
  }

  lemma SyncRecords(s: Server, request: SyncRequest)
    requires SyncWorker(s, request).Ok?
    ensures RecordAll(s, request.worker, request.session, request.events).Ok?
  {
  }

  /** The attempt ends in the k-th turn, and the policy is a finished one whose target is configured then. */
  predicate EndsIn(turns: seq<Turn>, k: int, a: AttemptId, p: nat) {
    && 0 <= k < |turns| && Ends(ServerAfter(turns[..k]), After(ServerAfter(turns[..k]), turns[k]), a)
    && FinishedPolicy(ServerAfter(turns[..k]), a, p)
  }

  predicate FinishedPolicy(s: Server, a: AttemptId, p: nat) {
    && a < |s.attempts| && s.attempts[a].job < |s.jobs| && p < |s.jobs[s.attempts[a].job].spec.health|
    && s.jobs[s.attempts[a].job].spec.health[p].kind.KindFinished?
    && s.jobs[s.attempts[a].job].spec.health[p].target in s.targets
  }

  lemma NoFinishFound(event: Event, i: int, due: Due)
    requires due.key == FinishedKey
    ensures !Finds(event, i, due)
  {
  }

  /** The finished policy of an attempt fires through no other event than the end of that attempt. */
  lemma FinishedFiresBy(event: Event, due: Due)
    requires due.key == FinishedKey
    ensures Fires(event, due) <==> event.End? && FinishFires(event.targets, event.attempt, event.policies, due)
  {
    forall i ensures !Finds(event, i, due) {
      NoFinishFound(event, i, due);
    }
  }

  /**
   Over every run of the control plane: a finished policy has fired exactly if the attempt has ended, whatever
   its outcome, in a turn at which the policy's target was configured.
   */
  lemma FinishedFiresIff(turns: seq<Turn>, a: AttemptId, p: nat, target: string)
    ensures Fired(TablesAfter(turns), Due(a, p, FinishedKey, target)) <==> exists k :: EndsIn(turns, k, a, p)
  {
    hide AfterAll, Fires, Fired, After, SyncWorker, EventsOf, EarlierFailed, Views, NumberedAt;
    var events := AllEvents(turns);
    var due := Due(a, p, FinishedKey, target);
    FiredExactly(events, due);
    if e :| 0 <= e < |events| && Fires(events[e], due) {
      FinishedFiresBy(events[e], due);
      EventsComeFromTurns(turns, events[e]);
      var k :| ComesFrom(turns, k, events[e]);
      TurnsKeepInv(turns[..k]);
      TurnEnds(ServerAfter(turns[..k]), turns[k], events[e]);
      assert EndsIn(turns, k, a, p);
    }
    if k :| EndsIn(turns, k, a, p) {
      var s := ServerAfter(turns[..k]);
      TurnsKeepInv(turns[..k]);
      TurnEnds(s, turns[k], EndOf(s, a));
      assert ComesFrom(turns, k, EndOf(s, a));
      EventsComeFromTurns(turns, EndOf(s, a));
      var e :| 0 <= e < |events| && events[e] == EndOf(s, a);
      FinishedFiresBy(events[e], due);
    }
  }

  /******* Where firings go *******/

  /** The firing is of a policy of the attempt's job, and goes to that policy's target. */
  predicate GoesToItsTarget(s: Server, f: Due) {
    && f.attempt < |s.attempts| && s.attempts[f.attempt].job < |s.jobs|
    && f.policy < |s.jobs[s.attempts[f.attempt].job].spec.health|
    && f.target == s.jobs[s.attempts[f.attempt].job].spec.health[f.policy].target
  }

  lemma AimedIsTarget(turns: seq<Turn>, k: int, event: Event, f: Due)
    requires ComesFrom(turns, k, event) && Aims(event, f)
    ensures GoesToItsTarget(ServerAfter(turns), f)
  {
    hide ServerAfter, EventsOf, HealthCandidates, Inv;
    var s, t := ServerAfter(turns[..k]), ServerAfter(turns);
    TurnsEvolve(turns, k);
    TurnsKeepInv(turns[..k]);
    if event.Tick? {
      OnlyLooksTick(s, turns[k], event);
      var i :| 0 <= i < |event.candidates| && event.candidates[i].attempt == f.attempt && PolicyTarget(event.candidates[i].policies, f);
      CandidatesAreWatched(s, |s.jobs|, event.candidates[i]);
    } else {
      TurnEnds(s, turns[k], event);
      JobsExist(s, event.attempt);
    }
    assert AttemptEvolvesAt(s, t, f.attempt) && JobEvolvesAt(s, t, s.attempts[f.attempt].job);
  }

  lemma JobsExist(s: Server, a: AttemptId)
    requires Inv(s) && a < |s.attempts|
    ensures s.attempts[a].job < |s.jobs|
  {
  }

  /** Over every run, every firing and its delivery go to the target named by that policy of the attempt's job. */
  lemma FiringsGoToTheirTarget(turns: seq<Turn>, k: nat)
    requires k < |TablesAfter(turns).firings|
    ensures GoesToItsTarget(ServerAfter(turns), TablesAfter(turns).firings[k])
    ensures |TablesAfter(turns).deliveries| == |TablesAfter(turns).firings|
    ensures TablesAfter(turns).deliveries[k] == DeliveryRow(k, TablesAfter(turns).firings[k].target)
  {
    hide AfterAll, GoesToItsTarget, Aims, ComesFrom, ServerAfter;
    var f := TablesAfter(turns).firings[k];
    OneFiringPerKey(AllEvents(turns));
    FiringsAreAimed(AllEvents(turns), f);
    var e :| 0 <= e < |AllEvents(turns)| && Aims(AllEvents(turns)[e], f);
    EventsComeFromTurns(turns, AllEvents(turns)[e]);
    var i :| ComesFrom(turns, i, AllEvents(turns)[e]);
    AimedIsTarget(turns, i, AllEvents(turns)[e], f);
  }

  /******* Samples *******/

  predicate SampledAs(sample: Sample, attempt: AttemptId, name: string) {
    sample.attempt == attempt && sample.sample.name == name && sample.sample.value.Finite?
  }

  /** The rows that are samples of the attempt's metric, in row order. */
  function RowsFor(samples: seq<Sample>, attempt: AttemptId, name: string): seq<nat> {
    if |samples| == 0 then []
    else
      RowsFor(samples[..|samples| - 1], attempt, name) +
      if SampledAs(samples[|samples| - 1], attempt, name) then [|samples| - 1] else []
  }

  lemma {:induction false} RowsAreExact(samples: seq<Sample>, attempt: AttemptId, name: string)
    ensures forall row :: row in RowsFor(samples, attempt, name) <==> 0 <= row < |samples| && SampledAs(samples[row], attempt, name)
    ensures forall i, k :: 0 <= i < k < |RowsFor(samples, attempt, name)| ==>
              RowsFor(samples, attempt, name)[i] < RowsFor(samples, attempt, name)[k]
  {
    if |samples| > 0 {
      var init := samples[..|samples| - 1];
      RowsAreExact(init, attempt, name);
      var before := RowsFor(init, attempt, name);
      assert forall i :: 0 <= i < |before| ==> before[i] in before;
      assert forall row :: 0 <= row < |init| ==> init[row] == samples[row];
    }
  }

  /** What a stall policy reads: the values and times of exactly those rows, in row order. */
  lemma {:induction false} ReadingsAreRows(samples: seq<Sample>, attempt: AttemptId, name: string)
    ensures |SamplesOf(samples, attempt, name)| == |RowsFor(samples, attempt, name)|
    ensures forall k :: 0 <= k < |RowsFor(samples, attempt, name)| ==>
              var row := RowsFor(samples, attempt, name)[k];
              && row < |samples| && samples[row].sample.value.Finite?
              && SamplesOf(samples, attempt, name)[k] == Observation(samples[row].sample.value.v, samples[row].sample.observedAt)
  {
    if |samples| > 0 {
      ReadingsAreRows(samples[..|samples| - 1], attempt, name);
    }
  }
}
