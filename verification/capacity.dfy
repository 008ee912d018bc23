/**
 What the scheduler promises a worker whose declared capacity does not change: the attempts it may be
 executing stay within that capacity after any run, exclusive GPUs are exclusive, and no capacity is
 left idle while an examined job fits.
 */
module CapacityPromises {
  import opened Wrappers
  import opened Domain
  import opened JobSpecs
  import opened Scheduler
  import opened ControlPlane
  import opened Lifecycle
  import opened Runs

  /** The exact load of the attempts the worker may be executing. */
  function HeldLoad(s: Server, worker: WorkerId): Load {
    LoadOf(HeldResources(s, worker, |s.attempts|))
  }

  /******* The running record equals the recomputed one *******/

  /** Two states that agree on the first rows and on the specifications hold the same resources there. */
  lemma {:induction false} HeldAgree(s: Server, t: Server, worker: WorkerId, n: nat)
    requires n <= |s.attempts| && n <= |t.attempts|
    requires forall a :: 0 <= a < n ==> s.attempts[a] == t.attempts[a] && s.attempts[a].job < |s.jobs|
    requires |s.jobs| <= |t.jobs| && forall j :: 0 <= j < |s.jobs| ==> s.jobs[j].spec == t.jobs[j].spec
    ensures HeldResources(s, worker, n) == HeldResources(t, worker, n)
  {
    if n > 0 {
      HeldAgree(s, t, worker, n - 1);
    }
  }

  lemma OfferAddsOne(s: Server, worker: WorkerId, job: JobId, other: WorkerId)
    requires Numbered(s) && job < |s.jobs|
    ensures var next := Offer(s, worker, job);
            HeldResources(next, other, |next.attempts|) ==
            if other == worker
            then HeldResources(s, other, |s.attempts|) + [s.jobs[job].spec.resources]
            else HeldResources(s, other, |s.attempts|)
  {
    HeldAgree(s, Offer(s, worker, job), other, |s.attempts|);
  }

  /** Adding one attempt to the record is recomputing it over the new attempts. */
  lemma IncrementalIsRecomputed(s: Server, worker: WorkerId, job: JobId)
    requires Numbered(s) && job < |s.jobs|
    ensures CurrentAllocation(Offer(s, worker, job), worker) ==
            Occupy(CurrentAllocation(s, worker), s.jobs[job].spec.resources)
    ensures HeldLoad(Offer(s, worker, job), worker) == Plus(HeldLoad(s, worker), s.jobs[job].spec.resources)
  {
    OfferAddsOne(s, worker, job, worker);
    var held := HeldResources(s, worker, |s.attempts|);
    var more := held + [s.jobs[job].spec.resources];
    assert more[..|more| - 1] == held;
  }

  lemma AllocationIsWrappedLoad(s: Server, worker: WorkerId)
    ensures CurrentAllocation(s, worker) == Wrap(HeldLoad(s, worker))
  {
    TallyIsWrappedLoad(HeldResources(s, worker, |s.attempts|));
  }

  /** Offering with the running record, one candidate at a time, recomputing the record after each. */
  lemma OfferStep(s: Server, worker: WorkerId, capacity: Capacity, ids: seq<JobId>)
    requires Numbered(s) && |ids| > 0 && forall k :: 0 <= k < |ids| ==> ids[k] < |s.jobs|
    requires CurrentAllocation(s, worker).active < capacity.maxParallel
    ensures var next := if JobFits(s.jobs[ids[0]].spec, capacity, CurrentAllocation(s, worker))
                        then Offer(s, worker, ids[0]) else s;
            && next.jobs == s.jobs
            && OfferFrom(s, worker, capacity, CurrentAllocation(s, worker), ids) ==
               OfferFrom(next, worker, capacity, CurrentAllocation(next, worker), ids[1..])
  {
    if JobFits(s.jobs[ids[0]].spec, capacity, CurrentAllocation(s, worker)) {
      IncrementalIsRecomputed(s, worker, ids[0]);
    }
  }

  /**
   Offering a list in two parts, recomputing the allocation from the attempts table in between, is
   offering it in one go with the running record.
   */
  lemma {:induction false} OfferInTwoParts(s: Server, worker: WorkerId, capacity: Capacity, first: seq<JobId>, rest: seq<JobId>)
    requires Numbered(s)
    requires forall k :: 0 <= k < |first| ==> first[k] < |s.jobs|
    requires forall k :: 0 <= k < |rest| ==> rest[k] < |s.jobs|
    ensures var mid := OfferFrom(s, worker, capacity, CurrentAllocation(s, worker), first);
            && mid.jobs == s.jobs
            && OfferFrom(s, worker, capacity, CurrentAllocation(s, worker), first + rest) ==
               OfferFrom(mid, worker, capacity, CurrentAllocation(mid, worker), rest)
    decreases |first|
  {
    var all := first + rest;
    if |first| == 0 {
      assert all == rest;
    } else if CurrentAllocation(s, worker).active < capacity.maxParallel {
      assert all[0] == first[0] && all[1..] == first[1..] + rest;
      OfferStep(s, worker, capacity, first);
      OfferStep(s, worker, capacity, all);
      if JobFits(s.jobs[first[0]].spec, capacity, CurrentAllocation(s, worker)) {
        OfferNumbered(s, worker, first[0]);
        OfferInTwoParts(Offer(s, worker, first[0]), worker, capacity, first[1..], rest);
      } else {
        OfferInTwoParts(s, worker, capacity, first[1..], rest);
      }
    }
  }

  /******* Loads only shrink while events are recorded *******/

  lemma {:induction false} LoadBasics(held: seq<Resources>)
    ensures LoadOf(held).exclusiveHolders <= LoadOf(held).gpuHolders
    ensures LoadOf(held).gpuHolders == 0 ==> LoadOf(held).shared == 0
    ensures LoadOf(held).active == |held|
  {
    if |held| > 0 {
      LoadBasics(held[..|held| - 1]);
    }
  }

  /** Every attempt that is still live was live before, on the same worker and job. */
  predicate LiveShrinks(s: Server, t: Server) {
    && |s.attempts| == |t.attempts| && |s.jobs| == |t.jobs|
    && (forall j :: 0 <= j < |s.jobs| ==> s.jobs[j].spec == t.jobs[j].spec)
    && (forall a :: 0 <= a < |s.attempts| ==>
          && s.attempts[a].job == t.attempts[a].job && s.attempts[a].worker == t.attempts[a].worker
          && (Live(t.attempts[a].state) ==> Live(s.attempts[a].state)))
  }

  lemma {:induction false} ShrinkingLoad(s: Server, t: Server, worker: WorkerId, n: nat)
    requires LiveShrinks(s, t) && n <= |s.attempts|
    ensures AtMost(LoadOf(HeldResources(t, worker, n)), LoadOf(HeldResources(s, worker, n)))
  {
    if n > 0 {
      ShrinkingLoad(s, t, worker, n - 1);
      HeldStep(s, worker, n);
      HeldStep(t, worker, n);
      var small, large := LoadOf(HeldResources(t, worker, n - 1)), LoadOf(HeldResources(s, worker, n - 1));
      if Holds(s, s.attempts[n - 1], worker) {
        var resources := ResourcesOf(s, n - 1);
        AddingKeepsAtMost(small, large, resources, Holds(t, t.attempts[n - 1], worker));
      }
    }
  }

  lemma AddingKeepsAtMost(small: Load, large: Load, resources: Resources, both: bool)
    requires AtMost(small, large)
    ensures AtMost(if both then Plus(small, resources) else small, Plus(large, resources))
  {
  }

  function ResourcesOf(s: Server, a: int): Resources
    requires 0 <= a < |s.attempts| && s.attempts[a].job < |s.jobs|
  {
    s.jobs[s.attempts[a].job].spec.resources
  }

  /** One row's contribution to the exact load. */
  lemma HeldStep(s: Server, worker: WorkerId, n: nat)
    requires 0 < n <= |s.attempts|
    ensures var before := LoadOf(HeldResources(s, worker, n - 1));
            LoadOf(HeldResources(s, worker, n)) ==
            if Holds(s, s.attempts[n - 1], worker) then Plus(before, ResourcesOf(s, n - 1)) else before
  {
    if Holds(s, s.attempts[n - 1], worker) {
      var more := HeldResources(s, worker, n);
      assert more[..|more| - 1] == HeldResources(s, worker, n - 1);
    }
  }

  lemma ShrinkingKeepsWithin(s: Server, t: Server, worker: WorkerId, capacity: Capacity)
    requires LiveShrinks(s, t) && Within(HeldLoad(s, worker), capacity)
    ensures Within(HeldLoad(t, worker), capacity)
  {
    ShrinkingLoad(s, t, worker, |s.attempts|);
    LoadBasics(HeldResources(t, worker, |t.attempts|));
  }

  lemma EvolvingShrinks(s: Server, t: Server)
    requires Evolves(s, t) && |s.attempts| == |t.attempts| && |s.jobs| == |t.jobs|
    ensures LiveShrinks(s, t)
  {
    forall j | 0 <= j < |s.jobs| ensures s.jobs[j].spec == t.jobs[j].spec {
      assert JobEvolvesAt(s, t, j);
    }
    forall a | 0 <= a < |s.attempts|
      ensures s.attempts[a].job == t.attempts[a].job && s.attempts[a].worker == t.attempts[a].worker
      ensures Live(t.attempts[a].state) ==> Live(s.attempts[a].state)
    {
      assert AttemptEvolvesAt(s, t, a);
    }
  }

  lemma {:induction false} RecordAllKeepsTables(s: Server, worker: WorkerId, session: SessionId, events: seq<WorkerEvent>)
    requires RecordAll(s, worker, session, events).Ok?
    ensures var t := RecordAll(s, worker, session, events).value;
            |t.attempts| == |s.attempts| && |t.jobs| == |s.jobs|
    decreases |events|
  {
    if |events| > 0 {
      RecordAllKeepsTables(RecordWorkerEvent(s, worker, session, events[0]).value, worker, session, events[1..]);
    }
  }

  /******* Offering stays within the capacity *******/

  predicate JobsNeverMisjudged(s: Server, capacity: Capacity) {
    forall j :: 0 <= j < |s.jobs| ==> NeverMisjudged(s.jobs[j].spec, capacity)
  }

  lemma OfferStaysWithin(s: Server, worker: WorkerId, capacity: Capacity, job: JobId)
    requires Inv(s) && job < |s.jobs| && ValidSpec(s.jobs[job].spec) && NeverMisjudged(s.jobs[job].spec, capacity)
    requires Within(HeldLoad(s, worker), capacity)
    requires CurrentAllocation(s, worker).active < capacity.maxParallel
    requires JobFits(s.jobs[job].spec, capacity, CurrentAllocation(s, worker))
    ensures Within(HeldLoad(Offer(s, worker, job), worker), capacity)
  {
    var load := HeldLoad(s, worker);
    AllocationIsWrappedLoad(s, worker);
    SmallIsItself(load.active, TWO32);
    FitsIsAdmits(s.jobs[job].spec, capacity, load);
    AdmitsKeepsWithin(s.jobs[job].spec, capacity, load);
    IncrementalIsRecomputed(s, worker, job);
  }

  /** What offering to the first of the candidates leaves to be said about the rest. */
  lemma OfferFirstStaysWithin(s: Server, worker: WorkerId, capacity: Capacity, ids: seq<JobId>)
    requires Inv(s) && SpecsOk(s) && JobsNeverMisjudged(s, capacity) && |ids| > 0
    requires AllSchedulable(s, ids) && Distinct(ids)
    requires Within(HeldLoad(s, worker), capacity)
    requires CurrentAllocation(s, worker).active < capacity.maxParallel
    requires JobFits(s.jobs[ids[0]].spec, capacity, CurrentAllocation(s, worker))
    ensures var next := Offer(s, worker, ids[0]);
            && Inv(next) && SpecsOk(next) && JobsNeverMisjudged(next, capacity)
            && AllSchedulable(next, ids[1..]) && Distinct(ids[1..])
            && Within(HeldLoad(next, worker), capacity) && AtMost(HeldLoad(s, worker), HeldLoad(next, worker))
            && CurrentAllocation(next, worker) == Occupy(CurrentAllocation(s, worker), s.jobs[ids[0]].spec.resources)
  {
    OfferFirst(s, worker, ids);
    OfferStaysWithin(s, worker, capacity, ids[0]);
    IncrementalIsRecomputed(s, worker, ids[0]);
  }

  lemma {:induction false} OfferFromStaysWithin(s: Server, worker: WorkerId, capacity: Capacity, ids: seq<JobId>)
    requires Inv(s) && SpecsOk(s) && JobsNeverMisjudged(s, capacity)
    requires AllSchedulable(s, ids) && Distinct(ids)
    requires Within(HeldLoad(s, worker), capacity)
    ensures Within(HeldLoad(OfferFrom(s, worker, capacity, CurrentAllocation(s, worker), ids), worker), capacity)
    ensures AtMost(HeldLoad(s, worker), HeldLoad(OfferFrom(s, worker, capacity, CurrentAllocation(s, worker), ids), worker))
    decreases |ids|
  {
    if |ids| > 0 && CurrentAllocation(s, worker).active < capacity.maxParallel {
      if JobFits(s.jobs[ids[0]].spec, capacity, CurrentAllocation(s, worker)) {
        OfferFirstStaysWithin(s, worker, capacity, ids);
        OfferFromStaysWithin(Offer(s, worker, ids[0]), worker, capacity, ids[1..]);
      } else {
        OfferFromStaysWithin(s, worker, capacity, ids[1..]);
      }
    }
  }

  /** Offering to one worker leaves every other worker's load alone. */
  lemma {:induction false} OfferFromIsLocal(s: Server, worker: WorkerId, capacity: Capacity, allocation: Allocation, ids: seq<JobId>, other: WorkerId)
    requires Inv(s) && AllSchedulable(s, ids) && Distinct(ids) && other != worker
    ensures HeldLoad(OfferFrom(s, worker, capacity, allocation, ids), other) == HeldLoad(s, other)
    decreases |ids|
  {
    if |ids| > 0 && allocation.active < capacity.maxParallel {
      var spec := s.jobs[ids[0]].spec;
      if JobFits(spec, capacity, allocation) {
        OfferFirst(s, worker, ids);
        OfferAddsOne(s, worker, ids[0], other);
        OfferFromIsLocal(Offer(s, worker, ids[0]), worker, capacity, Occupy(allocation, spec.resources), ids[1..], other);
      } else {
        OfferFromIsLocal(s, worker, capacity, allocation, ids[1..], other);
      }
    }
  }

  lemma OfferJobsStaysWithin(s: Server, worker: WorkerId, declared: Capacity, other: WorkerId, capacity: Capacity)
    requires Inv(s) && SpecsOk(s) && JobsNeverMisjudged(s, capacity)
    requires Within(HeldLoad(s, other), capacity)
    requires other == worker ==> capacity == Normalize(declared)
    ensures Within(HeldLoad(OfferJobs(s, worker, declared), other), capacity)
  {
    CandidatesAreSchedulable(s);
    if other == worker {
      OfferFromStaysWithin(s, worker, capacity, Candidates(s));
    } else {
      OfferFromIsLocal(s, worker, Normalize(declared), CurrentAllocation(s, worker), Candidates(s), other);
    }
  }

  /** Recording events first. */
  lemma RecordStaysWithin(s: Server, request: SyncRequest, worker: WorkerId, capacity: Capacity)
    requires Inv(s) && SpecsOk(s) && JobsNeverMisjudged(s, capacity)
    requires Within(HeldLoad(s, worker), capacity)
    requires RecordAll(s, request.worker, request.session, request.events).Ok?
    ensures var t := RecordAll(s, request.worker, request.session, request.events).value;
            Inv(t) && SpecsOk(t) && JobsNeverMisjudged(t, capacity) && Within(HeldLoad(t, worker), capacity)
  {
    var t := RecordAll(s, request.worker, request.session, request.events).value;
    RecordAllPreserves(s, request.worker, request.session, request.events);
    RecordAllKeepsTables(s, request.worker, request.session, request.events);
    EvolvingShrinks(s, t);
    ShrinkingKeepsWithin(s, t, worker, capacity);
    SpecsCarryOver(s, t, capacity);
  }

  /** One operation; a sync of the worker itself must declare the fixed capacity. */
  lemma DoStaysWithin(s: Server, op: Op, worker: WorkerId, declared: Capacity)
    requires Inv(s) && SpecsOk(s) && JobsNeverMisjudged(s, Normalize(declared))
    requires Within(HeldLoad(s, worker), Normalize(declared))
    requires op.Sync? && op.request.worker == worker ==> op.request.capacity == declared
    ensures Within(HeldLoad(Do(s, op), worker), Normalize(declared))
  {
    if op.Sync? {
      var r := op.request;
      var recorded := RecordAll(s, r.worker, r.session, r.events);
      if r.worker in s.workers && recorded.Ok? {
        RecordStaysWithin(s, r, worker, Normalize(declared));
        OfferJobsStaysWithin(recorded.value, r.worker, r.capacity, worker, Normalize(declared));
      }
    } else {
      OtherOpsKeepHeld(s, op, worker);
    }
  }

  lemma OtherOpsKeepHeld(s: Server, op: Op, worker: WorkerId)
    requires Inv(s) && !op.Sync?
    ensures HeldLoad(Do(s, op), worker) == HeldLoad(s, worker)
  {
    DoPreserves(s, op);
    var t := Do(s, op);
    forall j | 0 <= j < |s.jobs| ensures s.jobs[j].spec == t.jobs[j].spec {
      assert JobEvolvesAt(s, t, j);
    }
    HeldAgree(s, t, worker, |s.attempts|);
  }

  lemma SpecsCarryOver(s: Server, t: Server, capacity: Capacity)
    requires LiveShrinks(s, t) && SpecsOk(s) && JobsNeverMisjudged(s, capacity)
    ensures SpecsOk(t) && JobsNeverMisjudged(t, capacity)
  {
  }

  /** Every sync of the worker declares this capacity, and the fit test misjudges no submitted job against it. */
  predicate FixedCapacity(ops: seq<Op>, worker: WorkerId, declared: Capacity) {
    && (forall i :: 0 <= i < |ops| && ops[i].Sync? && ops[i].request.worker == worker ==>
          ops[i].request.capacity == declared)
    && (forall i :: 0 <= i < |ops| && ops[i].Submit? ==> NeverMisjudged(ops[i].spec, Normalize(declared)))
  }

  lemma DoKeepsJudgement(s: Server, op: Op, capacity: Capacity)
    requires Inv(s) && JobsNeverMisjudged(s, capacity)
    requires op.Submit? ==> NeverMisjudged(op.spec, capacity)
    ensures JobsNeverMisjudged(Do(s, op), capacity)
  {
    DoPreserves(s, op);
    var t := Do(s, op);
    forall j | 0 <= j < |t.jobs| ensures NeverMisjudged(t.jobs[j].spec, capacity) {
      if j < |s.jobs| {
        assert JobEvolvesAt(s, t, j);
      } else if op.Sync? {
        SyncKeepsKeyTable(s, op.request);
      }
    }
  }

  lemma {:induction false} RunStaysWithin(s: Server, ops: seq<Op>, worker: WorkerId, declared: Capacity)
    requires Inv(s) && SpecsOk(s) && JobsNeverMisjudged(s, Normalize(declared))
    requires Within(HeldLoad(s, worker), Normalize(declared))
    requires FixedCapacity(ops, worker, declared)
    ensures Within(HeldLoad(Run(s, ops), worker), Normalize(declared))
    decreases |ops|
  {
    if |ops| > 0 {
      DoPreserves(s, ops[0]);
      DoKeepsSpecs(s, ops[0]);
      DoKeepsJudgement(s, ops[0], Normalize(declared));
      DoStaysWithin(s, ops[0], worker, declared);
      RunStaysWithin(Do(s, ops[0]), ops[1..], worker, declared);
    }
  }

  predicate HeldBy(s: Server, a: int, worker: WorkerId) {
    0 <= a < |s.attempts| && Holds(s, s.attempts[a], worker)
  }

  /** An attempt that holds a GPU exclusively is the only one on the worker that holds any. */
  predicate ExclusiveAlone(s: Server, worker: WorkerId) {
    forall a: int, b: int | 0 <= a < |s.attempts| && 0 <= b < |s.attempts| && a != b ::
      HeldBy(s, a, worker) && HeldBy(s, b, worker) && HoldsExclusive(ResourcesOf(s, a)) ==> !HoldsGpu(ResourcesOf(s, b))
  }

  lemma {:induction false} HoldersCounted(s: Server, worker: WorkerId, n: nat, a: int, b: int)
    requires a < b < n <= |s.attempts| && HeldBy(s, a, worker) && HeldBy(s, b, worker)
    ensures var load := LoadOf(HeldResources(s, worker, n));
            load.gpuHolders >= (if HoldsGpu(ResourcesOf(s, a)) then 1 else 0) + (if HoldsGpu(ResourcesOf(s, b)) then 1 else 0)
            && (HoldsExclusive(ResourcesOf(s, a)) || HoldsExclusive(ResourcesOf(s, b)) ==> load.exclusiveHolders > 0)
  {
    HeldStep(s, worker, n);
    if b < n - 1 {
      HoldersCounted(s, worker, n - 1, a, b);
    } else {
      OneHolderCounted(s, worker, n - 1, a);
    }
  }

  lemma {:induction false} OneHolderCounted(s: Server, worker: WorkerId, n: nat, a: int)
    requires a < n <= |s.attempts| && HeldBy(s, a, worker)
    ensures var load := LoadOf(HeldResources(s, worker, n));
            && (HoldsGpu(ResourcesOf(s, a)) ==> load.gpuHolders > 0)
            && (HoldsExclusive(ResourcesOf(s, a)) ==> load.exclusiveHolders > 0)
  {
    HeldStep(s, worker, n);
    if a < n - 1 {
      OneHolderCounted(s, worker, n - 1, a);
    }
  }

  /**
   The promises to a worker of fixed capacity, after any run: bounded parallelism, every declared
   capacity respected in exact sums, shared slots respected, and an attempt that holds a GPU
   exclusively is the only one on the worker that holds any GPU.
   */
  lemma CapacityIsRespected(ops: seq<Op>, worker: WorkerId, declared: Capacity)
    requires FixedCapacity(ops, worker, declared)
    ensures var s := Run(EMPTY, ops);
            var load := HeldLoad(s, worker);
            && |HeldResources(s, worker, |s.attempts|)| <= (if declared.maxParallel == 0 then 1 else declared.maxParallel)
            && (declared.cpu > 0 ==> load.cpu <= declared.cpu)
            && (declared.memoryBytes > 0 ==> load.memoryBytes <= declared.memoryBytes)
            && load.shared <= (if declared.gpuSharedSlots == 0 then declared.gpuCount else declared.gpuSharedSlots)
            && ExclusiveAlone(s, worker)
  {
    EmptyInv();
    RunStaysWithin(EMPTY, ops, worker, declared);
    var s := Run(EMPTY, ops);
    ExclusiveIsAlone(s, worker, Normalize(declared));
    LoadBasics(HeldResources(s, worker, |s.attempts|));
  }

  lemma ExclusiveIsAlone(s: Server, worker: WorkerId, capacity: Capacity)
    requires Within(HeldLoad(s, worker), capacity)
    ensures ExclusiveAlone(s, worker)
  {
    forall a, b | a != b && HeldBy(s, a, worker) && HeldBy(s, b, worker) && HoldsExclusive(ResourcesOf(s, a))
      ensures !HoldsGpu(ResourcesOf(s, b))
    {
      HoldersCounted(s, worker, |s.attempts|, if a < b then a else b, if a < b then b else a);
    }
  }

  /******* The greedy choice *******/

  /** Offering adds attempts only to the listed jobs. */
  lemma {:induction false} OnlyListedAreOffered(s: Server, worker: WorkerId, capacity: Capacity, allocation: Allocation, ids: seq<JobId>, job: JobId)
    requires forall k :: 0 <= k < |ids| ==> ids[k] < |s.jobs|
    requires job !in ids
    ensures HasLiveAttempt(OfferFrom(s, worker, capacity, allocation, ids).attempts, job) <==> HasLiveAttempt(s.attempts, job)
    decreases |ids|
  {
    if |ids| > 0 && allocation.active < capacity.maxParallel {
      var spec := s.jobs[ids[0]].spec;
      if JobFits(spec, capacity, allocation) {
        var next := Offer(s, worker, ids[0]);
        assert HasLiveAttempt(next.attempts, job) <==> HasLiveAttempt(s.attempts, job) by {
          assert ids[0] != job;
          if HasLiveAttempt(s.attempts, job) {
            var a :| 0 <= a < |s.attempts| && s.attempts[a].job == job && Live(s.attempts[a].state);
            assert next.attempts[a] == s.attempts[a];
          }
        }
        OnlyListedAreOffered(next, worker, capacity, Occupy(allocation, spec.resources), ids[1..], job);
      } else {
        OnlyListedAreOffered(s, worker, capacity, allocation, ids[1..], job);
      }
    }
  }

  /** The state after the first `p` candidates have been examined. */
  function Examined(s: Server, worker: WorkerId, declared: Capacity, p: nat): Server
    requires p <= |Candidates(s)|
  {
    OfferFrom(s, worker, Normalize(declared), CurrentAllocation(s, worker), Candidates(s)[..p])
  }

  /**
   Priority: a candidate gets an attempt exactly when it fits beside what the worker already held and
   what was offered to the candidates ahead of it; a lower-ranked job never takes its place.
   */
  lemma OfferedIffItFitsInTurn(s: Server, worker: WorkerId, declared: Capacity, p: nat)
    requires Inv(s) && p < |Candidates(s)|
    ensures var job := Candidates(s)[p];
            var turn := CurrentAllocation(Examined(s, worker, declared, p), worker);
            var capacity := Normalize(declared);
            HasLiveAttempt(OfferJobs(s, worker, declared).attempts, job) <==>
            turn.active < capacity.maxParallel && JobFits(s.jobs[job].spec, capacity, turn)
  {
    CandidatesAreSchedulable(s);
    var c := Candidates(s);
    var capacity := Normalize(declared);
    var allocation := CurrentAllocation(s, worker);
    var job := c[p];
    assert c == c[..p] + c[p..];
    OfferInTwoParts(s, worker, capacity, c[..p], c[p..]);
    var mid := Examined(s, worker, declared, p);
    assert job !in c[..p];
    OnlyListedAreOffered(s, worker, capacity, allocation, c[..p], job);
    OfferFromKeepsJobs(s, worker, capacity, allocation, c[..p]);
    var turn := CurrentAllocation(mid, worker);
    assert c[p..][0] == job && c[p..][1..] == c[p + 1..];
    assert job !in c[p + 1..];
    if turn.active < capacity.maxParallel {
      if JobFits(s.jobs[job].spec, capacity, turn) {
        var next := Offer(mid, worker, job);
        assert next.attempts[|mid.attempts|].job == job && Live(next.attempts[|mid.attempts|].state);
        OnlyListedAreOffered(next, worker, capacity, Occupy(turn, s.jobs[job].spec.resources), c[p + 1..], job);
      } else {
        OnlyListedAreOffered(mid, worker, capacity, turn, c[p + 1..], job);
      }
    }
  }

  /**
   Work conservation: when offering ends, either the worker is at its parallelism or no examined job
   that was left waiting fits what remains.
   */
  lemma NoExaminedJobStillFits(s: Server, worker: WorkerId, declared: Capacity, p: nat)
    requires Inv(s) && SpecsOk(s) && JobsNeverMisjudged(s, Normalize(declared))
    requires Within(HeldLoad(s, worker), Normalize(declared))
    requires p < |Candidates(s)|
    ensures var t := OfferJobs(s, worker, declared);
            var job := Candidates(s)[p];
            || HeldLoad(t, worker).active == (if declared.maxParallel == 0 then 1 else declared.maxParallel)
            || HasLiveAttempt(t.attempts, job)
            || !JobFits(s.jobs[job].spec, Normalize(declared), CurrentAllocation(t, worker))
  {
    hide JobsNeverMisjudged, SpecsOk, OfferFrom, HeldResources, JobFits, Admits, NeverMisjudged, EarlierFailed, Views, Add32;
    CandidatesAreSchedulable(s);
    var c := Candidates(s);
    var capacity := Normalize(declared);
    var job := c[p];
    OfferedIffItFitsInTurn(s, worker, declared, p);
    var mid := Examined(s, worker, declared, p);
    var t := OfferJobs(s, worker, declared);
    assert c == c[..p] + c[p..];
    OfferInTwoParts(s, worker, capacity, c[..p], c[p..]);
    OfferFromStaysWithin(s, worker, capacity, c[..p]);
    ExaminedKeepsOffering(s, worker, capacity, c[..p], c[p..]);
    OfferFromStaysWithin(mid, worker, capacity, c[p..]);
    AllocationIsWrappedLoad(mid, worker);
    AllocationIsWrappedLoad(t, worker);
    SmallIsItself(HeldLoad(mid, worker).active, TWO32);
    if HeldLoad(t, worker).active < capacity.maxParallel && !HasLiveAttempt(t.attempts, job) {
      FitIsAntitone(s.jobs[job].spec, capacity, HeldLoad(mid, worker), HeldLoad(t, worker));
    }
  }

  /** After the first part, the rest is still schedulable and the invariants still hold. */
  lemma ExaminedKeepsOffering(s: Server, worker: WorkerId, capacity: Capacity, first: seq<JobId>, rest: seq<JobId>)
    requires Inv(s) && SpecsOk(s) && JobsNeverMisjudged(s, capacity)
    requires AllSchedulable(s, first + rest) && Distinct(first + rest)
    requires forall k :: 0 <= k < |first| ==> first[k] < |s.jobs|
    ensures var mid := OfferFrom(s, worker, capacity, CurrentAllocation(s, worker), first);
            && Inv(mid) && SpecsOk(mid) && JobsNeverMisjudged(mid, capacity)
            && AllSchedulable(mid, rest) && Distinct(rest)
  {
    var all := first + rest;
    var mid := OfferFrom(s, worker, capacity, CurrentAllocation(s, worker), first);
    assert forall k :: 0 <= k < |first| ==> all[k] == first[k];
    assert forall k :: 0 <= k < |rest| ==> all[|first| + k] == rest[k];
    OfferFromPreserves(s, worker, capacity, CurrentAllocation(s, worker), first);
    OfferFromKeepsJobs(s, worker, capacity, CurrentAllocation(s, worker), first);
    forall k | 0 <= k < |rest| ensures rest[k] < |mid.jobs| && Schedulable(mid, rest[k]) {
      assert Schedulable(s, all[|first| + k]);
      assert rest[k] !in first;
      OnlyListedAreOffered(s, worker, capacity, CurrentAllocation(s, worker), first, rest[k]);
    }
  }
}
