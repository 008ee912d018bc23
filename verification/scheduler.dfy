/**
 Resource accounting and the fit test.

 The source keeps one allocation record in machine words.  Beside it stands `Load`, the exact sums
 over the attempts a worker holds; the record is always the exact load reduced to machine words,
 and the fit test decides like the exact one exactly when no request can wrap against the capacity
 or the job is refused in any case.
 */
module Scheduler {
  import opened Domain

  datatype Allocation = Allocation(
    cpu: uint32, memoryBytes: uint64, gpuSharedSlots: uint32, gpuExclusive: bool, gpuInUse: bool, active: uint32)

  const NO_ALLOCATION := Allocation(0, 0, 0, false, false, 0)

  /** Addition that wraps around, on operands that are words themselves. */
  function Add32(a: uint32, b: uint32): uint32 {
    if a + b < TWO32 then a + b else a + b - TWO32
  }

  function Add64(a: uint64, b: uint64): uint64 {
    if a + b < TWO64 then a + b else a + b - TWO64
  }

  /******* The source's arithmetic *******/

  function AddGpus(allocation: Allocation, gpus: seq<GpuRequest>): Allocation
    decreases |gpus|
  {
    if |gpus| == 0 then allocation else
      var before := AddGpus(allocation, gpus[..|gpus| - 1]);
      var gpu := gpus[|gpus| - 1];
      if gpu.sharing.GpuExclusive? then
        before.(gpuInUse := true, gpuExclusive := true)
      else
        before.(gpuInUse := true, gpuSharedSlots := Add32(before.gpuSharedSlots, gpu.count))
  }

  function AddAllocation(allocation: Allocation, resources: Resources): Allocation {
    AddGpus(
      allocation.(cpu := Add32(allocation.cpu, resources.cpu),
                  memoryBytes := Add64(allocation.memoryBytes, resources.memoryBytes)),
      resources.gpus)
  }

  /** One more active attempt. */
  function Occupy(allocation: Allocation, resources: Resources): Allocation {
    var added := AddAllocation(allocation, resources);
    added.(active := Add32(added.active, 1))
  }

  /** The allocation of a list of attempts, in row order. */
  function Tally(held: seq<Resources>): Allocation {
    if |held| == 0 then NO_ALLOCATION else Occupy(Tally(held[..|held| - 1]), held[|held| - 1])
  }

  function WrappedDemand(gpus: seq<GpuRequest>, sharing: GpuSharing): uint32 {
    if |gpus| == 0 then 0 else
      var before := WrappedDemand(gpus[..|gpus| - 1], sharing);
      if gpus[|gpus| - 1].sharing == sharing then Add32(before, gpus[|gpus| - 1].count) else before
  }

  /** Zero parallelism means one; zero shared slots means one slot per GPU. */
  function Normalize(capacity: Capacity): Capacity {
    var c := if capacity.maxParallel == 0 then capacity.(maxParallel := 1) else capacity;
    if c.gpuSharedSlots == 0 then c.(gpuSharedSlots := c.gpuCount) else c
  }

  /** Everything else is as it was declared. */
  lemma NormalizedMeans(capacity: Capacity)
    ensures Normalize(capacity) ==
            capacity.(maxParallel := if capacity.maxParallel == 0 then 1 else capacity.maxParallel,
                      gpuSharedSlots := if capacity.gpuSharedSlots == 0 then capacity.gpuCount else capacity.gpuSharedSlots)
  {
  }

  function Label(labels: map<string, string>, name: string): string {
    if name in labels then labels[name] else ""
  }

  /** Project and label constraints, which do not depend on the allocation. */
  predicate Eligible(spec: JobSpec, capacity: Capacity) {
    && spec.project in capacity.projects
    && forall name :: name in spec.labels ==> Label(capacity.labels, name) == spec.labels[name]
  }

  predicate JobFits(spec: JobSpec, capacity: Capacity, allocation: Allocation) {
    var exclusive := WrappedDemand(spec.resources.gpus, GpuExclusive);
    var shared := WrappedDemand(spec.resources.gpus, GpuShared);
    && Eligible(spec, capacity)
    && !(capacity.cpu > 0 && Add32(allocation.cpu, spec.resources.cpu) > capacity.cpu)
    && !(capacity.memoryBytes > 0 && Add64(allocation.memoryBytes, spec.resources.memoryBytes) > capacity.memoryBytes)
    && if exclusive > 0 then
         !allocation.gpuInUse && shared == 0 && exclusive <= capacity.gpuCount
       else if shared > 0 then
         !allocation.gpuExclusive && Add32(allocation.gpuSharedSlots, shared) <= capacity.gpuSharedSlots
       else
         true
  }

  /******* The record as the source updates it *******/

  class ResourceAllocation {
    var cpu: uint32
    var memoryBytes: uint64
    var gpuSharedSlots: uint32
    var gpuExclusive: bool
    var gpuInUse: bool
    var active: uint32

    function Value(): Allocation
      reads this
    {
      Allocation(cpu, memoryBytes, gpuSharedSlots, gpuExclusive, gpuInUse, active)
    }

    constructor ()
      ensures Value() == NO_ALLOCATION
    {
      cpu, memoryBytes, gpuSharedSlots, active := 0, 0, 0, 0;
      gpuExclusive, gpuInUse := false, false;
    }

    method Add(resources: Resources)
      modifies this
      ensures Value() == AddAllocation(old(Value()), resources)
    {
      cpu := Add32(cpu, resources.cpu);
      memoryBytes := Add64(memoryBytes, resources.memoryBytes);
      ghost var start := Value();
      var i := 0;
      while i < |resources.gpus|
        invariant 0 <= i <= |resources.gpus|
        invariant Value() == AddGpus(start, resources.gpus[..i])
      {
        assert resources.gpus[..i + 1][..i] == resources.gpus[..i];
        var gpu := resources.gpus[i];
        gpuInUse := true;
        if gpu.sharing == GpuExclusive {
          gpuExclusive := true;
        } else {
          gpuSharedSlots := Add32(gpuSharedSlots, gpu.count);
        }
        i := i + 1;
      }
      assert resources.gpus[..i] == resources.gpus;
    }

    method CountActive()
      modifies `active
      ensures Value() == old(Value()).(active := Add32(old(active), 1))
    {
      active := Add32(active, 1);
    }

    /** The fit test with its two running GPU totals. */
    method Fits(spec: JobSpec, capacity: Capacity) returns (fits: bool)
      ensures fits == JobFits(spec, capacity, Value())
    {
      if spec.project !in capacity.projects {
        return false;
      }
      if exists name :: name in spec.labels && Label(capacity.labels, name) != spec.labels[name] {
        return false;
      }
      if capacity.cpu > 0 && Add32(cpu, spec.resources.cpu) > capacity.cpu {
        return false;
      }
      if capacity.memoryBytes > 0 && Add64(memoryBytes, spec.resources.memoryBytes) > capacity.memoryBytes {
        return false;
      }
      var gpus := spec.resources.gpus;
      var exclusive: uint32, shared: uint32 := 0, 0;
      var i := 0;
      while i < |gpus|
        invariant 0 <= i <= |gpus|
        invariant exclusive == WrappedDemand(gpus[..i], GpuExclusive)
        invariant shared == WrappedDemand(gpus[..i], GpuShared)
      {
        assert gpus[..i + 1][..i] == gpus[..i];
        if gpus[i].sharing == GpuExclusive {
          exclusive := Add32(exclusive, gpus[i].count);
        } else {
          shared := Add32(shared, gpus[i].count);
        }
        i := i + 1;
      }
      assert gpus[..i] == gpus;
      if exclusive > 0 {
        return !gpuInUse && shared == 0 && exclusive <= capacity.gpuCount;
      }
      if shared > 0 {
        return !gpuExclusive && Add32(gpuSharedSlots, shared) <= capacity.gpuSharedSlots;
      }
      return true;
    }
  }

  /******* Exact accounting *******/

  datatype Load = Load(
    cpu: nat, memoryBytes: nat, shared: nat, exclusiveHolders: nat, gpuHolders: nat, active: nat)

  const NO_LOAD := Load(0, 0, 0, 0, 0, 0)

  function Demand(gpus: seq<GpuRequest>, sharing: GpuSharing): nat {
    if |gpus| == 0 then 0 else
      Demand(gpus[..|gpus| - 1], sharing) +
      if gpus[|gpus| - 1].sharing == sharing then gpus[|gpus| - 1].count else 0
  }

  predicate HoldsGpu(resources: Resources) {
    |resources.gpus| > 0
  }

  predicate HoldsExclusive(resources: Resources) {
    AnyExclusive(resources.gpus)
  }

  function Plus(load: Load, resources: Resources): Load {
    Load(
      load.cpu + resources.cpu,
      load.memoryBytes + resources.memoryBytes,
      load.shared + Demand(resources.gpus, GpuShared),
      load.exclusiveHolders + if HoldsExclusive(resources) then 1 else 0,
      load.gpuHolders + if HoldsGpu(resources) then 1 else 0,
      load.active + 1)
  }

  function LoadOf(held: seq<Resources>): Load {
    if |held| == 0 then NO_LOAD else Plus(LoadOf(held[..|held| - 1]), held[|held| - 1])
  }

  /** The machine-word record of an exact load. */
  function Wrap(load: Load): Allocation {
    Allocation(
      load.cpu % TWO32, load.memoryBytes % TWO64, load.shared % TWO32,
      load.exclusiveHolders > 0, load.gpuHolders > 0, load.active % TWO32)
  }

  lemma Remainder32(x: nat, quotient: nat, remainder: nat)
    requires x == 0x1_0000_0000 * quotient + remainder && remainder < 0x1_0000_0000
    ensures x % TWO32 == remainder
  {
  }

  lemma Remainder64(x: nat, quotient: nat, remainder: nat)
    requires x == 0x1_0000_0000_0000_0000 * quotient + remainder && remainder < 0x1_0000_0000_0000_0000
    ensures x % TWO64 == remainder
  {
  }

  /** Wrapping around is reducing modulo the word size. */
  lemma WrappingIsModulo(a: uint32, b: uint32, c: uint64, d: uint64)
    ensures Add32(a, b) == (a + b) % TWO32
    ensures Add64(c, d) == (c + d) % TWO64
  {
    if a + b >= TWO32 {
      Remainder32(a + b, 1, a + b - TWO32);
    }
    if c + d >= TWO64 {
      Remainder64(c + d, 1, c + d - TWO64);
    }
  }

  /** Reducing early does not change the reduced sum. */
  lemma AddModulo(a: nat, b: nat, word: nat)
    requires word == TWO32 || word == TWO64
    ensures (a % word + b) % word == (a + b) % word
  {
    var p, q := a / word, (a % word + b) / word;
    if word == TWO32 {
      Remainder32(a + b, p + q, (a % TWO32 + b) % TWO32);
    } else {
      Remainder64(a + b, p + q, (a % TWO64 + b) % TWO64);
    }
  }

  predicate AnyExclusive(gpus: seq<GpuRequest>) {
    exists i :: 0 <= i < |gpus| && gpus[i].sharing.GpuExclusive?
  }

  lemma AnyExclusiveStep(gpus: seq<GpuRequest>)
    requires |gpus| > 0
    ensures AnyExclusive(gpus) <==> AnyExclusive(gpus[..|gpus| - 1]) || gpus[|gpus| - 1].sharing.GpuExclusive?
  {
    var init := gpus[..|gpus| - 1];
    if AnyExclusive(gpus) {
      var i :| 0 <= i < |gpus| && gpus[i].sharing.GpuExclusive?;
      assert i < |init| ==> init[i] == gpus[i];
    }
  }

  /** One counter: reducing before an addition of words does not change the reduced sum. */
  lemma ReducedSum32(a: nat, b: uint32)
    ensures Add32(a % TWO32, b) == (a + b) % TWO32
  {
    AddModulo(a, b, TWO32);
    WrappingIsModulo(a % TWO32, b, 0, 0);
  }

  lemma ReducedSum64(a: nat, b: uint64)
    ensures Add64(a % TWO64, b) == (a + b) % TWO64
  {
    AddModulo(a, b, TWO64);
    WrappingIsModulo(0, 0, a % TWO64, b);
  }

  lemma {:induction false} AddGpusKeepsOthers(allocation: Allocation, gpus: seq<GpuRequest>)
    ensures var added := AddGpus(allocation, gpus);
            && added.cpu == allocation.cpu && added.memoryBytes == allocation.memoryBytes && added.active == allocation.active
            && added.gpuInUse == (allocation.gpuInUse || |gpus| > 0)
  {
    if |gpus| > 0 {
      AddGpusKeepsOthers(allocation, gpus[..|gpus| - 1]);
    }
  }

  lemma {:induction false} AddGpusExclusive(allocation: Allocation, gpus: seq<GpuRequest>)
    ensures AddGpus(allocation, gpus).gpuExclusive == (allocation.gpuExclusive || AnyExclusive(gpus))
  {
    if |gpus| > 0 {
      AddGpusExclusive(allocation, gpus[..|gpus| - 1]);
      AnyExclusiveStep(gpus);
    }
  }

  lemma {:induction false} AddGpusShared(allocation: Allocation, shared: nat, gpus: seq<GpuRequest>)
    requires allocation.gpuSharedSlots == shared % TWO32
    ensures AddGpus(allocation, gpus).gpuSharedSlots == (shared + Demand(gpus, GpuShared)) % TWO32
  {
    if |gpus| > 0 {
      var init, last := gpus[..|gpus| - 1], gpus[|gpus| - 1];
      AddGpusShared(allocation, shared, init);
      ReducedSum32(shared + Demand(init, GpuShared), last.count);
    }
  }

  /** Adding in machine words is adding exactly and then reducing. */
  lemma OccupyIsWrappedPlus(load: Load, resources: Resources)
    ensures Occupy(Wrap(load), resources) == Wrap(Plus(load, resources))
  {
    hide Add32, Add64;
    var base := Wrap(load).(cpu := Add32(Wrap(load).cpu, resources.cpu),
                            memoryBytes := Add64(Wrap(load).memoryBytes, resources.memoryBytes));
    ReducedSum32(load.cpu, resources.cpu);
    ReducedSum64(load.memoryBytes, resources.memoryBytes);
    ReducedSum32(load.active, 1);
    AddGpusKeepsOthers(base, resources.gpus);
    AddGpusExclusive(base, resources.gpus);
    AddGpusShared(base, load.shared, resources.gpus);
  }

  /** The running record is the exact load of everything counted so far, reduced to machine words. */
  lemma {:induction false} TallyIsWrappedLoad(held: seq<Resources>)
    ensures Tally(held) == Wrap(LoadOf(held))
  {
    if |held| > 0 {
      TallyIsWrappedLoad(held[..|held| - 1]);
      OccupyIsWrappedPlus(LoadOf(held[..|held| - 1]), held[|held| - 1]);
    }
  }

  lemma PlusInAnyOrder(load: Load, a: Resources, b: Resources)
    ensures Plus(Plus(load, a), b) == Plus(Plus(load, b), a)
  {
    hide Demand;
  }

  /** Taking any one attempt out of a list subtracts exactly its demand. */
  lemma {:induction false} LoadWithout(held: seq<Resources>, i: nat)
    requires i < |held|
    ensures LoadOf(held) == Plus(LoadOf(held[..i] + held[i + 1..]), held[i])
  {
    hide Plus;
    var last := |held| - 1;
    if i == last {
      assert held[..i] + held[i + 1..] == held[..last];
    } else {
      LoadWithout(held[..last], i);
      var rest := held[..i] + held[i + 1..];
      assert held[..last][..i] + held[..last][i + 1..] == rest[..last - 1];
      assert rest[last - 1] == held[last];
      PlusInAnyOrder(LoadOf(rest[..last - 1]), held[i], held[last]);
    }
  }

  lemma WithoutOne<T>(s: seq<T>, i: nat)
    requires i < |s|
    ensures multiset(s[..i] + s[i + 1..]) == multiset(s) - multiset{s[i]}
  {
    assert s == s[..i] + [s[i]] + s[i + 1..];
  }

  lemma {:induction false} LoadIgnoresRowOrder(a: seq<Resources>, b: seq<Resources>)
    requires multiset(a) == multiset(b)
    ensures LoadOf(a) == LoadOf(b)
    decreases |a|
  {
    assert |multiset(a)| == |multiset(b)| == |b|;
    if |a| > 0 {
      var last := |a| - 1;
      assert a[last] in multiset(b);
      var i :| 0 <= i < |b| && b[i] == a[last];
      var rest := b[..i] + b[i + 1..];
      WithoutOne(a, last);
      WithoutOne(b, i);
      assert a[..last] + a[last + 1..] == a[..last];
      LoadIgnoresRowOrder(a[..last], rest);
      LoadWithout(b, i);
    }
  }

  /** The order in which the rows are read does not matter. */
  lemma TallyIgnoresRowOrder(a: seq<Resources>, b: seq<Resources>)
    requires multiset(a) == multiset(b)
    ensures LoadOf(a) == LoadOf(b)
    ensures Tally(a) == Tally(b)
  {
    LoadIgnoresRowOrder(a, b);
    TallyIsWrappedLoad(a);
    TallyIsWrappedLoad(b);
  }

  /******* When the fit test decides like the exact one *******/

  /** The worker's promises, on exact sums; `capacity` is already normalized. */
  predicate Within(load: Load, capacity: Capacity) {
    && load.active <= capacity.maxParallel
    && (capacity.cpu > 0 ==> load.cpu <= capacity.cpu)
    && (capacity.memoryBytes > 0 ==> load.memoryBytes <= capacity.memoryBytes)
    && load.shared <= capacity.gpuSharedSlots
    && load.exclusiveHolders <= load.gpuHolders
    && (load.gpuHolders == 0 ==> load.shared == 0)
    && (load.exclusiveHolders > 0 ==> load.gpuHolders == 1 && load.shared == 0)
  }

  /** The exact admission rule. */
  predicate Admits(spec: JobSpec, capacity: Capacity, load: Load) {
    var exclusive := Demand(spec.resources.gpus, GpuExclusive);
    var shared := Demand(spec.resources.gpus, GpuShared);
    && Eligible(spec, capacity)
    && (capacity.cpu > 0 ==> load.cpu + spec.resources.cpu <= capacity.cpu)
    && (capacity.memoryBytes > 0 ==> load.memoryBytes + spec.resources.memoryBytes <= capacity.memoryBytes)
    && (exclusive > 0 ==> load.gpuHolders == 0 && shared == 0 && exclusive <= capacity.gpuCount)
    && (exclusive == 0 && shared > 0 ==>
          load.exclusiveHolders == 0 && load.shared + shared <= capacity.gpuSharedSlots)
  }

  /** No request of the job can wrap against a load that respects the capacity. */
  predicate CannotWrap(spec: JobSpec, capacity: Capacity) {
    && (capacity.cpu > 0 ==> spec.resources.cpu + capacity.cpu < TWO32)
    && (capacity.memoryBytes > 0 ==> spec.resources.memoryBytes + capacity.memoryBytes < TWO64)
    && Demand(spec.resources.gpus, GpuExclusive) < TWO32
    && Demand(spec.resources.gpus, GpuShared) + capacity.gpuSharedSlots < TWO32
  }

  lemma {:induction false} WrappedDemandIsModulo(gpus: seq<GpuRequest>, sharing: GpuSharing)
    ensures WrappedDemand(gpus, sharing) == Demand(gpus, sharing) % TWO32
  {
    hide Add32;
    if |gpus| > 0 {
      WrappedDemandIsModulo(gpus[..|gpus| - 1], sharing);
      ReducedSum32(Demand(gpus[..|gpus| - 1], sharing), gpus[|gpus| - 1].count);
    }
  }

  /** Exact admission within the capacity is admission by the code: neither sum gets as far as the word size. */
  lemma AdmittedFits(spec: JobSpec, capacity: Capacity, load: Load)
    requires Within(load, capacity) && Admits(spec, capacity, load)
    ensures JobFits(spec, capacity, Wrap(load))
  {
    hide WrappedDemand, Demand;
    WrappedDemandIsModulo(spec.resources.gpus, GpuExclusive);
    WrappedDemandIsModulo(spec.resources.gpus, GpuShared);
    SmallIsItself(load.shared, TWO32);
    if Demand(spec.resources.gpus, GpuExclusive) < TWO32 {
      SmallIsItself(Demand(spec.resources.gpus, GpuExclusive), TWO32);
    }
    if Demand(spec.resources.gpus, GpuShared) < TWO32 {
      SmallIsItself(Demand(spec.resources.gpus, GpuShared), TWO32);
    }
    if capacity.cpu > 0 {
      SmallIsItself(load.cpu, TWO32);
    }
    if capacity.memoryBytes > 0 {
      SmallIsItself(load.memoryBytes, TWO64);
    }
  }

  /** What cannot wrap is admitted by the code only if it is admitted exactly. */
  lemma FittingIsAdmitted(spec: JobSpec, capacity: Capacity, load: Load)
    requires Within(load, capacity) && CannotWrap(spec, capacity) && JobFits(spec, capacity, Wrap(load))
    ensures Admits(spec, capacity, load)
  {
    hide WrappedDemand, Demand;
    WrappedDemandIsModulo(spec.resources.gpus, GpuExclusive);
    WrappedDemandIsModulo(spec.resources.gpus, GpuShared);
    SmallIsItself(Demand(spec.resources.gpus, GpuExclusive), TWO32);
    SmallIsItself(Demand(spec.resources.gpus, GpuShared), TWO32);
    SmallIsItself(load.shared, TWO32);
    if capacity.cpu > 0 {
      SmallIsItself(load.cpu, TWO32);
    }
    if capacity.memoryBytes > 0 {
      SmallIsItself(load.memoryBytes, TWO64);
    }
  }

  /** What the guards refuse beside every load within the capacity. */
  predicate RuledOut(spec: JobSpec, capacity: Capacity) {
    var exclusive := WrappedDemand(spec.resources.gpus, GpuExclusive);
    var shared := WrappedDemand(spec.resources.gpus, GpuShared);
    || !Eligible(spec, capacity)
    || (capacity.cpu > 0 && spec.resources.cpu > capacity.cpu && spec.resources.cpu + capacity.cpu < TWO32)
    || (capacity.memoryBytes > 0 && spec.resources.memoryBytes > capacity.memoryBytes &&
        spec.resources.memoryBytes + capacity.memoryBytes < TWO64)
    || if exclusive > 0 then shared > 0 || exclusive > capacity.gpuCount
       else shared > capacity.gpuSharedSlots && shared + capacity.gpuSharedSlots < TWO32
  }

  lemma RuledOutNeverFits(spec: JobSpec, capacity: Capacity, load: Load)
    requires Within(load, capacity) && RuledOut(spec, capacity)
    ensures !JobFits(spec, capacity, Wrap(load))
  {
    hide WrappedDemand;
    SmallIsItself(load.shared, TWO32);
    if capacity.cpu > 0 {
      SmallIsItself(load.cpu, TWO32);
    }
    if capacity.memoryBytes > 0 {
      SmallIsItself(load.memoryBytes, TWO64);
    }
  }

  /** Request and declared capacity stay below the word size together, or the request is refused whatever is held. */
  predicate NeverMisjudged(spec: JobSpec, capacity: Capacity) {
    CannotWrap(spec, capacity) || RuledOut(spec, capacity)
  }

  lemma FitsIsAdmits(spec: JobSpec, capacity: Capacity, load: Load)
    requires Within(load, capacity) && NeverMisjudged(spec, capacity)
    ensures JobFits(spec, capacity, Wrap(load)) <==> Admits(spec, capacity, load)
  {
    hide JobFits, Admits, CannotWrap, RuledOut, Within;
    if Admits(spec, capacity, load) {
      AdmittedFits(spec, capacity, load);
    }
    if RuledOut(spec, capacity) {
      RuledOutNeverFits(spec, capacity, load);
    } else if JobFits(spec, capacity, Wrap(load)) {
      FittingIsAdmitted(spec, capacity, load);
    }
  }

  lemma SmallIsItself(x: nat, word: nat)
    requires x < word
    ensures x % word == x
  {
  }

  /** The code's fit test on its own record of what is held, against the exact rule. */
  predicate FitExact(spec: JobSpec, capacity: Capacity, held: seq<Resources>) {
    JobFits(spec, capacity, Tally(held)) <==> Admits(spec, capacity, LoadOf(held))
  }

  /** The record and the exact load of a single attempt. */
  lemma OneHeld(resources: Resources)
    ensures LoadOf([resources]) == Plus(NO_LOAD, resources)
    ensures Tally([resources]) ==
            AddGpus(Allocation(resources.cpu, resources.memoryBytes, 0, false, false, 0), resources.gpus).(active := 1)
  {
    assert [resources][..0] == [];
    AddGpusKeepsOthers(Allocation(resources.cpu, resources.memoryBytes, 0, false, false, 0), resources.gpus);
  }

  lemma OneSharedGpu(gpu: GpuRequest)
    requires gpu.sharing.GpuShared?
    ensures Demand([gpu], GpuShared) == gpu.count && !AnyExclusive([gpu])
    ensures forall a: Allocation ::
              AddGpus(a, [gpu]) == a.(gpuInUse := true, gpuSharedSlots := Add32(a.gpuSharedSlots, gpu.count))
  {
    assert [gpu][..0] == [];
    assert [gpu][0] == gpu;
  }

  /** An attempt that holds, of everything the job's request can wrap against, what is missing to the word size. */
  function Complement(spec: JobSpec, capacity: Capacity): Resources {
    var r := spec.resources;
    var shared := WrappedDemand(r.gpus, GpuShared);
    Resources(
      if r.cpu + capacity.cpu >= TWO32 then TWO32 - r.cpu else 0,
      if r.memoryBytes + capacity.memoryBytes >= TWO64 then TWO64 - r.memoryBytes else 0,
      if WrappedDemand(r.gpus, GpuExclusive) == 0 && shared + capacity.gpuSharedSlots >= TWO32
      then [GpuRequest(TWO32 - shared, GpuShared)] else [])
  }

  lemma HeldWithoutGpu(cpu: uint32, memoryBytes: uint64)
    ensures LoadOf([Resources(cpu, memoryBytes, [])]) == Load(cpu, memoryBytes, 0, 0, 0, 1)
    ensures Tally([Resources(cpu, memoryBytes, [])]) == Allocation(cpu, memoryBytes, 0, false, false, 1)
  {
    hide LoadOf, Tally;
    OneHeld(Resources(cpu, memoryBytes, []));
  }

  lemma HeldWithSlots(cpu: uint32, memoryBytes: uint64, gpu: GpuRequest)
    requires gpu.sharing.GpuShared?
    ensures LoadOf([Resources(cpu, memoryBytes, [gpu])]) == Load(cpu, memoryBytes, gpu.count, 0, 1, 1)
    ensures Tally([Resources(cpu, memoryBytes, [gpu])]) == Allocation(cpu, memoryBytes, gpu.count, false, true, 1)
  {
    hide LoadOf, Tally, AddGpus, Demand;
    OneHeld(Resources(cpu, memoryBytes, [gpu]));
    OneSharedGpu(gpu);
  }

  /** What the attempt amounts to, exactly and in the record. */
  lemma ComplementHeld(spec: JobSpec, capacity: Capacity)
    ensures var held := Complement(spec, capacity);
            var shared := if |held.gpus| > 0 then held.gpus[0].count else 0;
            && LoadOf([held]) == Load(held.cpu, held.memoryBytes, shared, 0, |held.gpus|, 1)
            && Tally([held]) == Allocation(held.cpu, held.memoryBytes, shared, false, |held.gpus| > 0, 1)
  {
    hide WrappedDemand, LoadOf, Tally;
    var held := Complement(spec, capacity);
    if |held.gpus| > 0 {
      HeldWithSlots(held.cpu, held.memoryBytes, held.gpus[0]);
    } else {
      HeldWithoutGpu(held.cpu, held.memoryBytes);
    }
  }

  /** Beside it, a job that the guards do not rule out fits by the code, every wrapped sum being zero. */
  lemma ComplementFits(spec: JobSpec, capacity: Capacity)
    requires capacity.maxParallel > 0 && !RuledOut(spec, capacity)
    ensures Within(LoadOf([Complement(spec, capacity)]), capacity)
    ensures JobFits(spec, capacity, Tally([Complement(spec, capacity)]))
  {
    hide WrappedDemand, Tally, LoadOf;
    ComplementHeld(spec, capacity);
  }

  /** And it does not fit exactly if anything can wrap. */
  lemma ComplementIsTooMuch(spec: JobSpec, capacity: Capacity)
    requires !CannotWrap(spec, capacity)
    ensures !Admits(spec, capacity, LoadOf([Complement(spec, capacity)]))
  {
    hide WrappedDemand, Demand, Tally, LoadOf;
    ComplementHeld(spec, capacity);
    var exclusive, shared := Demand(spec.resources.gpus, GpuExclusive), Demand(spec.resources.gpus, GpuShared);
    WrappedDemandIsModulo(spec.resources.gpus, GpuExclusive);
    WrappedDemandIsModulo(spec.resources.gpus, GpuShared);
    SmallIsItself(0, TWO32);
    if shared < TWO32 {
      SmallIsItself(shared, TWO32);
    }
  }

  /**
   When the fit test is right.  The test on the code's own record agrees with exact arithmetic for every list of
   attempts within the capacity if and only if request and declared capacity together stay below the word size,
   for processors, memory and shared GPU slots alike, or the guards refuse the job whatever the worker holds.
   */
  lemma FitIsExactIff(spec: JobSpec, capacity: Capacity)
    requires capacity.maxParallel > 0
    ensures (forall held: seq<Resources> :: Within(LoadOf(held), capacity) ==> FitExact(spec, capacity, held))
            <==> CannotWrap(spec, capacity) || RuledOut(spec, capacity)
  {
    hide JobFits, Admits, CannotWrap, RuledOut, Within, Tally, LoadOf, Complement;
    if NeverMisjudged(spec, capacity) {
      forall held: seq<Resources> | Within(LoadOf(held), capacity) ensures FitExact(spec, capacity, held) {
        TallyIsWrappedLoad(held);
        FitsIsAdmits(spec, capacity, LoadOf(held));
      }
    } else {
      ComplementFits(spec, capacity);
      ComplementIsTooMuch(spec, capacity);
      assert !FitExact(spec, capacity, [Complement(spec, capacity)]);
    }
  }

  /** An instance: a worker of four processors that holds one is offered four thousand million more. */
  lemma WrappedRequestOvercommits(spec: JobSpec, capacity: Capacity)
    requires spec.resources == Resources(0xFFFF_FFFF, 0, []) && Eligible(spec, capacity)
    requires capacity.cpu == 4 && capacity.maxParallel > 0
    ensures !CannotWrap(spec, capacity) && !RuledOut(spec, capacity)
    ensures var held := [Resources(1, 0, [])];
            && Within(LoadOf(held), capacity)
            && JobFits(spec, capacity, Tally(held)) && !Admits(spec, capacity, LoadOf(held))
  {
    assert Complement(spec, capacity) == Resources(1, 0, []);
    ComplementFits(spec, capacity);
    ComplementIsTooMuch(spec, capacity);
  }

  lemma {:induction false} ExclusiveDemandIsHolding(gpus: seq<GpuRequest>)
    requires forall i :: 0 <= i < |gpus| ==> gpus[i].count > 0
    ensures Demand(gpus, GpuExclusive) > 0 <==> AnyExclusive(gpus)
    ensures Demand(gpus, GpuExclusive) + Demand(gpus, GpuShared) > 0 <==> |gpus| > 0
  {
    if |gpus| > 0 {
      ExclusiveDemandIsHolding(gpus[..|gpus| - 1]);
      AnyExclusiveStep(gpus);
    }
  }

  /** Admission keeps every promise. */
  lemma AdmitsKeepsWithin(spec: JobSpec, capacity: Capacity, load: Load)
    requires Within(load, capacity) && load.active < capacity.maxParallel
    requires forall i :: 0 <= i < |spec.resources.gpus| ==> spec.resources.gpus[i].count > 0
    requires Admits(spec, capacity, load)
    ensures Within(Plus(load, spec.resources), capacity)
  {
    ExclusiveDemandIsHolding(spec.resources.gpus);
  }

  predicate AtMost(a: Load, b: Load) {
    && a.cpu <= b.cpu && a.memoryBytes <= b.memoryBytes && a.shared <= b.shared
    && a.exclusiveHolders <= b.exclusiveHolders && a.gpuHolders <= b.gpuHolders && a.active <= b.active
  }

  /** A job that does not fit a load does not fit a larger one. */
  lemma FitIsAntitone(spec: JobSpec, capacity: Capacity, small: Load, large: Load)
    requires AtMost(small, large) && Within(small, capacity) && Within(large, capacity)
    requires NeverMisjudged(spec, capacity)
    ensures JobFits(spec, capacity, Wrap(large)) ==> JobFits(spec, capacity, Wrap(small))
  {
    FitsIsAdmits(spec, capacity, small);
    FitsIsAdmits(spec, capacity, large);
  }
}
