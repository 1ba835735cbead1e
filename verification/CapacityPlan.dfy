/** How many runs a host may carry at once, and the memory and CPU share of each. */
module CapacityPlan {
  import opened Wrappers
  import opened Arithmetic

  const BYTES_PER_GIB := 1024 * 1024 * 1024
  const PER_RUN_MEMORY_FLOOR_GIB := 12
  const PER_RUN_CPU_FLOOR := 4
  const MEMORY_RESERVE_FLOOR_GIB := 8
  const CPU_HEADROOM := 2
  const MAX_SLOTS_HARD_CAP := 4

  /** A pinned memory size: the number as written and the bytes its unit letter stands for. */
  datatype MemorySize = MemorySize(magnitude: real, multiplier: nat)

  /** A share is what the operator pinned, kept verbatim, or a whole number the plan chose. */
  datatype Share<T> = Pinned(request: T) | Sized(amount: int)

  datatype Plan = Plan(slots: int, memory: Share<MemorySize>, cpus: Share<real>)

  function Max(a: int, b: int): int {
    if a < b then b else a
  }

  function Min(a: int, b: int): int {
    if a < b then a else b
  }

  /** `int(x)`: truncation toward zero. */
  function Truncate(x: real): int {
    if x >= 0.0 then x.Floor else -((-x).Floor)
  }

  /** The bytes a memory size stands for. */
  function Bytes(size: MemorySize): real {
    size.magnitude * size.multiplier as real
  }

  /** Whole gibibytes, rounded down, never below one. */
  function MemoryGib(size: MemorySize): int {
    Max(1, Truncate(Bytes(size)) / BYTES_PER_GIB)
  }

  function PositiveInt(value: real, fallback: int): int {
    if Truncate(value) > 0 then Truncate(value) else fallback
  }

  function TotalGib(totalBytes: int): int {
    Max(1, totalBytes / BYTES_PER_GIB)
  }

  /** The larger of a flat floor and 15% of the total, rounded up. */
  function ReserveGib(totalGib: int): int {
    Max(MEMORY_RESERVE_FLOOR_GIB, (15 * totalGib + 99) / 100)
  }

  function UsableMemoryGib(totalBytes: int): int {
    var total := TotalGib(totalBytes);
    Max(PER_RUN_MEMORY_FLOOR_GIB, total - ReserveGib(total))
  }

  function UsableCpus(cpuCount: int): int {
    Max(PER_RUN_CPU_FLOOR, cpuCount - CPU_HEADROOM)
  }

  function BudgetMemoryGib(pin: Option<MemorySize>): int {
    if pin.Some? then MemoryGib(pin.value) else PER_RUN_MEMORY_FLOOR_GIB
  }

  function BudgetCpus(pin: Option<real>): int {
    if pin.Some? then PositiveInt(pin.value, PER_RUN_CPU_FLOOR) else PER_RUN_CPU_FLOOR
  }

  function PlanCapacity(totalBytes: int, cpuCount: int, memoryPin: Option<MemorySize>, cpuPin: Option<real>): Plan {
    var usableMemory := UsableMemoryGib(totalBytes);
    var usableCpus := UsableCpus(cpuCount);
    var byMemory := Max(1, usableMemory / BudgetMemoryGib(memoryPin));
    var byCpus := Max(1, usableCpus / BudgetCpus(cpuPin));
    var slots := Max(1, Min(Min(byMemory, byCpus), MAX_SLOTS_HARD_CAP));
    Plan(slots,
         if memoryPin.Some? then Pinned(memoryPin.value) else Sized(Max(PER_RUN_MEMORY_FLOOR_GIB, usableMemory / slots)),
         if cpuPin.Some? then Pinned(cpuPin.value) else Sized(Max(PER_RUN_CPU_FLOOR, usableCpus / slots)))
  }

  // ----- the usable host

  /** The reserve is the least whole number of GiB that is 8 or more and 15% of the total or more. */
  lemma ReserveIsLeast(totalGib: int)
    ensures ReserveGib(totalGib) >= 8 && 100 * ReserveGib(totalGib) >= 15 * totalGib
    ensures forall r | r >= 8 && 100 * r >= 15 * totalGib :: ReserveGib(totalGib) <= r
  {
  }

  /** Usable is what the reserves leave of the whole GiB and the CPUs, or a run's 12 and 4 when they leave less. */
  lemma UsableHostIsRest(totalBytes: int, cpuCount: int)
    ensures var total, usable := TotalGib(totalBytes), UsableMemoryGib(totalBytes);
            && total >= 1 && (total == 1 || total * 1_073_741_824 <= totalBytes) && totalBytes < (total + 1) * 1_073_741_824
            && usable >= 12 && usable + ReserveGib(total) >= total
            && (usable == 12 || usable + ReserveGib(total) == total)
    ensures UsableCpus(cpuCount) >= 4 && UsableCpus(cpuCount) + 2 >= cpuCount
    ensures UsableCpus(cpuCount) == 4 || UsableCpus(cpuCount) + 2 == cpuCount
  {
    assert totalBytes / BYTES_PER_GIB * BYTES_PER_GIB <= totalBytes < (totalBytes / BYTES_PER_GIB + 1) * BYTES_PER_GIB;
  }

  /** A pinned run is budgeted at the whole GiB and the whole CPUs of its pin, at least at one GiB, and below one CPU at 4. */
  lemma BudgetIsWholePart(size: MemorySize, cpus: real)
    ensures var gib, bytes := BudgetMemoryGib(Some(size)), Bytes(size);
            && gib >= 1 && (gib == 1 || (gib * 1_073_741_824) as real <= bytes) && bytes < ((gib + 1) * 1_073_741_824) as real
    ensures if cpus >= 1.0 then BudgetCpus(Some(cpus)) as real <= cpus < (BudgetCpus(Some(cpus)) + 1) as real
            else BudgetCpus(Some(cpus)) == 4
    ensures BudgetMemoryGib(None) == 12 && BudgetCpus(None) == 4
  {
  }

  /** `k` runs of the budgeted size fit the usable host. */
  predicate Fits(k: int, totalBytes: int, cpuCount: int, memoryPin: Option<MemorySize>, cpuPin: Option<real>) {
    k * BudgetMemoryGib(memoryPin) <= UsableMemoryGib(totalBytes) && k * BudgetCpus(cpuPin) <= UsableCpus(cpuCount)
  }

  /** The slot count is the largest under the cap whose runs fit, or one when not even one does. */
  lemma SlotsAreMaximal(totalBytes: int, cpuCount: int, memoryPin: Option<MemorySize>, cpuPin: Option<real>, k: int)
    ensures var slots := PlanCapacity(totalBytes, cpuCount, memoryPin, cpuPin).slots;
            && 1 <= slots <= MAX_SLOTS_HARD_CAP
            && (slots > 1 ==> Fits(slots, totalBytes, cpuCount, memoryPin, cpuPin))
            && (1 <= k <= MAX_SLOTS_HARD_CAP && Fits(k, totalBytes, cpuCount, memoryPin, cpuPin) ==> k <= slots)
  {
    var slots := PlanCapacity(totalBytes, cpuCount, memoryPin, cpuPin).slots;
    forall n | n == k || n == slots
      ensures Fits(n, totalBytes, cpuCount, memoryPin, cpuPin) <==>
              n <= UsableMemoryGib(totalBytes) / BudgetMemoryGib(memoryPin) && n <= UsableCpus(cpuCount) / BudgetCpus(cpuPin)
    {
      QuotientIsLargestMultiple(UsableMemoryGib(totalBytes), BudgetMemoryGib(memoryPin), n);
      QuotientIsLargestMultiple(UsableCpus(cpuCount), BudgetCpus(cpuPin), n);
    }
  }

  /**
   Without pins the shares are the largest whole numbers that tile the usable host, never below
   the floors, and on a host of 20 GiB or more memory the reserve is left untouched.
   */
  lemma UnpinnedSharesFit(totalBytes: int, cpuCount: int)
    ensures var plan := PlanCapacity(totalBytes, cpuCount, None, None);
            && plan.memory.Sized? && plan.cpus.Sized?
            && plan.memory.amount >= PER_RUN_MEMORY_FLOOR_GIB && plan.cpus.amount >= PER_RUN_CPU_FLOOR
            && plan.slots * plan.memory.amount <= UsableMemoryGib(totalBytes)
            && plan.slots * plan.cpus.amount <= UsableCpus(cpuCount)
            && plan.slots * (plan.memory.amount + 1) > UsableMemoryGib(totalBytes)
            && plan.slots * (plan.cpus.amount + 1) > UsableCpus(cpuCount)
            && (TotalGib(totalBytes) >= 20 ==>
                  plan.slots * plan.memory.amount + ReserveGib(TotalGib(totalBytes)) <= TotalGib(totalBytes))
  {
    var plan := PlanCapacity(totalBytes, cpuCount, None, None);
    SlotsAreMaximal(totalBytes, cpuCount, None, None, 1);
    ShareFits(UsableMemoryGib(totalBytes), plan.slots, PER_RUN_MEMORY_FLOOR_GIB);
    ShareFits(UsableCpus(cpuCount), plan.slots, PER_RUN_CPU_FLOOR);
  }

  /** Under any pin of the other, an unpinned share is the largest whole number that fits, never below its floor. */
  lemma UnpinnedShareIsLargest(totalBytes: int, cpuCount: int, memoryPin: Option<MemorySize>, cpuPin: Option<real>)
    ensures var plan := PlanCapacity(totalBytes, cpuCount, memoryPin, cpuPin);
            && (memoryPin == None ==>
                  && plan.memory.Sized? && plan.memory.amount >= 12
                  && plan.slots * plan.memory.amount <= UsableMemoryGib(totalBytes) < plan.slots * (plan.memory.amount + 1))
            && (cpuPin == None ==>
                  && plan.cpus.Sized? && plan.cpus.amount >= 4
                  && plan.slots * plan.cpus.amount <= UsableCpus(cpuCount) < plan.slots * (plan.cpus.amount + 1))
  {
    var plan := PlanCapacity(totalBytes, cpuCount, memoryPin, cpuPin);
    SlotsAreMaximal(totalBytes, cpuCount, memoryPin, cpuPin, 1);
    if memoryPin == None { ShareFits(UsableMemoryGib(totalBytes), plan.slots, PER_RUN_MEMORY_FLOOR_GIB); }
    if cpuPin == None { ShareFits(UsableCpus(cpuCount), plan.slots, PER_RUN_CPU_FLOOR); }
  }

  lemma ShareFits(usable: int, slots: int, floor: int)
    requires slots >= 1 && floor * slots <= usable
    ensures slots * Max(floor, usable / slots) <= usable < slots * (Max(floor, usable / slots) + 1)
  {
    QuotientIsLargestMultiple(usable, slots, usable / slots);
  }

  /** Below 20 GiB the run's memory floor eats into the reserve: the bound is exact. */
  lemma ReserveHoldsExactlyFrom20Gib(totalBytes: int, cpuCount: int)
    ensures var plan := PlanCapacity(totalBytes, cpuCount, None, None);
            plan.slots * plan.memory.amount + ReserveGib(TotalGib(totalBytes)) <= TotalGib(totalBytes)
            <==> TotalGib(totalBytes) >= 20
  {
    UnpinnedSharesFit(totalBytes, cpuCount);
    var plan := PlanCapacity(totalBytes, cpuCount, None, None);
    if TotalGib(totalBytes) < 20 {
      assert plan.slots * plan.memory.amount >= PER_RUN_MEMORY_FLOOR_GIB;
    }
  }

  /** Below 6 CPUs the run's CPU floor eats into the headroom: the bound is exact. */
  lemma HeadroomHoldsExactlyFrom6Cpus(totalBytes: int, cpuCount: int)
    ensures var plan := PlanCapacity(totalBytes, cpuCount, None, None);
            plan.slots * plan.cpus.amount + CPU_HEADROOM <= cpuCount <==> cpuCount >= 6
  {
    UnpinnedSharesFit(totalBytes, cpuCount);
    var plan := PlanCapacity(totalBytes, cpuCount, None, None);
    TimesIsMonotone(plan.cpus.amount, 1, plan.slots);
  }

  // ----- pinned shares

  /** The plan's runs together keep within the usable memory, or there is just one. */
  predicate MemoryFits(totalBytes: int, plan: Plan) {
    plan.slots == 1 ||
    match plan.memory
    case Pinned(size) => plan.slots as real * Bytes(size) <= (UsableMemoryGib(totalBytes) * BYTES_PER_GIB) as real
    case Sized(amount) => plan.slots * amount <= UsableMemoryGib(totalBytes)
  }

  predicate CpusFit(cpuCount: int, plan: Plan) {
    plan.slots == 1 ||
    match plan.cpus
    case Pinned(cpus) => plan.slots as real * cpus <= UsableCpus(cpuCount) as real
    case Sized(amount) => plan.slots * amount <= UsableCpus(cpuCount)
  }

  predicate WholeGib(size: MemorySize) {
    Bytes(size) == ((Bytes(size).Floor / BYTES_PER_GIB) * BYTES_PER_GIB) as real
  }

  /** A memory pin whose runs always fit: below 3 GiB or a whole number of GiB, whatever unit it is written in. */
  predicate SafeMemory(pin: Option<MemorySize>) {
    pin.Some? ==> Bytes(pin.value) < (3 * BYTES_PER_GIB) as real || WholeGib(pin.value)
  }

  /** A CPU pin whose runs always fit: below one or whole. */
  predicate SafeCpus(pin: Option<real>) {
    pin.Some? ==> pin.value < 1.0 || pin.value == pin.value.Floor as real
  }

  lemma WholeGibIsBudgeted(size: MemorySize)
    requires WholeGib(size) && Bytes(size) >= BYTES_PER_GIB as real
    ensures Bytes(size) == (MemoryGib(size) * BYTES_PER_GIB) as real
  {
  }

  lemma SmallPinsFit(slots: int, bytes: real, usable: int)
    requires 1 <= slots <= MAX_SLOTS_HARD_CAP && bytes < (3 * BYTES_PER_GIB) as real && usable >= PER_RUN_MEMORY_FLOOR_GIB
    ensures slots as real * bytes <= (usable * BYTES_PER_GIB) as real
  {
    ProductsAreOrdered(bytes, (3 * BYTES_PER_GIB) as real, slots as real);
    assert slots * (3 * BYTES_PER_GIB) <= usable * BYTES_PER_GIB;
  }

  lemma WholePinsFit(slots: int, size: MemorySize, usable: int)
    requires slots * MemoryGib(size) <= usable && WholeGib(size) && Bytes(size) >= BYTES_PER_GIB as real
    ensures slots as real * Bytes(size) <= (usable * BYTES_PER_GIB) as real
  {
    WholeGibIsBudgeted(size);
    assert slots * (MemoryGib(size) * BYTES_PER_GIB) <= usable * BYTES_PER_GIB;
  }

  lemma SafeSizesFit(slots: int, size: MemorySize, usable: int)
    requires SafeMemory(Some(size)) && 1 <= slots <= MAX_SLOTS_HARD_CAP && usable >= PER_RUN_MEMORY_FLOOR_GIB
    requires slots > 1 ==> slots * MemoryGib(size) <= usable
    ensures slots > 1 ==> slots as real * Bytes(size) <= (usable * BYTES_PER_GIB) as real
  {
    if Bytes(size) < (3 * BYTES_PER_GIB) as real {
      SmallPinsFit(slots, Bytes(size), usable);
    } else if slots > 1 {
      WholePinsFit(slots, size, usable);
    }
  }

  /** The plan's memory shares fit for every pin that is safe, whatever the CPUs. */
  lemma MemorySharesFit(totalBytes: int, cpuCount: int, memoryPin: Option<MemorySize>, cpuPin: Option<real>)
    requires SafeMemory(memoryPin)
    ensures MemoryFits(totalBytes, PlanCapacity(totalBytes, cpuCount, memoryPin, cpuPin))
  {
    var plan := PlanCapacity(totalBytes, cpuCount, memoryPin, cpuPin);
    SlotsAreMaximal(totalBytes, cpuCount, memoryPin, cpuPin, 1);
    match memoryPin
    case None => ShareFits(UsableMemoryGib(totalBytes), plan.slots, PER_RUN_MEMORY_FLOOR_GIB);
    case Some(size) => SafeSizesFit(plan.slots, size, UsableMemoryGib(totalBytes));
  }

  /** The plan's CPU shares fit for every pin that is safe, whatever the memory. */
  lemma CpuSharesFit(totalBytes: int, cpuCount: int, memoryPin: Option<MemorySize>, cpuPin: Option<real>)
    requires SafeCpus(cpuPin)
    ensures CpusFit(cpuCount, PlanCapacity(totalBytes, cpuCount, memoryPin, cpuPin))
  {
    var plan := PlanCapacity(totalBytes, cpuCount, memoryPin, cpuPin);
    SlotsAreMaximal(totalBytes, cpuCount, memoryPin, cpuPin, 1);
    if cpuPin == None {
      ShareFits(UsableCpus(cpuCount), plan.slots, PER_RUN_CPU_FLOOR);
    } else if cpuPin.value < 1.0 {
      ProductsAreOrdered(cpuPin.value, 1.0, plan.slots as real);
    }
  }

  /** Whatever is pinned is kept as it is written, and every share but an unsafe pin's fits. */
  lemma PinnedSharesFit(totalBytes: int, cpuCount: int, memoryPin: Option<MemorySize>, cpuPin: Option<real>)
    ensures var plan := PlanCapacity(totalBytes, cpuCount, memoryPin, cpuPin);
            && (memoryPin.Some? ==> plan.memory == Pinned(memoryPin.value))
            && (cpuPin.Some? ==> plan.cpus == Pinned(cpuPin.value))
            && (SafeMemory(memoryPin) ==> MemoryFits(totalBytes, plan))
            && (SafeCpus(cpuPin) ==> CpusFit(cpuCount, plan))
  {
    if SafeMemory(memoryPin) { MemorySharesFit(totalBytes, cpuCount, memoryPin, cpuPin); }
    if SafeCpus(cpuPin) { CpuSharesFit(totalBytes, cpuCount, memoryPin, cpuPin); }
  }

  lemma ReserveGrowsSlowly(gib: int)
    requires gib >= 1
    ensures ReserveGib(gib) <= ReserveGib(gib + 1) <= ReserveGib(gib + 2) <= ReserveGib(gib) + 1
  {
  }

  /** What is left after the reserve takes every value from the floor on. */
  lemma {:induction false} TotalOfRemainder(usable: int) returns (totalGib: int)
    requires usable >= PER_RUN_MEMORY_FLOOR_GIB
    ensures totalGib >= 20 && totalGib - ReserveGib(totalGib) == usable
    decreases usable
  {
    if usable == PER_RUN_MEMORY_FLOOR_GIB {
      totalGib := 20;
    } else {
      var below := TotalOfRemainder(usable - 1);
      ReserveGrowsSlowly(below);
      totalGib := if ReserveGib(below + 1) == ReserveGib(below) then below + 1 else below + 2;
    }
  }

  lemma HostOfUsableMemory(usable: int) returns (totalGib: int)
    requires usable >= PER_RUN_MEMORY_FLOOR_GIB
    ensures UsableMemoryGib(totalGib * BYTES_PER_GIB) == usable
  {
    totalGib := TotalOfRemainder(usable);
    assert TotalGib(totalGib * BYTES_PER_GIB) == totalGib;
  }

  /** Runs that need more than they are budgeted, on a host that the budgeted runs fill. */
  lemma BrimfulHostOverflows(slots: int, budgeted: int, need: real, usable: int)
    requires slots >= 1 && slots * budgeted == usable && need > budgeted as real
    ensures slots as real * need > usable as real
  {
    assert slots as real * budgeted as real == usable as real;
  }

  /** How many runs of a size that is not safe fill a host exactly. */
  function Filling(gib: int): int {
    if gib == 3 then 4 else if gib <= 5 then 3 else 2
  }

  lemma UnsafeMemoryOvercommits(size: MemorySize) returns (totalBytes: int)
    requires !SafeMemory(Some(size))
    ensures !MemoryFits(totalBytes, PlanCapacity(totalBytes, 64, Some(size), None))
  {
    var gib := MemoryGib(size);
    assert gib >= 3 && Bytes(size) > (gib * BYTES_PER_GIB) as real;
    var slots := Filling(gib);
    var totalGib := HostOfUsableMemory(slots * gib);
    totalBytes := totalGib * BYTES_PER_GIB;
    var plan := PlanCapacity(totalBytes, 64, Some(size), None);
    QuotientIsLargestMultiple(slots * gib, gib, slots);
    QuotientIsLargestMultiple(slots * gib, gib, slots + 1);
    assert plan.slots == slots;
    BrimfulHostOverflows(slots, gib * BYTES_PER_GIB, Bytes(size), slots * gib * BYTES_PER_GIB);
  }

  lemma UnsafeCpusOvercommit(pin: real) returns (cpuCount: int)
    requires !SafeCpus(Some(pin))
    ensures !CpusFit(cpuCount, PlanCapacity(128 * BYTES_PER_GIB, cpuCount, None, Some(pin)))
  {
    var cpus := Truncate(pin);
    assert cpus >= 1 && pin > cpus as real;
    var slots := if cpus == 1 then 4 else 2;
    cpuCount := slots * cpus + CPU_HEADROOM;
    assert UsableMemoryGib(128 * BYTES_PER_GIB) == 108;
    QuotientIsLargestMultiple(slots * cpus, cpus, slots);
    QuotientIsLargestMultiple(slots * cpus, cpus, slots + 1);
    assert PlanCapacity(128 * BYTES_PER_GIB, cpuCount, None, Some(pin)).slots == slots;
    BrimfulHostOverflows(slots, cpus, pin, slots * cpus);
  }

  ghost predicate MemoryAlwaysFits(pin: Option<MemorySize>) {
    forall totalBytes, cpuCount, cpuPin ::
      MemoryFits(totalBytes, PlanCapacity(totalBytes, cpuCount, pin, cpuPin))
  }

  ghost predicate CpusAlwaysFit(pin: Option<real>) {
    forall totalBytes, cpuCount, memoryPin ::
      CpusFit(cpuCount, PlanCapacity(totalBytes, cpuCount, memoryPin, pin))
  }

  /**
   A memory pin, kept verbatim but budgeted at its whole GiB, overcommits no host on which several
   runs are admitted exactly when it is below 3 GiB or a whole number of GiB.
   */
  lemma MemoryPinFitsIff(pin: Option<MemorySize>)
    ensures MemoryAlwaysFits(pin) <==> SafeMemory(pin)
  {
    if SafeMemory(pin) {
      forall totalBytes, cpuCount, cpuPin
        ensures MemoryFits(totalBytes, PlanCapacity(totalBytes, cpuCount, pin, cpuPin))
      {
        MemorySharesFit(totalBytes, cpuCount, pin, cpuPin);
      }
    } else {
      var totalBytes := UnsafeMemoryOvercommits(pin.value);
      assert pin == Some(pin.value);
    }
  }

  /** A CPU pin overcommits no host on which several runs are admitted exactly when it is below one or whole. */
  lemma CpuPinFitsIff(pin: Option<real>)
    ensures CpusAlwaysFit(pin) <==> SafeCpus(pin)
  {
    if SafeCpus(pin) {
      forall totalBytes, cpuCount, memoryPin
        ensures CpusFit(cpuCount, PlanCapacity(totalBytes, cpuCount, memoryPin, pin))
      {
        CpuSharesFit(totalBytes, cpuCount, memoryPin, pin);
      }
    } else {
      var cpuCount := UnsafeCpusOvercommit(pin.value);
      assert pin == Some(pin.value);
    }
  }

  /** For instance: 2 runs of 4.5 CPUs are admitted on 8, as a pin is budgeted at its whole part. */
  lemma FractionalPinOvercommits()
    ensures var plan := PlanCapacity(64 * BYTES_PER_GIB, 10, None, Some(4.5));
            plan.slots == 2 && plan.slots as real * plan.cpus.request > UsableCpus(10) as real
  {
  }

  /** More memory or more CPUs never means fewer slots. */
  lemma SlotsAreMonotone(totalBytes: int, totalBytes': int, cpuCount: int, cpuCount': int,
                         memoryPin: Option<MemorySize>, cpuPin: Option<real>)
    requires totalBytes <= totalBytes' && cpuCount <= cpuCount'
    ensures PlanCapacity(totalBytes, cpuCount, memoryPin, cpuPin).slots
         <= PlanCapacity(totalBytes', cpuCount', memoryPin, cpuPin).slots
  {
    var slots := PlanCapacity(totalBytes, cpuCount, memoryPin, cpuPin).slots;
    SlotsAreMaximal(totalBytes, cpuCount, memoryPin, cpuPin, slots);
    SlotsAreMaximal(totalBytes', cpuCount', memoryPin, cpuPin, slots);
    assert totalBytes / BYTES_PER_GIB <= totalBytes' / BYTES_PER_GIB;
  }
}
