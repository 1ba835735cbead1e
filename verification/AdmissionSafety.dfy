/** Safety of the admission protocol over whole executions, and exactly what it depends on. */
module AdmissionSafety {
  import opened Wrappers
  import opened Sets
  import opened RunTokens
  import opened Occupancy
  import opened AdmissionProtocol

  // ----- what holds whatever happens

  predicate IsLocking(a: Action) {
    a.TakeLock? || a.Unlock? || a.GiveUp?
  }

  predicate IsReading(a: Action) {
    a.SnapshotContainers? || a.SnapshotPids? || a.BeginList? || a.EndList? || a.BeginRelist? || a.EndRelist?
  }

  /** Steps of containers and of the clients that launch them. */
  predicate IsLaunching(a: Action) {
    a.Launch? || a.StartContainer? || a.AbortLaunch? || a.ExitContainer? || a.StartForeign?
  }

  /** Where only the phase of one attempt moves, within the lock's protection, the lock is as safe as before. */
  lemma LockFrame(s: Host, s': Host, t: Token)
    requires LockInv(s) && s'.lock == s.lock && t in s.runs && t in s'.runs && s'.runs == s.runs[t := s'.runs[t]]
    requires Critical(s.runs[t].phase) && Critical(s'.runs[t].phase)
    ensures LockInv(s')
  {
  }

  lemma HolderKeepsLockInv(s: Host, budget: nat, a: Action)
    requires LockInv(s) && Enabled(s, a) && (IsReading(a) || a.Unlink? || a.Decide?)
    ensures LockInv(Apply(s, budget, a))
  {
    LockFrame(s, Apply(s, budget, a), a.t);
  }

  lemma LockingKeepsLockInv(s: Host, budget: nat, a: Action)
    requires LockInv(s) && Enabled(s, a) && IsLocking(a)
    ensures LockInv(Apply(s, budget, a))
  {
  }

  lemma StepKeepsLockInv(s: Host, budget: nat, a: Action)
    requires LockInv(s) && Enabled(s, a)
    ensures LockInv(Apply(s, budget, a))
  {
    if IsReading(a) || a.Unlink? || a.Decide? {
      HolderKeepsLockInv(s, budget, a);
    } else if IsLocking(a) {
      LockingKeepsLockInv(s, budget, a);
    }
  }

  /** Where only the phase of one live run moves, and no file goes, the facts about processes stay true. */
  lemma PhaseFrame(s: Host, s': Host, t: Token)
    requires ProcessInv(s) && t in s.runs && t in s'.runs && !s.runs[t].phase.Gone?
    requires s'.runs == s.runs[t := s'.runs[t]] && s'.runs[t].pid == s.runs[t].pid
    requires s' == s.(runs := s'.runs, files := s'.files, lock := s'.lock) && s.files <= s'.files
    requires StillThere(s, t) ==> s'.runs[t].phase.Holding? || s'.runs[t].phase.Gone?
    requires HoldsSlot(s'.runs[t].phase) ==> t in s'.files
    ensures ProcessInv(s')
  {
  }

  lemma AttemptKeepsProcessInv(s: Host, budget: nat, a: Action)
    requires ProcessInv(s) && Enabled(s, a) && (IsLocking(a) || IsReading(a) || a.Decide?)
    ensures ProcessInv(Apply(s, budget, a))
  {
    PhaseFrame(s, Apply(s, budget, a), a.t);
  }

  /** A reaper spares the files of the runs whose drivers hold a slot, in every reachable state. */
  lemma UnlinkSparesHeldSlots(s: Host, a: Action)
    requires StructInv(s) && Enabled(s, a) && a.Unlink?
    ensures a.victim in s.runs ==> !HoldsSlot(s.runs[a.victim].phase)
  {
  }

  lemma UnlinkKeepsProcessInv(s: Host, budget: nat, a: Action)
    requires ProcessInv(s) && Enabled(s, a) && a.Unlink? && (a.victim in s.runs ==> !HoldsSlot(s.runs[a.victim].phase))
    ensures ProcessInv(Apply(s, budget, a))
  {
  }

  lemma ReleaseKeepsProcessInv(s: Host, budget: nat, a: Action)
    requires ProcessInv(s) && Enabled(s, a) && a.Release?
    ensures ProcessInv(Apply(s, budget, a))
  {
  }

  lemma KillKeepsProcessInv(s: Host, budget: nat, a: Action)
    requires ProcessInv(s) && Enabled(s, a) && a.KillProcess?
    ensures ProcessInv(Apply(s, budget, a))
  {
  }

  lemma BeginningKeepsProcessInv(s: Host, budget: nat, a: Action)
    requires ProcessInv(s) && Enabled(s, a) && (a.StartProcess? || a.NewRun?)
    ensures ProcessInv(Apply(s, budget, a))
  {
  }

  lemma ArrivalKeepsProcessInv(s: Host, budget: nat, a: Action)
    requires ProcessInv(s) && Enabled(s, a) && (a.StartContainer? || a.StartForeign?)
    ensures ProcessInv(Apply(s, budget, a))
  {
  }

  lemma LaunchingKeepsProcessInv(s: Host, budget: nat, a: Action)
    requires ProcessInv(s) && Enabled(s, a) && IsLaunching(a)
    ensures ProcessInv(Apply(s, budget, a))
  {
    if a.StartContainer? || a.StartForeign? {
      ArrivalKeepsProcessInv(s, budget, a);
    }
  }

  lemma StepKeepsProcessInv(s: Host, budget: nat, a: Action)
    requires StructInv(s) && Enabled(s, a)
    ensures ProcessInv(Apply(s, budget, a))
  {
    if IsLocking(a) || IsReading(a) || a.Decide? {
      AttemptKeepsProcessInv(s, budget, a);
    } else if IsLaunching(a) {
      LaunchingKeepsProcessInv(s, budget, a);
    } else if a.Unlink? {
      UnlinkSparesHeldSlots(s, a);
      UnlinkKeepsProcessInv(s, budget, a);
    } else if a.Release? {
      ReleaseKeepsProcessInv(s, budget, a);
    } else if a.KillProcess? {
      KillKeepsProcessInv(s, budget, a);
    } else {
      BeginningKeepsProcessInv(s, budget, a);
    }
  }

  lemma ReadingKeepsScanInv(s: Host, budget: nat, a: Action)
    requires StructInv(s) && Enabled(s, a) && IsReading(a)
    ensures ScanInv(Apply(s, budget, a))
  {
  }

  lemma LockingKeepsScanInv(s: Host, budget: nat, a: Action)
    requires StructInv(s) && Enabled(s, a) && (IsLocking(a) || a.Unlink? || a.Decide?)
    ensures ScanInv(Apply(s, budget, a))
  {
  }

  /** While other processes move, what an attempt knows of the holders of slots stays true. */
  lemma ScanFrame(s: Host, s': Host)
    requires ScanInv(s) && s'.owner == s.owner && s'.files <= s.files
    requires s'.lock == None || (s'.lock == s.lock && s.lock.value in s.runs && s.lock.value in s'.runs
                                 && s'.runs[s.lock.value].phase == s.runs[s.lock.value].phase)
    requires forall r | r in s'.runs && HoldsSlot(s'.runs[r].phase) ::
               r in s.runs && HoldsSlot(s.runs[r].phase) && s'.runs[r].pid == s.runs[r].pid
    ensures ScanInv(s')
  {
  }

  lemma StepKeepsScanInv(s: Host, budget: nat, a: Action)
    requires StructInv(s) && Enabled(s, a)
    ensures ScanInv(Apply(s, budget, a))
  {
    if IsReading(a) {
      ReadingKeepsScanInv(s, budget, a);
    } else if IsLocking(a) || a.Unlink? || a.Decide? {
      LockingKeepsScanInv(s, budget, a);
    } else {
      ScanFrame(s, Apply(s, budget, a));
    }
  }

  lemma StepKeepsStructInv(s: Host, budget: nat, a: Action)
    requires StructInv(s) && Enabled(s, a)
    ensures StructInv(Apply(s, budget, a))
  {
    StepKeepsLockInv(s, budget, a);
    StepKeepsProcessInv(s, budget, a);
    StepKeepsScanInv(s, budget, a);
  }

  /** No step but a grant puts a run in flight. */
  lemma StepAddsNoRun(s: Host, budget: nat, a: Action)
    requires ProcessInv(s) && Enabled(s, a) && !a.Decide?
    ensures InFlight(Apply(s, budget, a)) <= InFlight(s)
  {
    if IsReading(a) {
    } else if IsLocking(a) {
    } else if IsLaunching(a) {
    }
  }

  // ----- what makes a full host look free

  lemma DecisionStaysInBudget(s: Host, budget: nat, a: Action)
    requires Inv(s, budget) && Enabled(s, a) && a.Decide?
    ensures |InFlight(Apply(s, budget, a))| <= budget
  {
    var s' := Apply(s, budget, a);
    if |Forecast(s, a.t)| < budget {
      assert InFlight(s') <= InFlight(s) + {a.t};
      SubsetSize(InFlight(s'), InFlight(s) + {a.t});
    } else {
      SubsetSize(InFlight(s'), InFlight(s));
    }
  }

  lemma StepStaysInBudget(s: Host, budget: nat, a: Action)
    requires Inv(s, budget) && Enabled(s, a)
    ensures |InFlight(Apply(s, budget, a))| <= budget
  {
    if a.Decide? {
      DecisionStaysInBudget(s, budget, a);
    } else {
      StepAddsNoRun(s, budget, a);
      SubsetSize(InFlight(Apply(s, budget, a)), InFlight(s));
    }
  }

  /** A forecast that does not shrink, over runs in flight that do not grow, stays high enough. */
  lemma ForecastFrame(s: Host, s': Host, budget: nat)
    requires !Undercounted(s, budget) && InFlight(s') <= InFlight(s)
    requires Undercounted(s', budget) ==>
               && s.lock == s'.lock && s.lock.value in s.runs && Counting(s.runs[s.lock.value].phase)
               && Forecast(s, s.lock.value) <= Forecast(s', s.lock.value)
    ensures !Undercounted(s', budget)
  {
    SubsetSize(InFlight(s'), InFlight(s));
    if Undercounted(s', budget) {
      SubsetSize(Forecast(s, s.lock.value), Forecast(s', s.lock.value));
    }
  }

  lemma ListingKeepsCount(s: Host, budget: nat, a: Action)
    requires Inv(s, budget) && Enabled(s, a)
    requires a.BeginList? || a.EndList? || a.BeginRelist? || a.EndRelist? || a.Unlink?
    ensures !Undercounted(Apply(s, budget, a), budget)
  {
    StepAddsNoRun(s, budget, a);
    ForecastGrows(s, budget, a);
    ForecastFrame(s, Apply(s, budget, a), budget);
  }

  lemma ForecastGrows(s: Host, budget: nat, a: Action)
    requires StructInv(s) && Enabled(s, a)
    requires a.BeginList? || a.EndList? || a.BeginRelist? || a.EndRelist? || a.Unlink?
    ensures var s' := Apply(s, budget, a);
            && s.lock == Some(a.t) && s'.lock == Some(a.t) && a.t in s'.runs
            && Counting(s.runs[a.t].phase) && Counting(s'.runs[a.t].phase)
            && Forecast(s, a.t) <= Forecast(s', a.t)
  {
  }

  lemma DecidingKeepsCount(s: Host, budget: nat, a: Action)
    requires Inv(s, budget) && Enabled(s, a)
    requires IsLocking(a) || a.SnapshotContainers? || a.Decide?
    ensures !Undercounted(Apply(s, budget, a), budget)
  {
    var s' := Apply(s, budget, a);
    if a.GiveUp? {
      StepAddsNoRun(s, budget, a);
      ForecastFrame(s, s', budget);
    }
  }

  lemma SnapshotCountsIff(s: Host, budget: nat, a: Action)
    requires StructInv(s) && Enabled(s, a) && a.SnapshotPids?
    ensures Undercounted(Apply(s, budget, a), budget) <==> Undercounts(s, budget, a)
  {
    var s' := Apply(s, budget, a);
    assert InFlight(s') == InFlight(s);
    assert Forecast(s', a.t) == Occupied(s.owner, s.files, s.runs[a.t].phase.live, s.alive, a.t);
  }

  lemma ReleaseCountsIff(s: Host, budget: nat, a: Action)
    requires Inv(s, budget) && Enabled(s, a) && a.Release?
    ensures Undercounted(Apply(s, budget, a), budget) <==> Undercounts(s, budget, a)
  {
    var s' := Apply(s, budget, a);
    if !StillThere(s, a.t) {
      assert a.t in InFlight(s);
      ProperSubsetSize(InFlight(s'), InFlight(s), a.t);
    } else {
      assert InFlight(s') == InFlight(s);
    }
  }

  lemma LaunchingKeepsCount(s: Host, budget: nat, a: Action)
    requires Inv(s, budget) && Enabled(s, a) && IsLaunching(a)
    ensures !Undercounted(Apply(s, budget, a), budget)
  {
    StepAddsNoRun(s, budget, a);
    ForecastFrame(s, Apply(s, budget, a), budget);
  }

  lemma EnvironmentKeepsCount(s: Host, budget: nat, a: Action)
    requires Inv(s, budget) && Enabled(s, a) && (a.StartProcess? || a.NewRun? || a.KillProcess?)
    ensures !Undercounted(Apply(s, budget, a), budget)
  {
    StepAddsNoRun(s, budget, a);
    ForecastFrame(s, Apply(s, budget, a), budget);
  }

  /** A step keeps the invariant exactly when it does not make a full host look free. */
  lemma StepKeepsInvIff(s: Host, budget: nat, a: Action)
    requires Inv(s, budget) && Enabled(s, a)
    ensures Inv(Apply(s, budget, a), budget) <==> !Undercounts(s, budget, a)
  {
    StepKeepsStructInv(s, budget, a);
    StepStaysInBudget(s, budget, a);
    if a.SnapshotPids? {
      SnapshotCountsIff(s, budget, a);
    } else if a.Release? {
      ReleaseCountsIff(s, budget, a);
    } else if IsLocking(a) || a.SnapshotContainers? || a.Decide? {
      DecidingKeepsCount(s, budget, a);
    } else if IsReading(a) || a.Unlink? {
      ListingKeepsCount(s, budget, a);
    } else if IsLaunching(a) {
      LaunchingKeepsCount(s, budget, a);
    } else {
      EnvironmentKeepsCount(s, budget, a);
    }
  }

  lemma {:induction false} ExecutionKeepsInv(s: Host, budget: nat, actions: seq<Action>)
    requires Inv(s, budget) && Executes(s, budget, actions) && NeverUndercounts(s, budget, actions)
    ensures Inv(Final(s, budget, actions), budget)
    decreases |actions|
  {
    if actions != [] {
      StepKeepsInvIff(s, budget, actions[0]);
      ExecutionKeepsInv(Apply(s, budget, actions[0]), budget, actions[1..]);
    }
  }

  /** The budget holds in every state of every execution that never makes a full host look free. */
  lemma BudgetHoldsUnlessUndercounted(s: Host, budget: nat, actions: seq<Action>)
    requires Init(s) && Executes(s, budget, actions) && NeverUndercounts(s, budget, actions)
    ensures |InFlight(Final(s, budget, actions))| <= budget
  {
    InitHolds(s, budget);
    ExecutionKeepsInv(s, budget, actions);
  }

  lemma {:induction false} ExecutionKeepsStructInv(s: Host, budget: nat, actions: seq<Action>)
    requires StructInv(s) && Executes(s, budget, actions)
    ensures StructInv(Final(s, budget, actions))
    decreases |actions|
  {
    if actions != [] {
      StepKeepsStructInv(s, budget, actions[0]);
      ExecutionKeepsStructInv(Apply(s, budget, actions[0]), budget, actions[1..]);
    }
  }

  // ----- what drivers and listings must do

  lemma ShownIsCounted(s: Host, budget: nat)
    requires StructInv(s) && Shown(s) && |InFlight(s)| <= budget
    ensures Inv(s, budget)
  {
    if s.lock.Some? && Counting(s.runs[s.lock.value].phase) {
      SubsetSize(InFlight(s), Forecast(s, s.lock.value));
    }
  }

  lemma ReadingKeepsShown(s: Host, budget: nat, a: Action)
    requires StructInv(s) && Shown(s) && Enabled(s, a) && !Overlooks(s, a)
    requires IsReading(a) || a.Unlink?
    ensures Shown(Apply(s, budget, a))
  {
    var s' := Apply(s, budget, a);
    StepAddsNoRun(s, budget, a);
    if a.SnapshotPids? {
      forall r | r in InFlight(s')
        ensures r in Forecast(s', a.t)
      {
        assert r in InFlight(s);
      }
    } else if !a.SnapshotContainers? {
      ForecastGrows(s, budget, a);
      if a.Unlink? {
        UnlinkSparesLiveRuns(s, a);
      }
    }
  }

  /** A reaper never removes the file of a run in flight, however much has moved since it listed the files. */
  lemma UnlinkSparesLiveRuns(s: Host, a: Action)
    requires StructInv(s) && Shown(s) && Enabled(s, a) && a.Unlink?
    ensures a.victim !in InFlight(s)
  {
    var p := s.runs[a.t].phase;
    assert Forecast(s, a.t) == Occupied(s.owner, s.files, p.live, p.pids, a.t);
  }

  lemma LockingKeepsShown(s: Host, budget: nat, a: Action)
    requires StructInv(s) && Shown(s) && Enabled(s, a) && (IsLocking(a) || a.Decide?)
    ensures Shown(Apply(s, budget, a))
  {
    if !a.Decide? {
      StepAddsNoRun(s, budget, a);
    }
  }

  lemma ReleaseKeepsShown(s: Host, budget: nat, a: Action)
    requires StructInv(s) && Shown(s) && Enabled(s, a) && a.Release? && !Overlooks(s, a)
    ensures Shown(Apply(s, budget, a))
  {
    StepAddsNoRun(s, budget, a);
  }

  lemma EnvironmentKeepsShown(s: Host, budget: nat, a: Action)
    requires StructInv(s) && Shown(s) && Enabled(s, a)
    requires a.StartProcess? || a.NewRun? || a.KillProcess? || IsLaunching(a)
    ensures Shown(Apply(s, budget, a))
  {
    StepAddsNoRun(s, budget, a);
  }

  /** Every step that overlooks no run keeps every run in flight in view, and the budget. */
  lemma StepKeepsShown(s: Host, budget: nat, a: Action)
    requires Inv(s, budget) && Shown(s) && Enabled(s, a) && !Overlooks(s, a)
    ensures Inv(Apply(s, budget, a), budget) && Shown(Apply(s, budget, a))
  {
    if IsReading(a) || a.Unlink? {
      ReadingKeepsShown(s, budget, a);
    } else if IsLocking(a) || a.Decide? {
      LockingKeepsShown(s, budget, a);
    } else if a.Release? {
      ReleaseKeepsShown(s, budget, a);
    } else {
      EnvironmentKeepsShown(s, budget, a);
    }
    StepKeepsStructInv(s, budget, a);
    StepStaysInBudget(s, budget, a);
    ShownIsCounted(Apply(s, budget, a), budget);
  }

  lemma {:induction false} ExecutionKeepsShown(s: Host, budget: nat, actions: seq<Action>)
    requires Inv(s, budget) && Shown(s) && Executes(s, budget, actions) && NeverOverlooks(s, budget, actions)
    ensures Inv(Final(s, budget, actions), budget) && Shown(Final(s, budget, actions))
    decreases |actions|
  {
    if actions != [] {
      StepKeepsShown(s, budget, actions[0]);
      ExecutionKeepsShown(Apply(s, budget, actions[0]), budget, actions[1..]);
    }
  }

  lemma InitHolds(s: Host, budget: nat)
    requires Init(s)
    ensures Inv(s, budget) && Shown(s)
  {
    assert InFlight(s) == {};
  }

  /**
   A grant leaves at most `budget` tenants on the host, where a container the attempt saw counts
   as a tenant for as long as it runs, whoever started it.
   */
  lemma GrantFits(s: Host, budget: nat, t: Token)
    requires StructInv(s) && Shown(s) && Enabled(s, Decide(t)) && |Forecast(s, t)| < budget
    ensures var s' := Apply(s, budget, Decide(t));
            |InFlight(s') + s.runs[t].phase.live * s'.containers| <= budget
  {
    var p := s.runs[t].phase;
    var s' := Apply(s, budget, Decide(t));
    var tenants := InFlight(s') + p.live * s'.containers;
    assert InFlight(s') <= InFlight(s) + {t};
    SubsetSize(tenants, Forecast(s, t) + {t});
  }

  /**
   The budget is never exceeded: in every state of every execution that overlooks no run, at most
   `budget` runs hold a slot or have a container running or launching, whatever foreign containers
   come and go, and whenever drivers die.
   */
  lemma BudgetIsNeverExceeded(s: Host, budget: nat, actions: seq<Action>)
    requires Init(s) && Executes(s, budget, actions) && NeverOverlooks(s, budget, actions)
    ensures |InFlight(Final(s, budget, actions))| <= budget
    ensures var s' := Final(s, budget, actions);
            |InFlight(s') + s'.containers| <= budget + |s'.containers * s'.foreign|
  {
    InitHolds(s, budget);
    ExecutionKeepsShown(s, budget, actions);
    var s' := Final(s, budget, actions);
    SubsetSize(InFlight(s') + s'.containers, InFlight(s') + s'.containers * s'.foreign);
  }

  /** Whenever an attempt is about to decide, it counts every run then in flight, old as its snapshots and scans may be. */
  lemma DecisionCountsAll(s: Host, budget: nat, actions: seq<Action>, t: Token)
    requires Init(s) && Executes(s, budget, actions) && NeverOverlooks(s, budget, actions)
    requires var s' := Final(s, budget, actions); t in s'.runs && s'.runs[t].phase.Counted?
    ensures var s' := Final(s, budget, actions);
            var p := s'.runs[t].phase;
            InFlight(s') <= Occupied(s'.owner, p.seen, p.live, p.pids, t)
  {
    InitHolds(s, budget);
    ExecutionKeepsShown(s, budget, actions);
  }

  /** With every container gated, `budget` bounds all the containers and slots of the host. */
  lemma GatedHostStaysInBudget(s: Host, budget: nat, actions: seq<Action>)
    requires Init(s) && s.foreign == {} && Executes(s, budget, actions) && NeverOverlooks(s, budget, actions)
    requires forall a | a in actions :: !a.StartForeign?
    ensures var s' := Final(s, budget, actions); |InFlight(s') + s'.containers| <= budget
  {
    BudgetIsNeverExceeded(s, budget, actions);
    NoForeign(s, budget, actions);
    var s' := Final(s, budget, actions);
    assert s'.containers * s'.foreign == {};
  }

  lemma {:induction false} NoForeign(s: Host, budget: nat, actions: seq<Action>)
    requires s.foreign == {} && Executes(s, budget, actions)
    requires forall a | a in actions :: !a.StartForeign?
    ensures Final(s, budget, actions).foreign == {}
    decreases |actions|
  {
    if actions != [] {
      assert actions[0] in actions;
      NoForeign(Apply(s, budget, actions[0]), budget, actions[1..]);
    }
  }
}
