/** Safety and exact recovery in terms of what drivers, kills and listings do. */
module AdmissionConduct {
  import opened Wrappers
  import opened RunTokens
  import opened Occupancy
  import opened AdmissionProtocol
  import opened AdmissionSafety
  import opened AdmissionRecovery
  import opened AdmissionRefinement

  /** The attempt under way has listed the containers and not yet the pids. */
  predicate BetweenSnapshots(s: Host) {
    s.lock.Some? && s.lock.value in s.runs && s.runs[s.lock.value].phase.SawContainers?
  }

  /**
   Listings of containers succeed; no driver dies while a container of its own is yet to appear,
   nor between the two snapshots of another driver's attempt; a slot is released once its container
   is gone. Any other kill, crash, failed unlink or reuse of a pid is allowed at any time.
   */
  predicate Orderly(s: Host, a: Action) {
    match a
    case SnapshotContainers(_, seen) => seen == s.containers
    case KillProcess(pid) =>
      && (forall r | r in s.launching && r in s.runs :: s.runs[r].pid != pid)
      && (BetweenSnapshots(s) ==> s.runs[s.lock.value].pid == pid)
    case Release(t, _) => !StillThere(s, t)
    case _ => true
  }

  predicate AlwaysOrderly(s: Host, budget: nat, actions: seq<Action>)
    requires Executes(s, budget, actions)
    decreases |actions|
  {
    actions == [] || (Orderly(s, actions[0]) && AlwaysOrderly(Apply(s, budget, actions[0]), budget, actions[1..]))
  }

  /** A run whose driver is gone is not launching, and between two snapshots its container has been listed. */
  predicate OrderInv(s: Host) {
    && (forall r | r in s.launching && r in s.runs :: s.runs[r].phase.Holding?)
    && (BetweenSnapshots(s) ==>
          forall r | r in s.runs && r in s.containers && s.runs[r].phase.Gone? :: r in s.runs[s.lock.value].phase.live)
  }

  /** Where only the phase of one attempt without a container moves, the order is kept. */
  lemma OrderFrame(s: Host, s': Host, t: Token)
    requires OrderInv(s) && t in s.runs && t in s'.runs && s'.runs == s.runs[t := s'.runs[t]] && !StillThere(s, t)
    requires s'.launching == s.launching && s'.containers == s.containers
    requires BetweenSnapshots(s') ==>
               (s'.lock == s.lock && s.lock.value != t && BetweenSnapshots(s)) || (s'.lock == Some(t) && s'.runs[t].phase.live == s'.containers)
    ensures OrderInv(s')
  {
  }

  lemma AttemptKeepsOrder(s: Host, budget: nat, a: Action)
    requires StructInv(s) && OrderInv(s) && Enabled(s, a) && Orderly(s, a) && (IsReading(a) || IsLocking(a) || a.Unlink? || a.Decide?)
    ensures OrderInv(Apply(s, budget, a))
  {
    OrderFrame(s, Apply(s, budget, a), a.t);
  }

  lemma LaunchingKeepsOrder(s: Host, budget: nat, a: Action)
    requires StructInv(s) && OrderInv(s) && Enabled(s, a) && IsLaunching(a)
    ensures OrderInv(Apply(s, budget, a))
  {
  }

  lemma EnvironmentKeepsOrder(s: Host, budget: nat, a: Action)
    requires StructInv(s) && OrderInv(s) && Enabled(s, a) && Orderly(s, a)
    requires a.StartProcess? || a.NewRun? || a.KillProcess? || a.Release?
    ensures OrderInv(Apply(s, budget, a))
  {
  }

  lemma StepKeepsOrder(s: Host, budget: nat, a: Action)
    requires StructInv(s) && OrderInv(s) && Enabled(s, a) && Orderly(s, a)
    ensures OrderInv(Apply(s, budget, a))
  {
    if IsReading(a) || IsLocking(a) || a.Unlink? || a.Decide? {
      AttemptKeepsOrder(s, budget, a);
    } else if IsLaunching(a) {
      LaunchingKeepsOrder(s, budget, a);
    } else {
      EnvironmentKeepsOrder(s, budget, a);
    }
  }

  /** An orderly step overlooks no run. */
  lemma OrderlyStepOverlooksNone(s: Host, a: Action)
    requires StructInv(s) && OrderInv(s) && Enabled(s, a) && Orderly(s, a)
    ensures !Overlooks(s, a)
  {
  }

  lemma {:induction false} OrderlyOverlooksNone(s: Host, budget: nat, actions: seq<Action>)
    requires StructInv(s) && OrderInv(s) && Executes(s, budget, actions) && AlwaysOrderly(s, budget, actions)
    ensures NeverOverlooks(s, budget, actions) && OrderInv(Final(s, budget, actions))
    decreases |actions|
  {
    if actions != [] {
      OrderlyStepOverlooksNone(s, actions[0]);
      StepKeepsOrder(s, budget, actions[0]);
      StepKeepsStructInv(s, budget, actions[0]);
      OrderlyOverlooksNone(Apply(s, budget, actions[0]), budget, actions[1..]);
    }
  }

  /** Under orderly conduct the budget holds in every reachable state, foreign containers apart. */
  lemma OrderlyHostStaysInBudget(s: Host, budget: nat, actions: seq<Action>)
    requires Init(s) && Executes(s, budget, actions) && AlwaysOrderly(s, budget, actions)
    ensures |InFlight(Final(s, budget, actions))| <= budget
    ensures var s' := Final(s, budget, actions);
            |InFlight(s') + s'.containers| <= budget + |s'.containers * s'.foreign|
  {
    InitHolds(s, budget);
    OrderlyOverlooksNone(s, budget, actions);
    BudgetIsNeverExceeded(s, budget, actions);
  }

  /** With a complete listing every run in flight is seen. */
  lemma OrderHidesNone(s: Host)
    requires ProcessInv(s) && OrderInv(s)
    ensures Unseen(s, s.containers) == {}
  {
  }

  /**
   Under orderly conduct, with no pid of a file left behind reused and no unlink on release failed,
   an attempt with a complete listing counts exactly the other runs in flight and the containers,
   whichever stale files it managed to remove first.
   */
  lemma OrderlyRecoveryIsExact(s: Host, budget: nat, actions: seq<Action>, t: Token, removed: set<Token>)
    requires Init(s) && forall x | x in s.files :: !Active(s.owner, x, {}, s.alive)
    requires Executes(s, budget, actions) && AlwaysOrderly(s, budget, actions) && AlwaysTidy(s, budget, actions)
    requires var s' := Final(s, budget, actions); removed <= Stale(s'.owner, s'.files, s'.containers, s'.alive)
    ensures var s' := Final(s, budget, actions);
            Occupied(s'.owner, s'.files - removed, s'.containers, s'.alive, t) == InFlight(s') + s'.containers - {t}
  {
    var s' := Final(s, budget, actions);
    InitHolds(s, budget);
    ExecutionKeepsStructInv(s, budget, actions);
    OrderlyOverlooksNone(s, budget, actions);
    OrderHidesNone(s');
    RecoveryIsExact(s, budget, actions, t, s'.containers, removed);
  }

  /** So a waiting run that is not interrupted is admitted exactly when fewer than `budget` others are in flight. */
  lemma OrderlyAdmissionIsExact(s: Host, budget: nat, actions: seq<Action>, t: Token, removed: set<Token>)
      returns (attempt: seq<Action>)
    requires Init(s) && s.foreign == {} && forall x | x in s.files :: !Active(s.owner, x, {}, s.alive)
    requires forall a | a in actions :: !a.StartForeign?
    requires Executes(s, budget, actions) && AlwaysOrderly(s, budget, actions) && AlwaysTidy(s, budget, actions)
    requires var s' := Final(s, budget, actions);
             At(s', t, Waiting) && s'.lock == None && removed <= Stale(s'.owner, s'.files, s'.containers, s'.alive)
    ensures var s' := Final(s, budget, actions);
            Reaches(s', budget, attempt, Concluded(s'.(files := s'.files - removed), t, |InFlight(s') - {t}| < budget))
  {
    var s' := Final(s, budget, actions);
    InitHolds(s, budget);
    ExecutionKeepsStructInv(s, budget, actions);
    NoForeign(s, budget, actions);
    OrderlyRecoveryIsExact(s, budget, actions, t, {});
    attempt := GatedAttemptIsExact(s', budget, t, removed);
  }

  lemma GatedAttemptIsExact(s: Host, budget: nat, t: Token, removed: set<Token>) returns (attempt: seq<Action>)
    requires ProcessInv(s) && s.foreign == {} && At(s, t, Waiting) && s.lock == None
    requires Occupied(s.owner, s.files - {}, s.containers, s.alive, t) == InFlight(s) + s.containers - {t}
    requires removed <= Stale(s.owner, s.files, s.containers, s.alive)
    ensures Reaches(s, budget, attempt, Concluded(s.(files := s.files - removed), t, |InFlight(s) - {t}| < budget))
  {
    assert s.files - {} == s.files && InFlight(s) + s.containers == InFlight(s);
    attempt := AttemptRunsThrough(s, budget, t, s.containers, removed);
  }
}
