/**
 Host-wide admission as an interleaved protocol. Driver processes share a reservations
 directory and a lock the operating system drops when its holder dies; each admission attempt
 is a series of separate steps, and every other process may move between any two of them.
 */
module AdmissionProtocol {
  import opened Wrappers
  import opened RunTokens
  import opened Occupancy

  /**
   Where a run stands in `SlotGate.acquire` and after it. `Listing` and `Relisting` remember the
   directory as it was when the scan began, because files may be removed while it is under way.
   */
  datatype Phase =
    | Waiting
    | Locked
    | SawContainers(live: set<Token>)
    | SawPids(live: set<Token>, pids: set<Pid>)
    | Listing(live: set<Token>, pids: set<Pid>, atStart: set<Token>)
    | Reaping(live: set<Token>, pids: set<Pid>, stale: set<Token>)
    | Relisting(live: set<Token>, pids: set<Pid>, atStart: set<Token>)
    | Counted(live: set<Token>, pids: set<Pid>, seen: set<Token>)
    | Granted
    | Refused
    | Holding
    | Gone

  datatype Run = Run(pid: Pid, phase: Phase)

  /**
   `launching` holds the runs whose `docker run` client has been started and whose container has not
   appeared yet; client and container outlive the driver. `foreign` names the containers that were
   started without passing the gate.
   */
  datatype Host = Host(
    owner: Owner,
    runs: map<Token, Run>,
    files: set<Token>,
    launching: set<Token>,
    containers: set<Token>,
    foreign: set<Token>,
    alive: set<Pid>,
    lock: Option<Token>)

  datatype Action =
    | StartProcess(pid: Pid)
    | NewRun(t: Token, pid: Pid)
    | TakeLock(t: Token)
    | SnapshotContainers(t: Token, seen: set<Token>)
    | SnapshotPids(t: Token)
    | BeginList(t: Token)
    | EndList(t: Token, seen: set<Token>)
    | Unlink(t: Token, victim: Token, ok: bool)
    | BeginRelist(t: Token)
    | EndRelist(t: Token, seen: set<Token>)
    | Decide(t: Token)
    | Unlock(t: Token)
    | GiveUp(t: Token)
    | Launch(t: Token)
    | StartContainer(t: Token)
    | AbortLaunch(t: Token)
    | ExitContainer(t: Token)
    | Release(t: Token, ok: bool)
    | KillProcess(pid: Pid)
    | StartForeign(t: Token)

  predicate At(s: Host, t: Token, phase: Phase) {
    t in s.runs && s.runs[t].phase == phase
  }

  /** Phases between taking the lock and dropping it. */
  predicate Critical(phase: Phase) {
    !phase.Waiting? && !phase.Holding? && !phase.Gone?
  }

  /** Phases in which a run's reservation has been written and its driver lives. */
  predicate HoldsSlot(phase: Phase) {
    phase.Granted? || phase.Holding?
  }

  /** A scan returns every file present throughout it and none that was absent at its start. */
  predicate ScanOf(seen: set<Token>, atStart: set<Token>, atEnd: set<Token>) {
    atStart * atEnd <= seen <= atStart
  }

  predicate Enabled(s: Host, a: Action) {
    match a
    case StartProcess(pid) => pid !in s.alive
    case NewRun(t, pid) =>
      // Run tokens are unique: no earlier run, container or file carries this one.
      && pid in s.alive && s.owner(t) == Some(pid)
      && t !in s.runs && t !in s.foreign && t !in s.files && t !in s.containers && t !in s.launching
    case TakeLock(t) => At(s, t, Waiting) && s.lock == None
    // The listing may miss containers: when the query fails or times out it is empty.
    case SnapshotContainers(t, seen) => At(s, t, Locked) && seen <= s.containers
    case SnapshotPids(t) => t in s.runs && s.runs[t].phase.SawContainers?
    case BeginList(t) => t in s.runs && s.runs[t].phase.SawPids?
    case EndList(t, seen) =>
      t in s.runs && s.runs[t].phase.Listing? && ScanOf(seen, s.runs[t].phase.atStart, s.files)
    case Unlink(t, victim, _) => t in s.runs && s.runs[t].phase.Reaping? && victim in s.runs[t].phase.stale
    case BeginRelist(t) => t in s.runs && s.runs[t].phase.Reaping? && s.runs[t].phase.stale == {}
    case EndRelist(t, seen) =>
      t in s.runs && s.runs[t].phase.Relisting? && ScanOf(seen, s.runs[t].phase.atStart, s.files)
    case Decide(t) => t in s.runs && s.runs[t].phase.Counted?
    case Unlock(t) => At(s, t, Granted) || At(s, t, Refused)
    case GiveUp(t) => At(s, t, Waiting)
    case Launch(t) => At(s, t, Holding) && t !in s.launching && t !in s.containers
    case StartContainer(t) => t in s.launching
    case AbortLaunch(t) => t in s.launching
    case ExitContainer(t) => t in s.containers
    case Release(t, _) => At(s, t, Holding)
    case KillProcess(pid) => pid in s.alive
    case StartForeign(t) => t !in s.runs && t !in s.containers
  }

  function To(s: Host, t: Token, phase: Phase): Host
    requires t in s.runs
  {
    s.(runs := s.runs[t := s.runs[t].(phase := phase)])
  }

  function Kill(runs: map<Token, Run>, pid: Pid): map<Token, Run> {
    map t | t in runs :: if runs[t].pid == pid then runs[t].(phase := Gone) else runs[t]
  }

  function Apply(s: Host, budget: nat, a: Action): Host
    requires Enabled(s, a)
  {
    match a
    case StartProcess(pid) => s.(alive := s.alive + {pid})
    case NewRun(t, pid) => s.(runs := s.runs[t := Run(pid, Waiting)])
    case TakeLock(t) => To(s, t, Locked).(lock := Some(t))
    case SnapshotContainers(t, seen) => To(s, t, SawContainers(seen))
    case SnapshotPids(t) => To(s, t, SawPids(s.runs[t].phase.live, s.alive))
    case BeginList(t) => var p := s.runs[t].phase; To(s, t, Listing(p.live, p.pids, s.files))
    case EndList(t, seen) =>
      var p := s.runs[t].phase; To(s, t, Reaping(p.live, p.pids, Stale(s.owner, seen, p.live, p.pids)))
    case Unlink(t, victim, ok) =>
      var p := s.runs[t].phase;
      To(s, t, p.(stale := p.stale - {victim})).(files := if ok then s.files - {victim} else s.files)
    case BeginRelist(t) => var p := s.runs[t].phase; To(s, t, Relisting(p.live, p.pids, s.files))
    case EndRelist(t, seen) => var p := s.runs[t].phase; To(s, t, Counted(p.live, p.pids, seen))
    case Decide(t) =>
      var p := s.runs[t].phase;
      if |Occupied(s.owner, p.seen, p.live, p.pids, t)| >= budget then To(s, t, Refused)
      else To(s, t, Granted).(files := s.files + {t})
    case Unlock(t) => To(s, t, if s.runs[t].phase.Granted? then Holding else Waiting).(lock := None)
    case GiveUp(t) => To(s, t, Gone)
    case Launch(t) => s.(launching := s.launching + {t})
    case StartContainer(t) => s.(launching := s.launching - {t}, containers := s.containers + {t})
    case AbortLaunch(t) => s.(launching := s.launching - {t})
    case ExitContainer(t) => s.(containers := s.containers - {t})
    case Release(t, ok) => To(s, t, Gone).(files := if ok then s.files - {t} else s.files)
    case KillProcess(pid) =>
      s.(runs := Kill(s.runs, pid), alive := s.alive - {pid},
         lock := if s.lock.Some? && s.lock.value in s.runs && s.runs[s.lock.value].pid == pid then None else s.lock)
    case StartForeign(t) => s.(containers := s.containers + {t}, foreign := s.foreign + {t})
  }

  /** Any files may be left over from before; every running container then counts as foreign. */
  predicate Init(s: Host) {
    s.runs == map[] && s.lock == None && s.launching == {} && s.containers <= s.foreign
  }

  /** The run's container runs or may still appear. */
  predicate StillThere(s: Host, t: Token) {
    t in s.containers || t in s.launching
  }

  /** A gated run is in flight while a live driver holds its slot, or its container runs or may still appear. */
  predicate RunInFlight(s: Host, t: Token) {
    t in s.runs && (HoldsSlot(s.runs[t].phase) || StillThere(s, t))
  }

  function InFlight(s: Host): set<Token> {
    set t | t in s.runs && RunInFlight(s, t)
  }

  // ----- executions

  predicate Executes(s: Host, budget: nat, actions: seq<Action>)
    decreases |actions|
  {
    actions == [] ||
    (Enabled(s, actions[0]) && Executes(Apply(s, budget, actions[0]), budget, actions[1..]))
  }

  function Final(s: Host, budget: nat, actions: seq<Action>): Host
    requires Executes(s, budget, actions)
    decreases |actions|
  {
    if actions == [] then s else Final(Apply(s, budget, actions[0]), budget, actions[1..])
  }

  // ----- what a step must not do

  /** Phases in which an attempt has both snapshots and has not decided. */
  predicate Counting(phase: Phase) {
    phase.SawPids? || phase.Listing? || phase.Reaping? || phase.Relisting? || phase.Counted?
  }

  /** The files an attempt has read last, or for want of a second reading those it is going to read. */
  function Basis(s: Host, phase: Phase): set<Token> {
    if phase.Counted? then phase.seen else s.files
  }

  /** The runs an attempt that has both snapshots counts if nothing else moves. */
  function Forecast(s: Host, t: Token): set<Token>
    requires t in s.runs && Counting(s.runs[t].phase)
  {
    var p := s.runs[t].phase;
    Occupied(s.owner, Basis(s, p), p.live, p.pids, t)
  }

  /** The host is full and the attempt under way counts it as having room. */
  predicate Undercounted(s: Host, budget: nat) {
    && s.lock.Some? && s.lock.value in s.runs && Counting(s.runs[s.lock.value].phase)
    && |InFlight(s)| >= budget && |Forecast(s, s.lock.value)| < budget
  }

  /**
   The two steps that can make a full host look free: a snapshot of the pids by an attempt whose
   listing, files and pids show fewer than `budget` runs, and the release of a run that is still
   there while an attempt counts on its file.
   */
  predicate Undercounts(s: Host, budget: nat, a: Action) {
    match a
    case SnapshotPids(t) =>
      && t in s.runs && s.runs[t].phase.SawContainers? && |InFlight(s)| >= budget
      && |Occupied(s.owner, s.files, s.runs[t].phase.live, s.alive, t)| < budget
    case Release(t, ok) =>
      && ok && StillThere(s, t) && s.lock.Some? && s.lock.value in s.runs
      && var p := s.runs[s.lock.value].phase;
         Counting(p) && !p.Counted? && |InFlight(s)| >= budget
         && |Occupied(s.owner, s.files - {t}, p.live, p.pids, s.lock.value)| < budget
    case _ => false
  }

  predicate NeverUndercounts(s: Host, budget: nat, actions: seq<Action>)
    requires Executes(s, budget, actions)
    decreases |actions|
  {
    actions == [] ||
    (!Undercounts(s, budget, actions[0]) && NeverUndercounts(Apply(s, budget, actions[0]), budget, actions[1..]))
  }

  /**
   A step overlooks a run when it snapshots the pids while a run in flight is missing from the
   attempt's listing and has no live driver, or no file, to show for it; or when it releases a run
   that is still there, and missing from the listing of an attempt that counts on its file.
   */
  predicate Overlooks(s: Host, a: Action) {
    match a
    case SnapshotPids(t) =>
      && t in s.runs && s.runs[t].phase.SawContainers?
      && exists r | r in InFlight(s) ::
           r !in s.runs[t].phase.live && (r !in s.files || s.runs[r].pid !in s.alive)
    case Release(t, ok) =>
      && ok && StillThere(s, t) && s.lock.Some? && s.lock.value in s.runs
      && var p := s.runs[s.lock.value].phase; Counting(p) && !p.Counted? && t !in p.live
    case _ => false
  }

  predicate NeverOverlooks(s: Host, budget: nat, actions: seq<Action>)
    requires Executes(s, budget, actions)
    decreases |actions|
  {
    actions == [] ||
    (!Overlooks(s, actions[0]) && NeverOverlooks(Apply(s, budget, actions[0]), budget, actions[1..]))
  }

  // ----- the invariants

  predicate LockInv(s: Host) {
    && (s.lock.Some? ==> s.lock.value in s.runs && Critical(s.runs[s.lock.value].phase))
    && forall t | t in s.runs :: Critical(s.runs[t].phase) ==> s.lock == Some(t)
  }

  predicate ProcessInv(s: Host) {
    && (forall t | t in s.runs :: s.owner(t) == Some(s.runs[t].pid))
    && (forall t | t in s.runs :: !s.runs[t].phase.Gone? ==> s.runs[t].pid in s.alive)
    && s.runs.Keys !! s.foreign
    && s.launching <= s.runs.Keys && s.containers <= s.runs.Keys + s.foreign
    && (forall t | t in s.runs && StillThere(s, t) :: s.runs[t].phase.Holding? || s.runs[t].phase.Gone?)
    && (forall t | t in s.runs && HoldsSlot(s.runs[t].phase) :: t in s.files)
  }

  /** What an attempt has snapshot, listed and condemned stays true of those who hold a slot. */
  predicate ScanInv(s: Host) {
    s.lock.Some? && s.lock.value in s.runs ==>
      var p := s.runs[s.lock.value].phase;
      && (Counting(p) ==> forall r | r in s.runs && HoldsSlot(s.runs[r].phase) :: s.runs[r].pid in p.pids)
      && (p.Listing? || p.Relisting? ==> s.files <= p.atStart)
      && (p.Reaping? ==> forall x | x in p.stale :: !Active(s.owner, x, p.live, p.pids))
  }

  /** What holds in every reachable state, whatever happens. */
  predicate StructInv(s: Host) {
    LockInv(s) && ProcessInv(s) && ScanInv(s)
  }

  /** The budget is kept and no attempt under way is about to exceed it. */
  predicate Inv(s: Host, budget: nat) {
    StructInv(s) && |InFlight(s)| <= budget && !Undercounted(s, budget)
  }

  /** An attempt that has its snapshots is bound to count every run in flight. */
  predicate Shown(s: Host) {
    s.lock.Some? && s.lock.value in s.runs && Counting(s.runs[s.lock.value].phase) ==>
      InFlight(s) <= Forecast(s, s.lock.value)
  }
}
