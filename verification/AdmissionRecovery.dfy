/** What crashes and partial listings leave behind: exactly what an attempt then counts, and three ways over the budget. */
module AdmissionRecovery {
  import opened Wrappers
  import opened RunTokens
  import opened Occupancy
  import opened AdmissionProtocol
  import opened AdmissionSafety
  import opened AdmissionExactness
  import opened AdmissionRefinement

  /** Files that still look active although no run in flight stands behind them. */
  function Ghosts(s: Host): set<Token> {
    set t | t in s.files && Active(s.owner, t, {}, s.alive) && !RunInFlight(s, t)
  }

  /** Runs in flight that are missing from a listing and have no live driver, or no file, to show for it. */
  function Unseen(s: Host, live: set<Token>): set<Token> {
    set r | r in InFlight(s) && r !in live && (r !in s.files || s.runs[r].pid !in s.alive)
  }

  /** The tenants an attempt counts that lists `live` and takes the files and pids as they are. */
  function Tenants(s: Host, live: set<Token>): set<Token> {
    InFlight(s) - Unseen(s, live) + live + Ghosts(s)
  }

  /** What an attempt counts is the runs in flight, less those it cannot see, its listing, and the ghosts, exactly. */
  lemma OccupancyIsExact(s: Host, t: Token, live: set<Token>)
    requires ProcessInv(s)
    ensures Occupied(s.owner, s.files, live, s.alive, t) == Tenants(s, live) - {t}
  {
    forall x | x in InFlight(s) && x !in live
      ensures x in Unseen(s, live) <==> !(x in s.files && Active(s.owner, x, live, s.alive))
    {
    }
  }

  /**
   In every reachable state, whatever crashed, failed or was reused before, a waiting run that is
   not interrupted is admitted exactly when fewer than `budget` other tenants are in its view.
   */
  lemma AdmissionIsExact(s: Host, budget: nat, actions: seq<Action>, t: Token, live: set<Token>, removed: set<Token>)
      returns (attempt: seq<Action>)
    requires Init(s) && Executes(s, budget, actions)
    requires var s' := Final(s, budget, actions);
             && At(s', t, Waiting) && s'.lock == None && live <= s'.containers
             && removed <= Stale(s'.owner, s'.files, live, s'.alive)
    ensures var s' := Final(s, budget, actions);
            Reaches(s', budget, attempt,
                    Concluded(s'.(files := s'.files - removed), t, |Tenants(s', live) - {t}| < budget))
  {
    var s' := Final(s, budget, actions);
    InitHolds(s, budget);
    ExecutionKeepsStructInv(s, budget, actions);
    OccupancyIsExact(s', t, live);
    attempt := AttemptRunsThrough(s', budget, t, live, removed);
  }

  // ----- hosts without ghosts

  /** A step that neither reuses the pid of a file left behind nor fails to unlink a released one. */
  predicate Tidy(s: Host, a: Action) {
    && (a.StartProcess? ==> forall t | t in s.files :: s.owner(t) != Some(a.pid))
    && (a.Release? ==> a.ok)
  }

  predicate AlwaysTidy(s: Host, budget: nat, actions: seq<Action>)
    requires Executes(s, budget, actions)
    decreases |actions|
  {
    actions == [] || (Tidy(s, actions[0]) && AlwaysTidy(Apply(s, budget, actions[0]), budget, actions[1..]))
  }

  /** Every file whose pid is alive belongs to a run whose driver holds its slot. */
  predicate NoGhost(s: Host) {
    forall t | t in s.files && Active(s.owner, t, {}, s.alive) :: t in s.runs && HoldsSlot(s.runs[t].phase)
  }

  lemma AttemptAddsNoGhost(s: Host, budget: nat, a: Action)
    requires StructInv(s) && NoGhost(s) && Enabled(s, a)
    requires IsReading(a) || IsLocking(a)
    ensures NoGhost(Apply(s, budget, a))
  {
  }

  lemma TidyStepAddsNoGhost(s: Host, budget: nat, a: Action)
    requires StructInv(s) && NoGhost(s) && Enabled(s, a) && Tidy(s, a)
    ensures NoGhost(Apply(s, budget, a))
  {
    if IsReading(a) || IsLocking(a) {
      AttemptAddsNoGhost(s, budget, a);
    }
  }

  lemma {:induction false} TidyExecutionHasNoGhost(s: Host, budget: nat, actions: seq<Action>)
    requires StructInv(s) && NoGhost(s) && Executes(s, budget, actions) && AlwaysTidy(s, budget, actions)
    ensures StructInv(Final(s, budget, actions)) && NoGhost(Final(s, budget, actions))
    decreases |actions|
  {
    if actions != [] {
      StepKeepsStructInv(s, budget, actions[0]);
      TidyStepAddsNoGhost(s, budget, actions[0]);
      TidyExecutionHasNoGhost(Apply(s, budget, actions[0]), budget, actions[1..]);
    }
  }

  /**
   Crash recovery is exact. After any tidy execution an attempt counts the runs in flight it can
   see and its listing, and nothing else, whichever stale files it managed to remove first; a run
   whose driver died and whose container is gone never holds a slot.
   */
  lemma RecoveryIsExact(s: Host, budget: nat, actions: seq<Action>, t: Token, live: set<Token>, removed: set<Token>)
    requires Init(s) && forall x | x in s.files :: !Active(s.owner, x, {}, s.alive)
    requires Executes(s, budget, actions) && AlwaysTidy(s, budget, actions)
    requires var s' := Final(s, budget, actions); removed <= Stale(s'.owner, s'.files, live, s'.alive)
    ensures var s' := Final(s, budget, actions);
            var occupied := Occupied(s'.owner, s'.files - removed, live, s'.alive, t);
            && occupied == InFlight(s') - Unseen(s', live) + live - {t}
            && forall r | r in s'.runs && s'.runs[r].phase.Gone? && r !in live :: r !in occupied
  {
    InitHolds(s, budget);
    TidyExecutionHasNoGhost(s, budget, actions);
    NoGhostIsCounted(Final(s, budget, actions), t, live, removed);
  }

  lemma NoGhostIsCounted(s: Host, t: Token, live: set<Token>, removed: set<Token>)
    requires ProcessInv(s) && NoGhost(s) && removed <= Stale(s.owner, s.files, live, s.alive)
    ensures var occupied := Occupied(s.owner, s.files - removed, live, s.alive, t);
            && occupied == InFlight(s) - Unseen(s, live) + live - {t}
            && forall r | r in s.runs && s.runs[r].phase.Gone? && r !in live :: r !in occupied
  {
    assert Ghosts(s) == {};
    OccupancyIsExact(s, t, live);
    ReapKeepsOccupied(s.owner, s.files, removed, live, s.alive, t);
  }

  // ----- three ways over the budget

  /** A one-slot host on which `a` and `b` contend, written out field by field. */
  function Duel(owner: Owner, runs: map<Token, Run>, files: set<Token>, launching: set<Token>, containers: set<Token>,
                alive: set<Pid>, lock: Option<Token>): Host {
    Host(owner, runs, files, launching, containers, {}, alive, lock)
  }

  function Empty(owner: Owner): Host {
    Duel(owner, map[], {}, {}, {}, {1, 2}, None)
  }

  /** Run `a` is admitted undisturbed and has not launched its container yet. */
  lemma FirstIsAdmitted(owner: Owner, a: Token) returns (path: seq<Action>)
    requires owner(a) == Some(1)
    ensures Reaches(Empty(owner), 1, path, Duel(owner, map[a := Run(1, Holding)], {a}, {}, {}, {1, 2}, None))
  {
    var s := Empty(owner).(runs := map[a := Run(1, Waiting)]);
    path := Then(Empty(owner), 1, [], Empty(owner), NewRun(a, 1), s);
    var attempt := AttemptRunsThrough(s, 1, a, {}, {});
    assert Occupied(owner, {}, {}, {1, 2}, a) == {};
    var end := Duel(owner, map[a := Run(1, Holding)], {a}, {}, {}, {1, 2}, None);
    assert Concluded(s.(files := {} - {}), a, true) == end;
    Concat(Empty(owner), 1, path, s, attempt, end);
    path := path + attempt;
  }

  /** With `a` admitted, `b` takes the lock and lists no container. */
  lemma SecondLists(owner: Owner, a: Token, b: Token, s: Host) returns (path: seq<Action>, s': Host)
    requires owner(b) == Some(2) && s.owner == owner && b !in s.runs && b !in s.foreign && b !in s.files
    requires b !in s.containers && b !in s.launching && 2 in s.alive && s.lock == None
    ensures s' == s.(runs := s.runs[b := Run(2, SawContainers({}))], lock := Some(b))
    ensures Reaches(s, 1, path, s')
  {
    var s1 := s.(runs := s.runs[b := Run(2, Waiting)]);
    path := Then(s, 1, [], s, NewRun(b, 2), s1);
    var s2 := s.(runs := s.runs[b := Run(2, Locked)], lock := Some(b));
    path := Then(s, 1, path, s1, TakeLock(b), s2);
    s' := s.(runs := s.runs[b := Run(2, SawContainers({}))], lock := Some(b));
    path := Then(s, 1, path, s2, SnapshotContainers(b, {}), s');
  }

  /** What all three ways have in common: `b` lists no container, and `a` is in flight without a driver. */
  ghost predicate Blinded(s: Host, a: Token, b: Token) {
    && StructInv(s) && At(s, a, Gone) && StillThere(s, a) && At(s, b, SawContainers({})) && s.runs.Keys == {a, b}
    && s.runs[a].pid !in s.alive && s.files == {a}
  }

  lemma BlindedExceeds(s: Host, a: Token, b: Token) returns (path: seq<Action>)
    requires Blinded(s, a, b)
    ensures Executes(s, 1, path) && |InFlight(Final(s, 1, path))| > 1
  {
    var look := SnapshotPids(b);
    assert InFlight(s) == {a};
    assert Occupied(s.owner, s.files, {}, s.alive, b) == {};
    var s' := Apply(s, 1, look);
    StepKeepsStructInv(s, 1, look);
    SnapshotCountsIff(s, 1, look);
    var rest := UndercountExceeds(s', 1, b);
    path := [look] + rest;
    assert path[1..] == rest;
  }

  /** Reaching a blinded host from an empty one is reaching one over the budget. */
  lemma ReachBlinded(owner: Owner, a: Token, b: Token, path: seq<Action>, s: Host) returns (longer: seq<Action>)
    requires Reaches(Empty(owner), 1, path, s)
    requires At(s, a, Gone) && StillThere(s, a) && At(s, b, SawContainers({})) && s.runs.Keys == {a, b}
    requires s.runs[a].pid !in s.alive && s.files == {a}
    ensures Init(Empty(owner)) && Executes(Empty(owner), 1, longer) && |InFlight(Final(Empty(owner), 1, longer))| > 1
  {
    InitHolds(Empty(owner), 1);
    ExecutionKeepsStructInv(Empty(owner), 1, path);
    var rest := BlindedExceeds(s, a, b);
    Concat(Empty(owner), 1, path, s, rest, Final(s, 1, rest));
    longer := path + rest;
  }

  /** Run `a` launches, and its container appears if it is to. */
  lemma FirstLaunches(owner: Owner, runs: map<Token, Run>, a: Token, lock: Option<Token>, appears: bool)
      returns (path: seq<Action>)
    requires a in runs && runs[a] == Run(1, Holding)
    ensures Reaches(Duel(owner, runs, {a}, {}, {}, {1, 2}, lock), 1, path,
                    Duel(owner, runs, {a}, if appears then {} else {a}, if appears then {a} else {}, {1, 2}, lock))
  {
    var s := Duel(owner, runs, {a}, {}, {}, {1, 2}, lock);
    var launched := s.(launching := {a});
    path := Then(s, 1, [], s, Launch(a), launched);
    if appears {
      assert launched.launching - {a} == {};
      path := Then(s, 1, path, launched, StartContainer(a), s.(containers := {a}));
    }
  }

  /** Run `a` launches, its container appears if it is to, and its driver dies. */
  lemma FirstDies(owner: Owner, runs: map<Token, Run>, a: Token, lock: Option<Token>, appears: bool)
      returns (path: seq<Action>)
    requires a in runs && runs[a] == Run(1, Holding) && (forall r | r in runs && r != a :: runs[r].pid == 2)
    requires lock.Some? ==> lock.value in runs && lock.value != a
    ensures Reaches(Duel(owner, runs, {a}, {}, {}, {1, 2}, lock), 1, path,
                    Duel(owner, runs[a := Run(1, Gone)], {a}, if appears then {} else {a}, if appears then {a} else {}, {2}, lock))
  {
    path := FirstLaunches(owner, runs, a, lock, appears);
    var s := Duel(owner, runs, {a}, if appears then {} else {a}, if appears then {a} else {}, {1, 2}, lock);
    assert Kill(runs, 1) == runs[a := Run(1, Gone)];
    assert {1, 2} - {1} == {2};
    path := Then(Duel(owner, runs, {a}, {}, {}, {1, 2}, lock), 1, path, s, KillProcess(1),
                 s.(runs := runs[a := Run(1, Gone)], alive := {2}));
  }

  /** The driver of `a` dies between the two snapshots of `b`, and the container of `a` appears just before. */
  lemma KillBetweenSnapshotsExceedsBudget(owner: Owner, a: Token, b: Token) returns (path: seq<Action>)
    requires owner(a) == Some(1) && owner(b) == Some(2)
    ensures Init(Empty(owner)) && Executes(Empty(owner), 1, path) && |InFlight(Final(Empty(owner), 1, path))| > 1
  {
    path := FirstIsAdmitted(owner, a);
    var s := Duel(owner, map[a := Run(1, Holding)], {a}, {}, {}, {1, 2}, None);
    var looks, s1 := SecondLists(owner, a, b, s);
    Concat(Empty(owner), 1, path, s, looks, s1);
    var dies := FirstDies(owner, s1.runs, a, Some(b), true);
    var s2 := Duel(owner, s1.runs[a := Run(1, Gone)], {a}, {}, {a}, {2}, Some(b));
    Concat(Empty(owner), 1, path + looks, s1, dies, s2);
    path := ReachBlinded(owner, a, b, path + looks + dies, s2);
  }

  /**
   The driver of `a` died long before `b` asks for a slot. Either the container of `a` runs and
   the listing of `b` fails, or the client of `a` has not made its container appear yet.
   */
  lemma OrphanExceedsBudget(owner: Owner, a: Token, b: Token, listingFails: bool) returns (path: seq<Action>)
    requires owner(a) == Some(1) && owner(b) == Some(2)
    ensures Init(Empty(owner)) && Executes(Empty(owner), 1, path) && |InFlight(Final(Empty(owner), 1, path))| > 1
  {
    path := FirstIsAdmitted(owner, a);
    var s := Duel(owner, map[a := Run(1, Holding)], {a}, {}, {}, {1, 2}, None);
    var dies := FirstDies(owner, s.runs, a, None, listingFails);
    var s1 := Duel(owner, s.runs[a := Run(1, Gone)], {a}, if listingFails then {} else {a}, if listingFails then {a} else {}, {2}, None);
    Concat(Empty(owner), 1, path, s, dies, s1);
    var looks, s2 := SecondLists(owner, a, b, s1);
    Concat(Empty(owner), 1, path + dies, s1, looks, s2);
    path := ReachBlinded(owner, a, b, path + dies + looks, s2);
  }
}
