/** The conditions of the safety theorems are exact, at the level of the budget itself. */
module AdmissionExactness {
  import opened Wrappers
  import opened Sets
  import opened RunTokens
  import opened Occupancy
  import opened AdmissionProtocol
  import opened AdmissionSafety

  /** An execution that ends over the budget without another step that makes a full host look free. */
  ghost predicate Exceeds(s: Host, budget: nat, path: seq<Action>) {
    Executes(s, budget, path) && NeverUndercounts(s, budget, path) && |InFlight(Final(s, budget, path))| > budget
  }

  /** How far an attempt that has both snapshots is from its decision. */
  function StepsLeft(phase: Phase): nat
    requires Counting(phase)
  {
    match phase
    case SawPids(_, _) => 5
    case Listing(_, _, _) => 4
    case Reaping(_, _, _) => 3
    case Relisting(_, _, _) => 2
    case Counted(_, _, _) => 1
  }

  function StaleLeft(phase: Phase): set<Token> {
    if phase.Reaping? then phase.stale else {}
  }

  /** The step that takes a counting attempt on: it reads the files as they are, and no unlink succeeds. */
  ghost predicate IsNext(s: Host, t: Token, a: Action)
    requires t in s.runs && Counting(s.runs[t].phase)
  {
    match s.runs[t].phase
    case SawPids(_, _) => a == BeginList(t)
    case Listing(_, _, _) => a == EndList(t, s.files)
    case Reaping(_, _, stale) => if stale == {} then a == BeginRelist(t) else a.Unlink? && a == Unlink(t, a.victim, false) && a.victim in stale
    case Relisting(_, _, _) => a == EndRelist(t, s.files)
    case Counted(_, _, _) => a == Decide(t)
  }

  lemma NextStep(s: Host, t: Token) returns (a: Action)
    requires StructInv(s) && s.lock == Some(t) && Counting(s.runs[t].phase)
    ensures IsNext(s, t, a) && Enabled(s, a)
  {
    match s.runs[t].phase
    case SawPids(_, _) => a := BeginList(t);
    case Listing(_, _, _) => a := EndList(t, s.files);
    case Reaping(_, _, stale) =>
      if stale == {} {
        a := BeginRelist(t);
      } else {
        var x :| x in stale;
        a := Unlink(t, x, false);
      }
    case Relisting(_, _, _) => a := EndRelist(t, s.files);
    case Counted(_, _, _) => a := Decide(t);
  }

  lemma NextStepKeepsUndercount(s: Host, budget: nat, t: Token, a: Action)
    requires StructInv(s) && Undercounted(s, budget) && s.lock == Some(t)
    requires IsNext(s, t, a) && Enabled(s, a) && !a.Decide?
    ensures var s' := Apply(s, budget, a);
            && Undercounted(s', budget) && s'.lock == Some(t) && InFlight(s') == InFlight(s)
            && var p, p' := s.runs[t].phase, s'.runs[t].phase;
               && StepsLeft(p') <= StepsLeft(p)
               && (StepsLeft(p') == StepsLeft(p) ==> StaleLeft(p') < StaleLeft(p))
  {
    var s' := Apply(s, budget, a);
    NextStepMovesOnlyPhase(s, budget, t, a);
    assert InFlight(s') == InFlight(s);
    assert Forecast(s', t) == Forecast(s, t);
  }

  /** The step changes nothing but how far the attempt has got. */
  lemma NextStepMovesOnlyPhase(s: Host, budget: nat, t: Token, a: Action)
    requires StructInv(s) && s.lock == Some(t) && Counting(s.runs[t].phase)
    requires IsNext(s, t, a) && Enabled(s, a) && !a.Decide?
    ensures var s' := Apply(s, budget, a);
            && t in s'.runs && s' == s.(runs := s.runs[t := s'.runs[t]]) && s'.runs[t].pid == s.runs[t].pid
            && var p, p' := s.runs[t].phase, s'.runs[t].phase;
               && Counting(p') && p'.live == p.live && p'.pids == p.pids && Basis(s', p') == Basis(s, p)
               && StepsLeft(p') <= StepsLeft(p)
               && (StepsLeft(p') == StepsLeft(p) ==> StaleLeft(p') < StaleLeft(p))
  {
  }

  lemma GrantAddsOne(s: Host, budget: nat, t: Token)
    requires StructInv(s) && Undercounted(s, budget) && s.lock == Some(t) && s.runs[t].phase.Counted?
    ensures |InFlight(Apply(s, budget, Decide(t)))| == |InFlight(s)| + 1
  {
    assert InFlight(Apply(s, budget, Decide(t))) == InFlight(s) + {t};
    assert t !in InFlight(s);
  }

  /** A full host that an attempt undercounts goes over the budget if the attempt is merely left to run. */
  lemma {:induction false} UndercountExceeds(s: Host, budget: nat, t: Token) returns (path: seq<Action>)
    requires StructInv(s) && Undercounted(s, budget) && s.lock == Some(t)
    ensures Exceeds(s, budget, path)
    decreases StepsLeft(s.runs[t].phase), StaleLeft(s.runs[t].phase)
  {
    var a := NextStep(s, t);
    var s' := Apply(s, budget, a);
    StepKeepsStructInv(s, budget, a);
    if a.Decide? {
      GrantAddsOne(s, budget, t);
      path := [a];
      assert path[1..] == [];
    } else {
      NextStepKeepsUndercount(s, budget, t, a);
      var rest := UndercountExceeds(s', budget, t);
      path := [a] + rest;
      assert path[1..] == rest;
    }
  }

  /**
   The condition is exact: of all steps within the budget, those after which the budget can be
   exceeded without another such step are those that make a full host look free, and no others.
   */
  lemma ExactlyUndercountsExceed(s: Host, budget: nat, a: Action)
    requires Inv(s, budget) && Enabled(s, a)
    ensures Undercounts(s, budget, a) <==> exists path :: Exceeds(Apply(s, budget, a), budget, path)
  {
    var s' := Apply(s, budget, a);
    StepKeepsInvIff(s, budget, a);
    StepKeepsStructInv(s, budget, a);
    StepStaysInBudget(s, budget, a);
    if Undercounts(s, budget, a) {
      var path := UndercountExceeds(s', budget, s'.lock.value);
    } else {
      forall path | Executes(s', budget, path) && NeverUndercounts(s', budget, path)
        ensures |InFlight(Final(s', budget, path))| <= budget
      {
        ExecutionKeepsInv(s', budget, path);
      }
    }
  }

  /** Nothing in the attempt's view, once the step is made, but runs in flight: no foreign container and no ghost. */
  predicate OnlyRunsInView(s: Host, a: Action) {
    match a
    case SnapshotPids(t) =>
      t in s.runs && s.runs[t].phase.SawContainers? ==>
        Occupied(s.owner, s.files, s.runs[t].phase.live, s.alive, t) <= InFlight(s)
    case Release(t, _) =>
      s.lock.Some? && s.lock.value in s.runs && Counting(s.runs[s.lock.value].phase) ==>
        var p := s.runs[s.lock.value].phase;
        Occupied(s.owner, s.files - {t}, p.live, p.pids, s.lock.value) <= InFlight(s)
    case _ => true
  }

  lemma SnapshotOverlooksIff(s: Host, budget: nat, a: Action)
    requires StructInv(s) && |InFlight(s)| == budget && Enabled(s, a) && a.SnapshotPids? && OnlyRunsInView(s, a)
    ensures Undercounts(s, budget, a) <==> Overlooks(s, a)
  {
    var live := s.runs[a.t].phase.live;
    var counted := Occupied(s.owner, s.files, live, s.alive, a.t);
    if Overlooks(s, a) {
      var r :| r in InFlight(s) && r !in live && (r !in s.files || s.runs[r].pid !in s.alive);
      ProperSubsetSize(counted, InFlight(s), r);
    } else {
      assert InFlight(s) <= counted;
      SubsetSize(InFlight(s), counted);
    }
  }

  lemma ReleaseOverlooksIff(s: Host, budget: nat, a: Action)
    requires StructInv(s) && Shown(s) && |InFlight(s)| == budget && Enabled(s, a) && a.Release? && OnlyRunsInView(s, a)
    ensures Undercounts(s, budget, a) <==> Overlooks(s, a)
  {
    if a.ok && StillThere(s, a.t) && s.lock.Some? && Counting(s.runs[s.lock.value].phase) && !s.runs[s.lock.value].phase.Counted? {
      var p := s.runs[s.lock.value].phase;
      var counted := Occupied(s.owner, s.files - {a.t}, p.live, p.pids, s.lock.value);
      if a.t !in p.live {
        ProperSubsetSize(counted, InFlight(s), a.t);
      } else {
        assert InFlight(s) <= counted;
        SubsetSize(InFlight(s), counted);
      }
    }
  }

  /**
   On a full host with nothing but runs in flight in view, the steps that let the budget be
   exceeded are exactly those that overlook a run.
   */
  lemma ExactlyOverlookedRunsExceed(s: Host, budget: nat, a: Action)
    requires Inv(s, budget) && Shown(s) && |InFlight(s)| == budget && Enabled(s, a) && OnlyRunsInView(s, a)
    ensures Overlooks(s, a) <==> exists path :: Exceeds(Apply(s, budget, a), budget, path)
  {
    ExactlyUndercountsExceed(s, budget, a);
    if a.SnapshotPids? {
      SnapshotOverlooksIff(s, budget, a);
    } else if a.Release? {
      ReleaseOverlooksIff(s, budget, a);
    }
  }
}
