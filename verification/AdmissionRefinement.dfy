/** The gate's attempt as one driver runs it is a path of the interleaved protocol. */
module AdmissionRefinement {
  import opened Wrappers
  import opened RunTokens
  import opened Occupancy
  import opened AdmissionProtocol
  import opened SlotGate

  /** `start` reaches `s` by `actions`. */
  ghost predicate Reaches(start: Host, budget: nat, actions: seq<Action>, s: Host) {
    Executes(start, budget, actions) && Final(start, budget, actions) == s
  }

  lemma {:induction false} Concat(start: Host, budget: nat, first: seq<Action>, mid: Host, second: seq<Action>, s: Host)
    requires Reaches(start, budget, first, mid) && Reaches(mid, budget, second, s)
    ensures Reaches(start, budget, first + second, s)
    decreases |first|
  {
    if first == [] {
      assert first + second == second;
    } else {
      assert (first + second)[1..] == first[1..] + second;
      Concat(Apply(start, budget, first[0]), budget, first[1..], mid, second, s);
    }
  }

  lemma OneStep(s: Host, budget: nat, a: Action)
    requires Enabled(s, a)
    ensures Reaches(s, budget, [a], Apply(s, budget, a))
  {
    assert [a][1..] == [];
  }

  lemma Then(start: Host, budget: nat, actions: seq<Action>, s: Host, a: Action, s': Host) returns (longer: seq<Action>)
    requires Reaches(start, budget, actions, s) && Enabled(s, a) && Apply(s, budget, a) == s'
    ensures longer == actions + [a] && Reaches(start, budget, longer, s')
  {
    longer := actions + [a];
    OneStep(s, budget, a);
    Concat(start, budget, actions, s, [a], s');
  }

  /** Removing all the stale files one by one, where only those in `removed` go. */
  lemma {:induction false} UnlinkAll(s: Host, budget: nat, t: Token, removed: set<Token>) returns (path: seq<Action>)
    requires t in s.runs && s.runs[t].phase.Reaping?
    ensures var p := s.runs[t].phase;
            Reaches(s, budget, path, To(s, t, Reaping(p.live, p.pids, {})).(files := s.files - removed * p.stale))
    decreases s.runs[t].phase.stale
  {
    var p := s.runs[t].phase;
    if p.stale == {} {
      assert To(s, t, Reaping(p.live, p.pids, {})).(files := s.files - removed * p.stale) == s;
      return [];
    }
    var x :| x in p.stale;
    var a := Unlink(t, x, x in removed);
    var s' := Apply(s, budget, a);
    var rest := UnlinkAll(s', budget, t, removed);
    assert s'.files - removed * (p.stale - {x}) == s.files - removed * p.stale;
    OneStep(s, budget, a);
    path := [a] + rest;
    Concat(s, budget, [a], s', rest, To(s, t, Reaping(p.live, p.pids, {})).(files := s.files - removed * p.stale));
  }

  /** From a free lock to the list of stale files. */
  lemma LookAround(s: Host, budget: nat, t: Token, live: set<Token>) returns (path: seq<Action>)
    requires At(s, t, Waiting) && s.lock == None && live <= s.containers
    ensures Reaches(s, budget, path, To(s, t, Reaping(live, s.alive, Stale(s.owner, s.files, live, s.alive))).(lock := Some(t)))
  {
    var held := s.(lock := Some(t));
    var s1 := To(held, t, Locked);
    path := Then(s, budget, [], s, TakeLock(t), s1);
    var s2 := To(held, t, SawContainers(live));
    path := Then(s, budget, path, s1, SnapshotContainers(t, live), s2);
    var s3 := To(held, t, SawPids(live, s.alive));
    path := Then(s, budget, path, s2, SnapshotPids(t), s3);
    var s4 := To(held, t, Listing(live, s.alive, s.files));
    path := Then(s, budget, path, s3, BeginList(t), s4);
    path := Then(s, budget, path, s4, EndList(t, s.files),
                 To(held, t, Reaping(live, s.alive, Stale(s.owner, s.files, live, s.alive))));
  }

  /** From an empty list of stale files to the count. */
  lemma ReadAgain(s: Host, budget: nat, t: Token) returns (path: seq<Action>)
    requires t in s.runs && s.runs[t].phase.Reaping? && s.runs[t].phase.stale == {} && s.lock == Some(t)
    ensures var p := s.runs[t].phase; Reaches(s, budget, path, To(s, t, Counted(p.live, p.pids, s.files)))
  {
    var p := s.runs[t].phase;
    var s1 := To(s, t, Relisting(p.live, p.pids, s.files));
    path := Then(s, budget, [], s, BeginRelist(t), s1);
    path := Then(s, budget, path, s1, EndRelist(t, s.files), To(s, t, Counted(p.live, p.pids, s.files)));
  }

  /** From an empty list of stale files to the verdict and the free lock. */
  lemma Conclude(s: Host, budget: nat, t: Token) returns (path: seq<Action>)
    requires t in s.runs && s.runs[t].phase.Reaping? && s.runs[t].phase.stale == {} && s.lock == Some(t)
    ensures var p := s.runs[t].phase;
            Reaches(s, budget, path, Concluded(s, t, |Occupied(s.owner, s.files, p.live, p.pids, t)| < budget))
  {
    var p := s.runs[t].phase;
    var admitted := |Occupied(s.owner, s.files, p.live, p.pids, t)| < budget;
    var read := ReadAgain(s, budget, t);
    var s2 := To(s, t, Counted(p.live, p.pids, s.files));
    var decide := DecideAndUnlock(s2, budget, t);
    assert Concluded(s2, t, admitted) == Concluded(s, t, admitted);
    Concat(s, budget, read, s2, decide, Concluded(s, t, admitted));
    path := read + decide;
  }

  /** From the count to the verdict and the free lock. */
  lemma DecideAndUnlock(s: Host, budget: nat, t: Token) returns (path: seq<Action>)
    requires t in s.runs && s.runs[t].phase.Counted? && s.lock == Some(t)
    ensures var p := s.runs[t].phase;
            Reaches(s, budget, path, Concluded(s, t, |Occupied(s.owner, p.seen, p.live, p.pids, t)| < budget))
  {
    var p := s.runs[t].phase;
    var admitted := |Occupied(s.owner, p.seen, p.live, p.pids, t)| < budget;
    var s1 := if admitted then To(s, t, Granted).(files := s.files + {t}) else To(s, t, Refused);
    path := Then(s, budget, [], s, Decide(t), s1);
    path := Then(s, budget, path, s1, Unlock(t), Concluded(s, t, admitted));
  }

  /** An attempt over: a run admitted holds its slot and its file, any other waits again. */
  function Concluded(s: Host, t: Token, admitted: bool): Host
    requires t in s.runs
  {
    To(s, t, if admitted then Holding else Waiting).(lock := None, files := if admitted then s.files + {t} else s.files)
  }

  /**
   An attempt nobody interrupts takes the host from a free lock to a free lock, whatever its
   listing misses and whichever stale files it gets removed, and admits the run exactly when its
   snapshots show fewer than `budget` others.
   */
  lemma AttemptRunsThrough(s: Host, budget: nat, t: Token, live: set<Token>, removed: set<Token>) returns (path: seq<Action>)
    requires At(s, t, Waiting) && s.lock == None && live <= s.containers && removed <= Stale(s.owner, s.files, live, s.alive)
    ensures Reaches(s, budget, path,
                    Concluded(s.(files := s.files - removed), t, |Occupied(s.owner, s.files, live, s.alive, t)| < budget))
  {
    var reaped := To(s, t, Reaping(live, s.alive, {})).(lock := Some(t), files := s.files - removed);
    var reap := ReapWhileLocked(s, budget, t, live, removed);
    var conclude := Conclude(reaped, budget, t);
    ReapKeepsOccupied(s.owner, s.files, removed, live, s.alive, t);
    var admitted := |Occupied(s.owner, s.files, live, s.alive, t)| < budget;
    ConclusionsAgree(s, t, live, removed, admitted);
    path := reap + conclude;
    Concat(s, budget, reap, reaped, conclude, Concluded(s.(files := s.files - removed), t, admitted));
  }

  /** From a free lock to an empty list of stale files. */
  lemma ReapWhileLocked(s: Host, budget: nat, t: Token, live: set<Token>, removed: set<Token>) returns (path: seq<Action>)
    requires At(s, t, Waiting) && s.lock == None && live <= s.containers && removed <= Stale(s.owner, s.files, live, s.alive)
    ensures Reaches(s, budget, path, To(s, t, Reaping(live, s.alive, {})).(lock := Some(t), files := s.files - removed))
  {
    var stale := Stale(s.owner, s.files, live, s.alive);
    var listed := To(s, t, Reaping(live, s.alive, stale)).(lock := Some(t));
    var look := LookAround(s, budget, t, live);
    var unlink := UnlinkAll(listed, budget, t, removed);
    assert removed * stale == removed;
    path := look + unlink;
    Concat(s, budget, look, listed, unlink, To(s, t, Reaping(live, s.alive, {})).(lock := Some(t), files := s.files - removed));
  }

  /** However far the attempt had got, it ends alike. */
  lemma ConclusionsAgree(s: Host, t: Token, live: set<Token>, removed: set<Token>, admitted: bool)
    requires t in s.runs
    ensures Concluded(To(s, t, Reaping(live, s.alive, {})).(lock := Some(t), files := s.files - removed), t, admitted)
         == Concluded(s.(files := s.files - removed), t, admitted)
  {
  }

  lemma TokensAfter(before: map<string, bool>, removed: set<Token>, lockName: string, t: Token)
    requires t != lockName
    ensures TokensIn(before - removed, lockName) == TokensIn(before, lockName) - removed
    ensures TokensIn((before - removed)[t := true], lockName) == TokensIn(before, lockName) - removed + {t}
  {
  }

  /**
   Whatever outcome the gate's `TryAdmit` promises, for any listing of some of the containers, the
   protocol reaches: it leaves the same directory, and admits exactly when the protocol does.
   */
  lemma TryAdmitRefinesProtocol(gate: SlotGate, a: Attempt, after: map<string, bool>, admitted: bool, s: Host, t: Token)
      returns (path: seq<Action>)
    requires gate.Outcome(a, after, t, admitted) && t != gate.lockName
    requires At(s, t, Waiting) && s.lock == None && s.owner == gate.owner
    requires s.files == TokensIn(a.before, gate.lockName) && a.live <= s.containers && s.alive == a.pids
    ensures Reaches(s, gate.budget, path, Concluded(s.(files := s.files - a.removed), t, admitted))
    ensures Concluded(s.(files := s.files - a.removed), t, admitted).files == TokensIn(after, gate.lockName)
  {
    gate.OutcomeByTokens(a, after, t, admitted);
    TokensAfter(a.before, a.removed, gate.lockName, t);
    path := AttemptRunsThrough(s, gate.budget, t, a.live, a.removed);
  }
}
