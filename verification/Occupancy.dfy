/** What the gate may conclude from a directory listing and its two liveness signals. */
module Occupancy {
  import opened Wrappers
  import opened RunTokens

  /** How a process id is read back from a token; `PidFromToken` is the program's reading. */
  type Owner = Token -> Option<Pid>

  /** A reservation is active while its container runs or its driver's pid is alive. */
  predicate Active(owner: Owner, t: Token, live: set<Token>, pids: set<Pid>) {
    t in live || (owner(t).Some? && owner(t).value in pids)
  }

  /** Reservation files no live run stands behind. */
  function Stale(owner: Owner, files: set<Token>, live: set<Token>, pids: set<Pid>): set<Token> {
    set t | t in files && !Active(owner, t, live, pids)
  }

  /** The distinct runs holding a slot, other than `own`. */
  function Occupied(owner: Owner, files: set<Token>, live: set<Token>, pids: set<Pid>, own: Token): set<Token> {
    (live + set t | t in files && Active(owner, t, live, pids)) - {own}
  }

  /** Whichever unlinks fail, reaping changes neither the occupied runs nor any live run's file. */
  lemma ReapKeepsOccupied(owner: Owner, files: set<Token>, removed: set<Token>, live: set<Token>, pids: set<Pid>, own: Token)
    requires removed <= Stale(owner, files, live, pids)
    ensures Occupied(owner, files - removed, live, pids, own) == Occupied(owner, files, live, pids, own)
    ensures forall t | t in files :: Active(owner, t, live, pids) ==> t in files - removed
    ensures removed !! live
  {
    assert forall t | t in removed :: !Active(owner, t, live, pids);
  }
}
