/**
 The admission gate as one driver runs it: lock, snapshots, reaping, counting and the polling
 loops around them. The operating system, Docker and the clock answer arbitrarily.
 */
module SlotGate {
  import opened Wrappers
  import opened RunTokens
  import opened Occupancy
  import opened Clocks

  datatype Reservation = Reservation(token: Token, pid: Option<Pid>)

  datatype AdmissionError = LockTimeout | SlotTimeout

  predicate ReservationIsActive(r: Reservation, live: set<Token>, pids: set<Pid>) {
    r.token in live || (r.pid.Some? && r.pid.value in pids)
  }

  function SelectStale(rs: seq<Reservation>, live: set<Token>, pids: set<Pid>): (stale: seq<Reservation>)
    ensures forall r :: r in stale <==> r in rs && !ReservationIsActive(r, live, pids)
  {
    if rs == [] then []
    else (if ReservationIsActive(rs[0], live, pids) then [] else [rs[0]]) + SelectStale(rs[1..], live, pids)
  }

  /** What reading the files `files` back yields, in some order. */
  predicate Reads(rs: seq<Reservation>, files: set<Token>, owner: Owner) {
    && (forall r | r in rs :: r.token in files && r.pid == owner(r.token))
    && (forall t | t in files :: Reservation(t, owner(t)) in rs)
  }

  /** Over a reading of the directory the program's counts are those of the protocol. */
  lemma ReadingIsFaithful(rs: seq<Reservation>, files: set<Token>, owner: Owner, live: set<Token>, pids: set<Pid>, own: Token)
    requires Reads(rs, files, owner)
    ensures (live + set r | r in rs && ReservationIsActive(r, live, pids) :: r.token) - {own}
         == Occupied(owner, files, live, pids, own)
    ensures (set r | r in rs && !ReservationIsActive(r, live, pids) :: r.token) == Stale(owner, files, live, pids)
  {
    forall t | t in files
      ensures Reservation(t, owner(t)) in rs
      ensures ReservationIsActive(Reservation(t, owner(t)), live, pids) == Active(owner, t, live, pids)
    {
    }
  }

  method CountOccupiedSlots(rs: seq<Reservation>, live: set<Token>, pids: set<Pid>, exclude: Token) returns (n: nat)
    ensures n == |(live + set r | r in rs && ReservationIsActive(r, live, pids) :: r.token) - {exclude}|
  {
    var occupied := live - {exclude};
    for i := 0 to |rs|
      invariant occupied == (live + set r | r in rs[..i] && ReservationIsActive(r, live, pids) :: r.token) - {exclude}
    {
      var r := rs[i];
      assert rs[..i + 1] == rs[..i] + [r];
      if r.token != exclude && ReservationIsActive(r, live, pids) {
        occupied := occupied + {r.token};
      }
    }
    assert rs[..|rs|] == rs;
    n := |occupied|;
  }

  /** Every sleep since then was one of these. */
  ghost predicate NappedBy(before: seq<real>, after: seq<real>, naps: set<real>) {
    before <= after && forall i | |before| <= i < |after| :: after[i] in naps
  }

  /** The lock file as one process sees it; the system may refuse the lock at any try. */
  class LockFile {
    var openHandles: nat
    var locked: bool

    method Open()
      modifies this
      ensures openHandles == old(openHandles) + 1 && locked == old(locked)
    {
      openHandles := openHandles + 1;
    }

    method TryLock() returns (ok: bool)
      modifies `locked
      ensures locked == (old(locked) || ok)
    {
      ok := *;
      locked := locked || ok;
    }

    /** Closing the handle drops the lock, as the death of the process does. */
    method Close()
      requires openHandles > 0
      modifies this
      ensures openHandles == old(openHandles) - 1 && !locked
    {
      openHandles, locked := openHandles - 1, false;
    }
  }

  class CrossProcessLock {
    const file: LockFile
    var held: bool

    ghost predicate Valid()
      reads this, file
    {
      held ==> file.locked && file.openHandles > 0
    }

    constructor (file: LockFile)
      ensures this.file == file && !held
    {
      this.file := file;
      held := false;
    }

    /**
     Succeeds holding the lock on one more open handle, or gives up, with every handle closed
     again, after a try that failed at or past the deadline.
     */
    method Acquire(timeout: real, poll: real, clock: Clock) returns (ok: bool, ghost tries: nat)
      requires !held && poll >= 0.0
      modifies this, file, clock
      ensures Valid() && held == ok
      ensures file.openHandles == old(file.openHandles) + if ok then 1 else 0
      ensures ok ==> file.locked
      ensures !ok ==> clock.now >= old(clock.now) + timeout && !file.locked
      ensures 1 <= tries <= MaxSleeps(timeout, clock.Step(poll)) + 1
      ensures clock.now >= old(clock.now) && Napped(old(clock.naps), clock.naps, poll, tries - 1)
    {
      file.Open();
      var start := clock.Monotonic();
      var deadline := start + timeout;
      tries := 0;
      while true
        invariant !held && file.openHandles == old(file.openHandles) + 1
        invariant start >= old(clock.now) && clock.now >= start
        invariant Napped(old(clock.naps), clock.naps, poll, tries)
        invariant tries + MaxSleeps(deadline - clock.now, clock.Step(poll)) <= MaxSleeps(timeout, clock.Step(poll))
        decreases MaxSleeps(deadline - clock.now, clock.Step(poll))
      {
        ghost var remaining := deadline - clock.now;
        var got := file.TryLock();
        tries := tries + 1;
        if got {
          held := true;
          return true, tries;
        }
        var t := clock.Monotonic();
        if t >= deadline {
          file.Close();
          return false, tries;
        }
        clock.Sleep(poll);
        SleepShortensWait(remaining, deadline - t, deadline - clock.now, clock.Step(poll));
      }
    }

    /** Harmless when the lock is not held. */
    method Release()
      requires Valid()
      modifies this, file
      ensures !held
      ensures file.openHandles == old(file.openHandles) - if old(held) then 1 else 0
      ensures file.locked == (old(file.locked) && !old(held))
    {
      if held {
        held := false;
        file.Close();
      }
    }
  }

  /** The reservation files of a directory: its regular files but the lock file. */
  function TokensIn(entries: map<string, bool>, lockName: string): set<Token> {
    set n | n in entries && entries[n] && n != lockName
  }

  /** The reservations directory; `entries` says of each name whether it is a regular file. */
  class Directory {
    var entries: map<string, bool>
    /** The names the system refuses to unlink for now. */
    var held: set<string>
    /** The entries as other processes left them when they last moved. */
    ghost var left: map<string, bool>

    function Tokens(lockName: string): set<Token>
      reads this
    {
      TokensIn(entries, lockName)
    }

    /** Other processes add and remove files while this one waits or sleeps. */
    method OthersMove()
      modifies this
      ensures left == entries
    {
      entries, held := *, *;
      left := entries;
    }

    /** Removes a file, unless the system refuses; a file already gone counts as removed. */
    method Unlink(name: string) returns (ok: bool)
      modifies `entries
      ensures ok == (name !in held)
      ensures entries == if ok then old(entries) - {name} else old(entries)
    {
      ok := name !in held;
      if ok { entries := entries - {name}; }
    }

    method Write(name: string)
      modifies `entries
      ensures entries == old(entries)[name := true]
    {
      entries := entries[name := true];
    }
  }

  class SlotHandle {
    const token: Token
    const dir: Directory
    var released: bool

    constructor (token: Token, dir: Directory)
      ensures this.token == token && this.dir == dir && !released
    {
      this.token, this.dir, released := token, dir, false;
    }

    /** The first call removes this run's file if the system lets it; later calls do nothing. */
    method Release()
      modifies this, dir`entries
      ensures released
      ensures dir.entries == if old(released) || token in dir.held then old(dir.entries) else old(dir.entries) - {token}
    {
      if released { return; }
      released := true;
      var _ := dir.Unlink(token);
    }
  }

  /** The injected liveness callables: any answer at all, of which the latest is remembered. */
  class Signals {
    var live: set<Token>
    var pids: set<Pid>

    method LiveTokens() returns (r: set<Token>)
      modifies `live
      ensures r == live
    {
      live := *;
      return live;
    }

    method AlivePids() returns (r: set<Pid>)
      modifies `pids
      ensures r == pids
    {
      pids := *;
      return pids;
    }
  }

  /** What one attempt found and saw, and the stale files it got removed. */
  datatype Attempt = Attempt(before: map<string, bool>, held: set<string>, live: set<Token>, pids: set<Pid>, removed: set<Token>)

  class SlotGate {
    /** How a pid is read back from a file name: `PidFromToken`. */
    const owner: Owner
    const dir: Directory
    const lockName: string
    const budget: nat
    const signals: Signals
    const lockFile: LockFile
    const clock: Clock
    const waitTimeout: real
    const poll: real
    const lockTimeout: real
    const lockPoll: real

    constructor (dir: Directory, lockName: string, budget: int, signals: Signals, lockFile: LockFile, clock: Clock,
                 waitTimeout: real, poll: real, lockTimeout: real, lockPoll: real)
      ensures this.dir == dir && this.lockName == lockName && this.signals == signals && this.lockFile == lockFile
      ensures this.clock == clock && this.waitTimeout == waitTimeout && this.poll == poll
      ensures this.lockTimeout == lockTimeout && this.lockPoll == lockPoll
      ensures this.owner == PidFromToken
      ensures this.budget >= 1 && (budget >= 1 ==> this.budget == budget)
    {
      this.owner := PidFromToken;
      this.dir, this.lockName, this.signals, this.lockFile, this.clock := dir, lockName, signals, lockFile, clock;
      this.budget := if budget < 1 then 1 else budget;
      this.waitTimeout, this.poll, this.lockTimeout, this.lockPoll := waitTimeout, poll, lockTimeout, lockPoll;
    }

    /** One reservation per regular file but the lock, each with the pid its name encodes. */
    method ReadReservations() returns (rs: seq<Reservation>)
      ensures Reads(rs, dir.Tokens(lockName), owner)
    {
      rs := [];
      var todo := dir.entries.Keys;
      while todo != {}
        invariant todo <= dir.entries.Keys
        invariant Reads(rs, dir.Tokens(lockName) - todo, owner)
      {
        var name :| name in todo;
        todo := todo - {name};
        if dir.entries[name] && name != lockName {
          rs := rs + [Reservation(name, owner(name))];
        }
      }
    }

    /** Removes exactly the stale files the system lets go, and skips the others. */
    method ReapStale(rs: seq<Reservation>, live: set<Token>, pids: set<Pid>) returns (ghost removed: set<Token>)
      modifies dir`entries
      ensures removed == (set r | r in rs && !ReservationIsActive(r, live, pids) :: r.token) - dir.held
      ensures dir.entries == old(dir.entries) - removed
    {
      var stale := SelectStale(rs, live, pids);
      removed := {};
      for i := 0 to |stale|
        invariant removed == (set r | r in stale[..i] :: r.token) - dir.held
        invariant dir.entries == old(dir.entries) - removed
      {
        assert stale[..i + 1] == stale[..i] + [stale[i]];
        var ok := dir.Unlink(stale[i].token);
        if ok { removed := removed + {stale[i].token}; }
      }
      assert stale[..|stale|] == stale;
    }

    /** The entry is a regular file other than the lock. */
    predicate IsReservation(entries: map<string, bool>, n: string) {
      n in entries && entries[n] && n != lockName
    }

    /** Its container runs or its owner's pid is alive. */
    predicate IsLive(n: string, live: set<Token>, pids: set<Pid>) {
      n in live || (owner(n).Some? && owner(n).value in pids)
    }

    /**
     How an attempt must decide and leave the directory: it removes the reservations that are not
     live, but for those the system holds on to, and is admitted exactly when the containers and live
     reservations other than its own number fewer than the budget.
     */
    ghost predicate Outcome(a: Attempt, after: map<string, bool>, token: Token, admitted: bool) {
      && a.removed == (set n | n in a.before && IsReservation(a.before, n) && !IsLive(n, a.live, a.pids) && n !in a.held)
      && (admitted <==> |(a.live + set n | n in a.before && IsReservation(a.before, n) && IsLive(n, a.live, a.pids)) - {token}| < budget)
      && after == if admitted then (a.before - a.removed)[token := true] else a.before - a.removed
    }

    /** The lock file and whatever is no regular file are left as they were. */
    predicate SparesOthers(before: map<string, bool>, after: map<string, bool>, token: Token) {
      forall n | n in before && n != token && (n == lockName || !before[n]) :: n in after && after[n] == before[n]
    }

    lemma OutcomeSparesOthers(a: Attempt, after: map<string, bool>, token: Token, admitted: bool)
      requires Outcome(a, after, token, admitted)
      ensures SparesOthers(a.before, after, token)
    {
    }

    /** The same outcome in terms of the protocol's sets. */
    lemma OutcomeByTokens(a: Attempt, after: map<string, bool>, token: Token, admitted: bool)
      ensures var files := TokensIn(a.before, lockName);
              Outcome(a, after, token, admitted) <==>
                && a.removed == Stale(owner, files, a.live, a.pids) - a.held
                && (admitted <==> |Occupied(owner, files, a.live, a.pids, token)| < budget)
                && after == if admitted then (a.before - a.removed)[token := true] else a.before - a.removed
    {
      var files := TokensIn(a.before, lockName);
      assert (set n | n in a.before && IsReservation(a.before, n) && !IsLive(n, a.live, a.pids) && n !in a.held)
          == Stale(owner, files, a.live, a.pids) - a.held;
      assert (a.live + set n | n in a.before && IsReservation(a.before, n) && IsLive(n, a.live, a.pids)) - {token}
          == Occupied(owner, files, a.live, a.pids, token);
    }

    /** The body of an attempt: read, reap, read again, count. */
    method CountAfterReaping(token: Token, live: set<Token>, pids: set<Pid>) returns (occupied: nat, ghost removed: set<Token>)
      modifies dir`entries
      ensures removed == Stale(owner, old(dir.Tokens(lockName)), live, pids) - dir.held
      ensures dir.entries == old(dir.entries) - removed
      ensures occupied == |Occupied(owner, old(dir.Tokens(lockName)), live, pids, token)|
    {
      ghost var files := dir.Tokens(lockName);
      var reservations := ReadReservations();
      ReadingIsFaithful(reservations, files, owner, live, pids, token);
      removed := ReapStale(reservations, live, pids);
      assert dir.Tokens(lockName) == files - removed;
      reservations := ReadReservations();
      ReadingIsFaithful(reservations, files - removed, owner, live, pids, token);
      ReapKeepsOccupied(owner, files, removed, live, pids, token);
      occupied := CountOccupiedSlots(reservations, live, pids, token);
    }

    /**
     Once it has the lock, on whatever directory the others left by then: admits exactly when the
     runs occupying a slot, stale files aside, number fewer than the budget. Leaves the lock free
     and no handle open whatever happens.
     */
    method TryAdmit(token: Token) returns (r: Result<SlotHandle?, AdmissionError>, ghost a: Attempt)
      requires lockPoll >= 0.0
      modifies dir, lockFile, clock, signals
      ensures lockFile.openHandles == old(lockFile.openHandles) && !lockFile.locked
      ensures clock.now >= old(clock.now) && a.before == dir.left && a.held == dir.held
      ensures r.Failure? ==> r.error == LockTimeout && dir.entries == dir.left
      ensures r.Failure? ==> clock.now >= old(clock.now) + lockTimeout
      ensures r.Success? ==> Outcome(a, dir.entries, token, r.value != null)
      ensures SparesOthers(dir.left, dir.entries, token)
      ensures NappedBy(old(clock.naps), clock.naps, {lockPoll})
      ensures r.Success? ==> a.live == signals.live && a.pids == signals.pids
      ensures r.Success? && r.value != null ==>
                fresh(r.value) && r.value.token == token && r.value.dir == dir && !r.value.released
    {
      var lock := new CrossProcessLock(lockFile);
      var locked, _ := lock.Acquire(lockTimeout, lockPoll, clock);
      dir.OthersMove();
      a := Attempt(dir.entries, dir.held, {}, {}, {});
      if !locked { return Failure(LockTimeout), a; }
      var handle;
      handle, a := AdmitLocked(token);
      lock.Release();
      return Success(handle), a;
    }

    /** What is done under the lock. */
    method AdmitLocked(token: Token) returns (handle: SlotHandle?, ghost a: Attempt)
      modifies dir`entries, signals
      ensures a.before == old(dir.entries) && a.held == dir.held && a.live == signals.live && a.pids == signals.pids
      ensures Outcome(a, dir.entries, token, handle != null) && SparesOthers(old(dir.entries), dir.entries, token)
      ensures handle != null ==> fresh(handle) && handle.token == token && handle.dir == dir && !handle.released
    {
      var live := signals.LiveTokens();
      var pids := signals.AlivePids();
      var occupied;
      ghost var removed;
      ghost var before := dir.entries;
      occupied, removed := CountAfterReaping(token, live, pids);
      a := Attempt(before, dir.held, live, pids, removed);
      if occupied >= budget {
        OutcomeByTokens(a, dir.entries, token, false);
        OutcomeSparesOthers(a, dir.entries, token, false);
        return null, a;
      }
      dir.Write(token);
      OutcomeByTokens(a, dir.entries, token, true);
      OutcomeSparesOthers(a, dir.entries, token, true);
      handle := new SlotHandle(token, dir);
    }

    /** One turn of the waiting loop: a verdict, or a sleep that uses up part of the wait. */
    method AttemptOrSleep(token: Token, deadline: real)
        returns (verdict: Option<Result<SlotHandle, AdmissionError>>, ghost a: Attempt)
      requires lockPoll >= 0.0 && poll >= 0.0
      modifies dir, lockFile, clock, signals
      ensures lockFile.openHandles == old(lockFile.openHandles) && !lockFile.locked && clock.now >= old(clock.now)
      ensures NappedBy(old(clock.naps), clock.naps, {lockPoll, poll})
      ensures verdict == None ==> old(clock.now) < deadline && clock.now >= old(clock.now) + clock.Step(poll)
      ensures verdict.Some? && verdict.value.Success? ==>
                var h := verdict.value.value; h.token == token && h.dir == dir && !h.released
      ensures verdict.Some? && (verdict.value.Success? || verdict.value.error == SlotTimeout) ==>
                Outcome(a, dir.entries, token, verdict.value.Success?) && a.live == signals.live && a.pids == signals.pids
      ensures verdict == Some(Failure(SlotTimeout)) ==> clock.now >= deadline
      ensures verdict == Some(Failure(LockTimeout)) ==>
                dir.entries == a.before && clock.now >= old(clock.now) + lockTimeout
    {
      var attempt;
      attempt, a := TryAdmit(token);
      if attempt.Failure? {
        return Some(Failure(attempt.error)), a;
      }
      if attempt.value != null {
        return Some(Success(attempt.value)), a;
      }
      var t := clock.Monotonic();
      if t >= deadline {
        return Some(Failure(SlotTimeout)), a;
      }
      clock.Sleep(poll);
      dir.OthersMove();
      return None, a;
    }

    /**
     Attempts until admitted or past the deadline. The verdict is that of the last attempt, and
     the number of attempts is bounded by the wait and the poll interval.
     */
    method Acquire(token: Token) returns (r: Result<SlotHandle, AdmissionError>, ghost last: Attempt, ghost tries: nat)
      requires lockPoll >= 0.0 && poll >= 0.0
      modifies dir, lockFile, clock, signals
      ensures lockFile.openHandles == old(lockFile.openHandles) && !lockFile.locked
      ensures r.Success? || r.error == SlotTimeout ==>
                Outcome(last, dir.entries, token, r.Success?) && last.live == signals.live && last.pids == signals.pids
      ensures r.Success? ==> r.value.token == token && r.value.dir == dir && !r.value.released
      ensures r == Failure(SlotTimeout) ==> clock.now >= old(clock.now) + waitTimeout
      ensures r == Failure(LockTimeout) ==> dir.entries == last.before && clock.now >= old(clock.now) + lockTimeout
      ensures 1 <= tries <= MaxSleeps(waitTimeout, clock.Step(poll)) + 1
      ensures NappedBy(old(clock.naps), clock.naps, {lockPoll, poll})
    {
      var start := clock.Monotonic();
      var deadline := start + waitTimeout;
      tries := 0;
      while true
        invariant lockFile.openHandles == old(lockFile.openHandles)
        invariant old(clock.now) <= start <= clock.now
        invariant NappedBy(old(clock.naps), clock.naps, {lockPoll, poll})
        invariant tries + MaxSleeps(deadline - clock.now, clock.Step(poll)) <= MaxSleeps(waitTimeout, clock.Step(poll))
        decreases MaxSleeps(deadline - clock.now, clock.Step(poll))
      {
        ghost var remaining := deadline - clock.now;
        var verdict;
        verdict, last := AttemptOrSleep(token, deadline);
        tries := tries + 1;
        if verdict.Some? {
          return verdict.value, last, tries;
        }
        SleepShortensWait(remaining, remaining, deadline - clock.now, clock.Step(poll));
      }
    }
  }
}
