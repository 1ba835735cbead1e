/** What every run of the interlock guarantees, read off the calls it made and nothing else. */
module InterlockSafety {
  import opened Wrappers
  import opened Sequences
  import opened Clocks
  import opened EngineInterlock

  /** The latest answer about the engine. */
  function LastEngine(trace: seq<Event>): Option<bool> {
    if trace == [] then None
    else match trace[|trace| - 1].call
      case EngineProbe(running) => Some(running)
      case _ => LastEngine(trace[..|trace| - 1])
  }

  /** The latest answer about the containers. */
  function LastContainers(trace: seq<Event>): Option<seq<string>> {
    if trace == [] then None
    else match trace[|trace| - 1].call
      case ContainerProbe(ids) => Some(ids)
      case _ => LastContainers(trace[..|trace| - 1])
  }

  lemma {:induction false} EngineIgnoresOtherCalls(before: seq<Event>, after: seq<Event>)
    requires forall i | 0 <= i < |after| :: !after[i].call.EngineProbe?
    ensures LastEngine(before + after) == LastEngine(before)
    decreases |after|
  {
    if after == [] {
      assert before + after == before;
    } else {
      var init := after[..|after| - 1];
      assert (before + after)[..|before + after| - 1] == before + init;
      EngineIgnoresOtherCalls(before, init);
    }
  }

  /** Where a transcript's shutdown stands, if it asks for one. */
  function ShutdownAt(t: Transcript): nat
    requires t.Tried?
  {
    2 + |t.drain|
  }

  function StopAt(t: Transcript): nat
    requires t.Tried? && t.effort.Forced?
  {
    3 + |t.drain| + |t.effort.polls|
  }

  /** The calls of a trace by position. */
  lemma CallsByPosition(t: Transcript, limits: Limits, state: EngineState, i: nat)
    requires limits.step > 0.0 && Produces(t, limits, state) && i < |t.Trace()|
    ensures t.Trace()[i].call == GracefulShutdown <==> t.Tried? && i == ShutdownAt(t)
    ensures t.Trace()[i].call == ServiceStop <==> t.Tried? && t.effort.Forced? && i == StopAt(t)
    ensures t.Trace()[i].call.EngineProbe? ==> i == 0 || (t.Tried? && i > ShutdownAt(t))
  {
    var trace := t.Trace();
    if t.Tried? && i > ShutdownAt(t) {
      var k := i - ShutdownAt(t);
      assert trace[i] == t.effort.Trace()[k];
      if t.effort.Forced? {
        if i < StopAt(t) {
          assert trace[i] == t.effort.polls[k - 1];
        } else if i > StopAt(t) {
          assert trace[i] == t.effort.last[i - StopAt(t) - 1];
        }
      } else {
        assert trace[i] == t.effort.polls[k - 1];
      }
    } else if !t.AlreadyClear? && 2 <= i < 2 + |t.drain| {
      assert trace[i] == t.drain[i - 2];
    }
  }

  /** The polls that decide an effort. */
  function Deciding(e: Effort): seq<Event> {
    if e.Forced? then e.last else e.polls
  }

  /** The last call of an escalation probes the engine, and the verdict is what it answered. */
  lemma EffortEndsWithItsPolls(t: Transcript, limits: Limits, state: EngineState)
    requires limits.step > 0.0 && Produces(t, limits, state) && t.Tried?
    ensures Deciding(t.effort) != []
    ensures t.Trace()[|t.Trace()| - 1] == Deciding(t.effort)[|Deciding(t.effort)| - 1]
    ensures t.Trace()[|t.Trace()| - 1].call == EngineProbe(state == Blocked)
  {
    var whole := t.effort.Trace();
    var polls := Deciding(t.effort);
    assert Wait(EngineGone, polls, if t.effort.Forced? then t.effort.stop.at else t.effort.shutdown.at,
                limits.timeout, limits.poll, limits.step, state == Quiesced);
    assert whole[|whole| - 1] == polls[|polls| - 1];
  }

  lemma LastProbeDecides(trace: seq<Event>, running: bool)
    requires trace != [] && trace[|trace| - 1].call == EngineProbe(running)
    ensures LastEngine(trace) == Some(running)
  {
  }

  lemma BusyRunProbesEngineOnce(t: Transcript, limits: Limits, state: EngineState)
    requires limits.step > 0.0 && Produces(t, limits, state) && t.StillBusy?
    ensures LastEngine(t.Trace()) == Some(true)
  {
    var rest := [t.busy] + t.drain + [t.logged];
    forall i | 0 <= i < |rest|
      ensures !rest[i].call.EngineProbe?
    {
      if 1 <= i <= |t.drain| {
        assert rest[i] == t.drain[i - 1];
      }
    }
    Associative([t.probe], [t.busy] + t.drain, [t.logged]);
    EngineIgnoresOtherCalls([t.probe], rest);
  }

  /** The host is reported clear exactly when the last observation of the engine was "not running". */
  lemma VerdictIsTheLastObservation(t: Transcript, limits: Limits, state: EngineState)
    requires limits.step > 0.0 && Produces(t, limits, state)
    ensures state.HostIsClear() <==> LastEngine(t.Trace()) == Some(false)
  {
    if t.StillBusy? {
      BusyRunProbesEngineOnce(t, limits, state);
    } else if t.Tried? {
      EffortEndsWithItsPolls(t, limits, state);
      LastProbeDecides(t.Trace(), state == Blocked);
    } else {
      LastProbeDecides(t.Trace(), false);
    }
  }

  /** A host that is clear already is probed once and not touched otherwise. */
  lemma ClearHostIsLeftAlone(t: Transcript, limits: Limits, state: EngineState)
    requires limits.step > 0.0 && Produces(t, limits, state)
    ensures state == Stopped <==> LastEngine(t.Trace()[..1]) == Some(false)
    ensures state == Stopped <==> |t.Trace()| == 1
  {
    assert t.Trace()[..1] == [t.probe];
  }

  /** A shutdown is asked for at most once, and only when the containers were just seen gone. */
  lemma ShutdownSparesContainers(t: Transcript, limits: Limits, state: EngineState, i: nat)
    requires limits.step > 0.0 && Produces(t, limits, state)
    requires i < |t.Trace()| && t.Trace()[i].call == GracefulShutdown
    ensures LastContainers(t.Trace()[..i]) == Some([])
    ensures LastEngine(t.Trace()[..i]) == Some(true)
    ensures forall j | 0 <= j < |t.Trace()| :: t.Trace()[j].call == GracefulShutdown ==> j == i
  {
    var trace := t.Trace();
    CallsByPosition(t, limits, state, i);
    forall j | 0 <= j < |trace| && trace[j].call == GracefulShutdown
      ensures j == i
    {
      CallsByPosition(t, limits, state, j);
    }
    assert trace[..i] == [t.probe] + ([t.busy] + t.drain);
    EngineIgnoresOtherCalls([t.probe], [t.busy] + t.drain);
    var seen := if t.drain == [] then t.busy else t.drain[|t.drain| - 1];
    assert trace[..i][i - 1] == seen;
  }

  /**
   The service is stopped at most once, only by an elevated caller, and only after a shutdown was
   asked for and a whole timeout has passed in which the engine was probed and always running.
   */
  lemma ServiceStopIsLastResort(t: Transcript, limits: Limits, state: EngineState, i: nat)
    requires limits.step > 0.0 && Produces(t, limits, state)
    requires i < |t.Trace()| && t.Trace()[i].call == ServiceStop
    ensures limits.elevated
    ensures forall j | 0 <= j < |t.Trace()| :: t.Trace()[j].call == ServiceStop ==> j == i
    ensures t.Tried? && ShutdownAt(t) + 1 < i
    ensures t.Trace()[i].at >= t.Trace()[ShutdownAt(t)].at + limits.timeout
    ensures forall j | ShutdownAt(t) < j < i :: FindsItRunning(t.Trace()[j].call)
  {
    var trace := t.Trace();
    CallsByPosition(t, limits, state, i);
    forall j | 0 <= j < |trace| && trace[j].call == ServiceStop
      ensures j == i
    {
      CallsByPosition(t, limits, state, j);
    }
    forall j | ShutdownAt(t) < j < i
      ensures FindsItRunning(trace[j].call)
    {
      var k := j - ShutdownAt(t) - 1;
      assert trace[j] == t.effort.polls[k];
      assert IsTurn(EngineGone, t.effort.polls, k, limits.poll) && !Achieved(t.effort.polls[k].call);
    }
  }

  /** A poll that finds the engine running, or a sleep before the next. */
  predicate FindsItRunning(call: Call) {
    call.Slept? || call == EngineProbe(true)
  }

  /**
   A blocked verdict is never premature: either containers outlasted their whole timeout and
   nothing was asked of the engine, or the engine outlasted every means the caller had.
   */
  lemma BlockedIsNeverPremature(t: Transcript, limits: Limits, state: EngineState)
    requires limits.step > 0.0 && Produces(t, limits, state) && state == Blocked
    ensures t.StillBusy? ==>
              && (forall i | 0 <= i < |t.Trace()| :: t.Trace()[i].call != GracefulShutdown && t.Trace()[i].call != ServiceStop)
              && t.drain != [] && t.drain[|t.drain| - 1].call.ids != []
              && t.drain[|t.drain| - 1].at >= t.busy.at + limits.containerTimeout
    ensures !t.StillBusy? ==> t.Tried? && t.effort.Forced? == limits.elevated
    ensures !t.StillBusy? ==>
              var from := if t.effort.Forced? then t.effort.stop else t.effort.shutdown;
              t.Trace()[|t.Trace()| - 1].at >= from.at + limits.timeout
  {
    var trace := t.Trace();
    if t.StillBusy? {
      forall i | 0 <= i < |trace|
        ensures trace[i].call != GracefulShutdown && trace[i].call != ServiceStop
      {
        CallsByPosition(t, limits, state, i);
      }
    } else {
      EffortEndsWithItsPolls(t, limits, state);
    }
  }

  /** However slow the host, a run makes a bounded number of calls. */
  lemma CallsAreBounded(t: Transcript, limits: Limits, state: EngineState)
    requires limits.step > 0.0 && Produces(t, limits, state)
    ensures |t.Trace()| <= 7 + 2 * MaxSleeps(limits.containerTimeout, limits.step) + 4 * MaxSleeps(limits.timeout, limits.step)
  {
  }

  // ----- the guarantees, on the calls alone

  /** A shutdown asked for once, with the engine last seen running and the containers last seen gone. */
  predicate SparesContainers(calls: seq<Event>, i: nat)
    requires i < |calls|
  {
    && LastContainers(calls[..i]) == Some([]) && LastEngine(calls[..i]) == Some(true)
    && forall j | 0 <= j < |calls| :: calls[j].call == GracefulShutdown ==> j == i
  }

  /** From call `k` to call `i` a whole timeout passes in which the engine is probed and always running. */
  predicate WaitsInVain(calls: seq<Event>, k: nat, i: nat, timeout: real)
    requires k < i < |calls|
  {
    calls[i].at >= calls[k].at + timeout && forall j | k < j < i :: FindsItRunning(calls[j].call)
  }

  /** A service stopped once, by an elevated caller, after a shutdown and a wait in vain. */
  predicate IsLastResort(calls: seq<Event>, limits: Limits, i: nat)
    requires i < |calls|
  {
    && limits.elevated && (forall j | 0 <= j < |calls| :: calls[j].call == ServiceStop ==> j == i)
    && exists k | 0 <= k < i :: calls[k].call == GracefulShutdown && k + 1 < i && WaitsInVain(calls, k, i, limits.timeout)
  }

  /** Containers that outlasted their timeout, with nothing asked of the engine. */
  predicate GivesWay(calls: seq<Event>, limits: Limits) {
    && (forall i | 0 <= i < |calls| :: calls[i].call != GracefulShutdown && calls[i].call != ServiceStop)
    && exists i, j | 0 <= i < j < |calls| ::
         calls[i].call.ContainerProbe? && calls[j].call.ContainerProbe?
         && calls[j].at >= calls[i].at + limits.containerTimeout
         && forall k | i <= k <= j :: FindsThemRunning(calls[k].call)
  }

  /** A poll that finds containers running, or a sleep before the next. */
  predicate FindsThemRunning(call: Call) {
    call.Slept? || (call.ContainerProbe? && call.ids != [])
  }

  /**
   Every sleep is one of the poll interval, made only after a call that did not find what is waited
   for, and followed directly by a poll: no wait outlasts a poll that finds it.
   */
  predicate PollsEverySleep(calls: seq<Event>, limits: Limits) {
    forall i | 0 <= i < |calls| :: SleepIsPolled(calls, limits, i)
  }

  predicate SleepIsPolled(calls: seq<Event>, limits: Limits, i: nat)
    requires i < |calls|
  {
    calls[i].call.Slept? ==>
      && calls[i].call == Slept(limits.poll)
      && i > 0 && !calls[i - 1].call.Slept? && !Achieved(calls[i - 1].call)
      && i + 1 < |calls| && (calls[i + 1].call.EngineProbe? || calls[i + 1].call.ContainerProbe?)
  }

  /** A wait that stands in the calls from `from` on, behind a call that did not find what is waited for. */
  lemma WaitIsPolled(calls: seq<Event>, from: nat, goal: Goal, polls: seq<Event>, start: real, timeout: real, limits: Limits, ok: bool, i: nat)
    requires limits.step > 0.0 && Wait(goal, polls, start, timeout, limits.poll, limits.step, ok)
    requires 0 < from && from + |polls| <= |calls| && calls[from..from + |polls|] == polls
    requires !calls[from - 1].call.Slept? && !Achieved(calls[from - 1].call) && from <= i < from + |polls|
    ensures SleepIsPolled(calls, limits, i)
  {
    var k := i - from;
    assert calls[i] == polls[k] && IsTurn(goal, polls, k, limits.poll);
    if k > 0 {
      assert calls[i - 1] == polls[k - 1] && IsTurn(goal, polls, k - 1, limits.poll);
    }
    if k + 1 < |polls| {
      assert calls[i + 1] == polls[k + 1] && IsTurn(goal, polls, k + 1, limits.poll);
    }
  }

  lemma DrainStandsInTrace(t: Transcript)
    requires !t.AlreadyClear?
    ensures |t.Trace()| >= 2 + |t.drain| && t.Trace()[1] == t.busy && t.Trace()[2..2 + |t.drain|] == t.drain
  {
    var rest := if t.StillBusy? then [t.logged] else t.effort.Trace();
    var first := [t.probe] + ([t.busy] + t.drain);
    assert t.Trace() == first + rest && |first| == 2 + |t.drain|;
    assert first[2..2 + |t.drain|] == t.drain;
    SliceOfFirst(first, rest, 2, 2 + |t.drain|);
  }

  lemma DrainIsPolled(t: Transcript, limits: Limits, state: EngineState, i: nat)
    requires limits.step > 0.0 && Produces(t, limits, state) && !t.AlreadyClear? && 2 <= i < 2 + |t.drain| <= |t.Trace()|
    ensures SleepIsPolled(t.Trace(), limits, i)
  {
    var calls := t.Trace();
    DrainStandsInTrace(t);
    WaitIsPolled(calls, 2, ContainersGone, t.drain, t.busy.at, limits.containerTimeout, limits, !t.StillBusy?, i);
  }

  lemma EffortStandsInTrace(t: Transcript)
    requires t.Tried?
    ensures var at, n := ShutdownAt(t), |t.effort.polls|;
            && |t.Trace()| >= at + 1 + n && t.Trace()[at] == t.effort.shutdown && t.Trace()[at + 1..at + 1 + n] == t.effort.polls
    ensures t.effort.Forced? ==>
              var at, n := StopAt(t), |t.effort.last|;
              && |t.Trace()| == at + 1 + n && t.Trace()[at] == t.effort.stop && t.Trace()[at + 1..at + 1 + n] == t.effort.last
    ensures !t.effort.Forced? ==> |t.Trace()| == ShutdownAt(t) + 1 + |t.effort.polls|
  {
    var start, n := [t.probe] + ([t.busy] + t.drain), |t.effort.polls|;
    var effort := t.effort.Trace();
    var asked := [t.effort.shutdown] + t.effort.polls;
    SliceOfSecond(start, effort, 1, 1 + n);
    if t.effort.Forced? {
      var forced, m := [t.effort.stop] + t.effort.last, |t.effort.last|;
      SliceOfFirst(asked, forced, 1, 1 + n);
      SliceOfSecond(asked, forced, 1, 1 + m);
      SliceOfSecond(start, effort, 1 + n + 1, 1 + n + 1 + m);
    }
  }

  lemma EffortIsPolled(t: Transcript, limits: Limits, state: EngineState, i: nat)
    requires limits.step > 0.0 && Produces(t, limits, state) && t.Tried? && ShutdownAt(t) < i < |t.Trace()|
    ensures SleepIsPolled(t.Trace(), limits, i)
  {
    var calls, from := t.Trace(), ShutdownAt(t) + 1;
    EffortStandsInTrace(t);
    if !t.effort.Forced? {
      WaitIsPolled(calls, from, EngineGone, t.effort.polls, t.effort.shutdown.at, limits.timeout, limits, state == Quiesced, i);
    } else if i < StopAt(t) {
      WaitIsPolled(calls, from, EngineGone, t.effort.polls, t.effort.shutdown.at, limits.timeout, limits, false, i);
    } else if i > StopAt(t) {
      WaitIsPolled(calls, StopAt(t) + 1, EngineGone, t.effort.last, t.effort.stop.at, limits.timeout, limits, state == Quiesced, i);
    }
  }

  lemma SleepsArePolled(t: Transcript, limits: Limits, state: EngineState)
    requires limits.step > 0.0 && Produces(t, limits, state)
    ensures PollsEverySleep(t.Trace(), limits)
  {
    var calls := t.Trace();
    forall i | 0 <= i < |calls|
      ensures SleepIsPolled(calls, limits, i)
    {
      CallIsPolled(t, limits, state, i);
    }
  }

  lemma CallIsPolled(t: Transcript, limits: Limits, state: EngineState, i: nat)
    requires limits.step > 0.0 && Produces(t, limits, state) && i < |t.Trace()|
    ensures SleepIsPolled(t.Trace(), limits, i)
  {
    if !t.AlreadyClear? && 2 <= i < 2 + |t.drain| {
      DrainIsPolled(t, limits, state, i);
    } else if t.Tried? && i > ShutdownAt(t) {
      EffortIsPolled(t, limits, state, i);
    } else if t.Tried? && i == ShutdownAt(t) {
      CallsByPosition(t, limits, state, i);
    }
  }

  /** An engine that outlasted the last means its caller had by a whole timeout. */
  predicate Outlasts(calls: seq<Event>, limits: Limits) {
    && calls != [] && calls[|calls| - 1].call == EngineProbe(true)
    && exists i | 0 <= i < |calls| ::
         calls[i].call == (if limits.elevated then ServiceStop else GracefulShutdown)
         && calls[|calls| - 1].at >= calls[i].at + limits.timeout
  }

  /** What one run of the interlock guarantees, whatever the engine, the containers and the clock do. */
  predicate Guaranteed(calls: seq<Event>, limits: Limits, state: EngineState)
    requires limits.step > 0.0
  {
    && (state.HostIsClear() <==> LastEngine(calls) == Some(false))
    && (state == Stopped <==> |calls| == 1)
    && |calls| <= 7 + 2 * MaxSleeps(limits.containerTimeout, limits.step) + 4 * MaxSleeps(limits.timeout, limits.step)
    && (forall i | 0 <= i < |calls| && calls[i].call == GracefulShutdown :: SparesContainers(calls, i))
    && (forall i | 0 <= i < |calls| && calls[i].call == ServiceStop :: IsLastResort(calls, limits, i))
    && (state == Blocked ==> GivesWay(calls, limits) || Outlasts(calls, limits))
    && (state == Quiesced ==> exists i :: 0 <= i < |calls| && calls[i].call == GracefulShutdown)
    && PollsEverySleep(calls, limits)
  }

  lemma StopsAreLastResorts(t: Transcript, limits: Limits, state: EngineState, i: nat)
    requires limits.step > 0.0 && Produces(t, limits, state)
    requires i < |t.Trace()| && t.Trace()[i].call == ServiceStop
    ensures IsLastResort(t.Trace(), limits, i)
  {
    ServiceStopIsLastResort(t, limits, state, i);
    CallsByPosition(t, limits, state, ShutdownAt(t));
    assert WaitsInVain(t.Trace(), ShutdownAt(t), i, limits.timeout);
  }

  lemma BlockedRightly(t: Transcript, limits: Limits, state: EngineState)
    requires limits.step > 0.0 && Produces(t, limits, state) && state == Blocked
    ensures GivesWay(t.Trace(), limits) || Outlasts(t.Trace(), limits)
  {
    var calls := t.Trace();
    BlockedIsNeverPremature(t, limits, state);
    if t.StillBusy? {
      var j := 1 + |t.drain|;
      assert calls[1] == t.busy && calls[j] == t.drain[|t.drain| - 1];
      forall k | 1 <= k <= j
        ensures FindsThemRunning(calls[k].call)
      {
        if k > 1 {
          assert calls[k] == t.drain[k - 2] && IsTurn(ContainersGone, t.drain, k - 2, limits.poll);
        }
      }
      assert GivesWay(calls, limits);
    } else {
      EffortEndsWithItsPolls(t, limits, state);
      var i := if t.effort.Forced? then StopAt(t) else ShutdownAt(t);
      CallsByPosition(t, limits, state, i);
      assert calls[i] == if t.effort.Forced? then t.effort.stop else t.effort.shutdown;
      assert Outlasts(calls, limits);
    }
  }

  lemma TranscriptsAreGuaranteed(t: Transcript, limits: Limits, state: EngineState)
    requires limits.step > 0.0 && Produces(t, limits, state)
    ensures Guaranteed(t.Trace(), limits, state)
  {
    var calls := t.Trace();
    VerdictIsTheLastObservation(t, limits, state);
    ClearHostIsLeftAlone(t, limits, state);
    CallsAreBounded(t, limits, state);
    forall i | 0 <= i < |calls| && calls[i].call == GracefulShutdown
      ensures SparesContainers(calls, i)
    {
      ShutdownSparesContainers(t, limits, state, i);
    }
    forall i | 0 <= i < |calls| && calls[i].call == ServiceStop
      ensures IsLastResort(calls, limits, i)
    {
      StopsAreLastResorts(t, limits, state, i);
    }
    SleepsArePolled(t, limits, state);
    if state == Blocked {
      BlockedRightly(t, limits, state);
    }
    if state == Quiesced {
      CallsByPosition(t, limits, state, ShutdownAt(t));
    }
  }

  const DOCKER_CONTAINER_WAIT_TIMEOUT_SECONDS := 900.0
  const DOCKER_QUIESCE_POLL_INTERVAL_SECONDS := 2.0

  /** The interlock as the gates call it: everything it guarantees, on the calls it adds to the trace. */
  method EnsureQuiesced(host: Host, elevated: bool, timeout: real) returns (state: EngineState)
    modifies host, host.clock
    ensures old(host.trace) <= host.trace
    ensures var limits := GateLimits(timeout, elevated, host.clock);
            var calls := host.trace[|old(host.trace)|..];
            && Guaranteed(calls, limits, state)
            && Napped(old(host.clock.naps), host.clock.naps, limits.poll, CountSleeps(calls))
  {
    var limits := GateLimits(timeout, elevated, host.clock);
    ghost var t;
    state, t := Quiesce(host, limits);
    assert host.trace[|old(host.trace)|..] == t.Trace();
    TranscriptsAreGuaranteed(t, limits, state);
    SleepsAreCounted(t, limits, state);
  }

  // ----- no sleep goes unrecorded

  function CountSleeps(calls: seq<Event>): nat {
    if calls == [] then 0 else CountSleeps(calls[..|calls| - 1]) + if calls[|calls| - 1].call.Slept? then 1 else 0
  }

  lemma {:induction false} SleepsOfParts(a: seq<Event>, b: seq<Event>)
    ensures CountSleeps(a + b) == CountSleeps(a) + CountSleeps(b)
  {
    if b == [] {
      assert a + b == a;
    } else {
      var init := b[..|b| - 1];
      assert (a + b)[..|a + b| - 1] == a + init;
      SleepsOfParts(a, init);
    }
  }

  lemma SleepsOfOne(e: Event)
    ensures CountSleeps([e]) == if e.call.Slept? then 1 else 0
  {
    assert [e][..0] == [];
  }

  /** In turns of a sleep and a poll there are half as many sleeps as calls. */
  lemma {:induction false} SleepsOfTurns(polls: seq<Event>)
    requires forall i | 0 <= i < |polls| :: polls[i].call.Slept? <==> i % 2 == 0 && i + 1 < |polls|
    ensures CountSleeps(polls) == |polls| / 2
    decreases |polls|
  {
    if |polls| % 2 == 1 {
      var init := polls[..|polls| - 1];
      SleepsOfPairs(init);
    } else {
      SleepsOfPairs(polls);
    }
  }

  lemma {:induction false} SleepsOfPairs(polls: seq<Event>)
    requires |polls| % 2 == 0 && forall i | 0 <= i < |polls| :: polls[i].call.Slept? <==> i % 2 == 0
    ensures CountSleeps(polls) == |polls| / 2
    decreases |polls|
  {
    if polls != [] {
      var init := polls[..|polls| - 1];
      assert init[..|init| - 1] == polls[..|polls| - 2];
      SleepsOfPairs(polls[..|polls| - 2]);
    }
  }

  lemma SleepsOfWait(goal: Goal, polls: seq<Event>, start: real, timeout: real, limits: Limits, ok: bool)
    requires limits.step > 0.0 && Wait(goal, polls, start, timeout, limits.poll, limits.step, ok)
    ensures CountSleeps(polls) == |polls| / 2
  {
    forall i | 0 <= i < |polls|
      ensures polls[i].call.Slept? <==> i % 2 == 0 && i + 1 < |polls|
    {
      assert IsTurn(goal, polls, i, limits.poll);
    }
    SleepsOfTurns(polls);
  }

  lemma EffortSleepsAreCounted(e: Effort, limits: Limits, cleared: bool)
    requires limits.step > 0.0 && Makes(e, limits, cleared)
    ensures CountSleeps(e.Trace()) == e.Sleeps()
  {
    SleepsOfOne(e.shutdown);
    SleepsOfParts([e.shutdown], e.polls);
    if e.Forced? {
      SleepsOfWait(EngineGone, e.polls, e.shutdown.at, limits.timeout, limits, false);
      SleepsOfWait(EngineGone, e.last, e.stop.at, limits.timeout, limits, cleared);
      SleepsOfOne(e.stop);
      SleepsOfParts([e.stop], e.last);
      SleepsOfParts([e.shutdown] + e.polls, [e.stop] + e.last);
    } else {
      SleepsOfWait(EngineGone, e.polls, e.shutdown.at, limits.timeout, limits, cleared);
    }
  }

  lemma DrainSleepsAreCounted(busy: Event, drain: seq<Event>, limits: Limits, ok: bool)
    requires limits.step > 0.0 && Drained(busy, drain, limits, ok)
    ensures CountSleeps([busy] + drain) == |drain| / 2
  {
    SleepsOfOne(busy);
    SleepsOfParts([busy], drain);
    if drain != [] {
      SleepsOfWait(ContainersGone, drain, busy.at, limits.containerTimeout, limits, ok);
    }
  }

  lemma SleepsAreCounted(t: Transcript, limits: Limits, state: EngineState)
    requires limits.step > 0.0 && Produces(t, limits, state)
    ensures CountSleeps(t.Trace()) == t.Sleeps()
  {
    SleepsOfOne(t.probe);
    if !t.AlreadyClear? {
      DrainSleepsAreCounted(t.busy, t.drain, limits, !t.StillBusy?);
      SleepsOfParts([t.probe], [t.busy] + t.drain);
      if t.StillBusy? {
        SleepsOfOne(t.logged);
        SleepsOfParts([t.probe] + ([t.busy] + t.drain), [t.logged]);
      } else {
        EffortSleepsAreCounted(t.effort, limits, state == Quiesced);
        SleepsOfParts([t.probe] + ([t.busy] + t.drain), t.effort.Trace());
      }
    }
  }

  function GateLimits(timeout: real, elevated: bool, clock: Clock): (limits: Limits)
    ensures limits.step > 0.0
  {
    Limits(timeout, DOCKER_CONTAINER_WAIT_TIMEOUT_SECONDS, DOCKER_QUIESCE_POLL_INTERVAL_SECONDS,
           clock.Step(DOCKER_QUIESCE_POLL_INTERVAL_SECONDS), elevated)
  }
}
