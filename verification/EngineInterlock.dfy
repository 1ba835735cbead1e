/**
 Clearing the Docker Windows engine off the Host Compute Service before a virtual machine
 starts. Every injected callable is an adversary: it may answer anything, and each call is
 recorded in a trace with the time at which it was made.
 */
module EngineInterlock {
  import opened Sequences
  import opened Clocks

  const DOCKER_WINDOWS_ENGINE_PIPE := "dockerDesktopWindowsEngine"

  datatype EngineState = Stopped | Quiesced | Blocked {
    predicate HostIsClear() {
      !Blocked?
    }
  }

  datatype Call =
    | EngineProbe(running: bool)
    | ContainerProbe(ids: seq<string>)
    | GracefulShutdown
    | ServiceStop
    | Slept(seconds: real)

  datatype Event = Event(call: Call, at: real)

  /** Which condition a wait polls for. */
  datatype Goal = ContainersGone | EngineGone

  /** Whether either signal shows the engine: its pipe, or failing that one of its processes. */
  method DetectEngine(pipeNames: seq<string>, engineProcesses: seq<(nat, string)>) returns (running: bool)
    ensures !running <==> DOCKER_WINDOWS_ENGINE_PIPE !in pipeNames && engineProcesses == []
  {
    if DOCKER_WINDOWS_ENGINE_PIPE in pipeNames { return true; }
    running := |engineProcesses| > 0;
  }

  class Host {
    const clock: Clock
    ghost var trace: seq<Event>

    constructor (clock: Clock)
      ensures this.clock == clock && trace == []
    {
      this.clock := clock;
      trace := [];
    }

    /** A sleep is recorded with the time at which it began. */
    method Sleep(seconds: real)
      requires seconds >= 0.0
      modifies this, clock
      ensures trace == old(trace) + [Event(Slept(seconds), old(clock.now))]
      ensures clock.now >= old(clock.now) + clock.Step(seconds) && clock.naps == old(clock.naps) + [seconds]
    {
      trace := trace + [Event(Slept(seconds), clock.now)];
      clock.Sleep(seconds);
    }

    method EngineRunning() returns (running: bool)
      modifies this
      ensures trace == old(trace) + [Event(EngineProbe(running), clock.now)]
    {
      var pipes: seq<string> := *;
      var processes: seq<(nat, string)> := *;
      running := DetectEngine(pipes, processes);
      trace := trace + [Event(EngineProbe(running), clock.now)];
    }

    method RunningContainers() returns (ids: seq<string>)
      modifies this
      ensures trace == old(trace) + [Event(ContainerProbe(ids), clock.now)]
    {
      ids := *;
      trace := trace + [Event(ContainerProbe(ids), clock.now)];
    }

    method RequestShutdown() returns (accepted: bool)
      modifies this
      ensures trace == old(trace) + [Event(GracefulShutdown, clock.now)]
    {
      accepted := *;
      trace := trace + [Event(GracefulShutdown, clock.now)];
    }

    method StopService() returns (stopped: bool)
      modifies this
      ensures trace == old(trace) + [Event(ServiceStop, clock.now)]
    {
      stopped := *;
      trace := trace + [Event(ServiceStop, clock.now)];
    }
  }

  predicate IsProbeOf(goal: Goal, call: Call) {
    if goal.ContainersGone? then call.ContainerProbe? else call.EngineProbe?
  }

  /** The probe answered that what is waited for has come about. */
  predicate Achieved(call: Call) {
    (call.EngineProbe? && !call.running) || (call.ContainerProbe? && call.ids == [])
  }

  /**
   One wait begun at `start`: sleeps of `poll` seconds, each followed directly by a poll, and if none
   of those found the goal reached a last poll past the deadline. The last poll decides the result.
   A sleep takes at least `step` seconds.
   */
  predicate Wait(goal: Goal, polls: seq<Event>, start: real, timeout: real, poll: real, step: real, ok: bool)
    requires step > 0.0
  {
    && 1 <= |polls| <= 2 * MaxSleeps(timeout, step) + 1
    && (forall i | 0 <= i < |polls| :: polls[i].at >= start && IsTurn(goal, polls, i, poll))
    && (forall i | 0 <= i < |polls| - 1 :: !Achieved(polls[i].call))
    && Achieved(polls[|polls| - 1].call) == ok
    && (|polls| % 2 == 1 ==> polls[|polls| - 1].at >= start + timeout)
    && (|polls| % 2 == 0 ==> ok)
  }

  /** At even places, but for a last poll, a sleep; at odd ones a poll. */
  predicate IsTurn(goal: Goal, polls: seq<Event>, i: nat, poll: real)
    requires i < |polls|
  {
    if i % 2 == 0 && i + 1 < |polls| then polls[i].call == Slept(poll) else IsProbeOf(goal, polls[i].call)
  }

  method Probe(goal: Goal, host: Host) returns (ok: bool, ghost call: Call)
    modifies host
    ensures IsProbeOf(goal, call) && Achieved(call) == ok
    ensures host.trace == old(host.trace) + [Event(call, host.clock.now)]
  {
    match goal
    case ContainersGone =>
      var ids := host.RunningContainers();
      return |ids| == 0, ContainerProbe(ids);
    case EngineGone =>
      var running := host.EngineRunning();
      return !running, EngineProbe(running);
  }

  /** After `k` sleeps and polls in vain. */
  ghost predicate Waited(goal: Goal, polls: seq<Event>, start: real, poll: real, k: nat) {
    && |polls| == 2 * k
    && forall i | 0 <= i < |polls| ::
         polls[i].at >= start && !Achieved(polls[i].call)
         && if i % 2 == 0 then polls[i].call == Slept(poll) else IsProbeOf(goal, polls[i].call)
  }

  /** A poll that succeeds after `k` sleeps and polls in vain and one more sleep. */
  lemma WaitSucceeds(goal: Goal, before: seq<Event>, sleep: Event, probe: Event, start: real, timeout: real, poll: real, step: real, k: nat)
    requires step > 0.0 && Waited(goal, before, start, poll, k) && k + 1 <= MaxSleeps(timeout, step)
    requires sleep.call == Slept(poll) && IsProbeOf(goal, probe.call) && Achieved(probe.call) && sleep.at >= start && probe.at >= start
    ensures Wait(goal, before + [sleep] + [probe], start, timeout, poll, step, true)
  {
    var polls := before + [sleep] + [probe];
    forall i | 0 <= i < |polls|
      ensures polls[i].at >= start && IsTurn(goal, polls, i, poll)
      ensures i < |polls| - 1 ==> !Achieved(polls[i].call)
    {
      if i < |before| { assert polls[i] == before[i]; }
    }
  }

  /** The last poll, past the deadline. */
  lemma WaitRunsOut(goal: Goal, before: seq<Event>, probe: Event, start: real, timeout: real, poll: real, step: real, k: nat, ok: bool)
    requires step > 0.0 && Waited(goal, before, start, poll, k) && k <= MaxSleeps(timeout, step)
    requires IsProbeOf(goal, probe.call) && Achieved(probe.call) == ok && probe.at >= start && probe.at >= start + timeout
    ensures Wait(goal, before + [probe], start, timeout, poll, step, ok)
  {
    var polls := before + [probe];
    forall i | 0 <= i < |polls|
      ensures polls[i].at >= start && IsTurn(goal, polls, i, poll)
      ensures i < |polls| - 1 ==> !Achieved(polls[i].call)
    {
      if i < |before| { assert polls[i] == before[i]; }
    }
  }

  lemma WaitGoesOn(goal: Goal, before: seq<Event>, sleep: Event, probe: Event, start: real, poll: real, k: nat)
    requires Waited(goal, before, start, poll, k)
    requires sleep.call == Slept(poll) && IsProbeOf(goal, probe.call) && !Achieved(probe.call) && sleep.at >= start && probe.at >= start
    ensures Waited(goal, before + [sleep] + [probe], start, poll, k + 1)
  {
    var polls := before + [sleep] + [probe];
    forall i | 0 <= i < |polls|
      ensures polls[i].at >= start && !Achieved(polls[i].call)
      ensures if i % 2 == 0 then polls[i].call == Slept(poll) else IsProbeOf(goal, polls[i].call)
    {
      if i < |before| { assert polls[i] == before[i]; }
    }
  }

  /** One turn of the waiting loop: a sleep and a poll. */
  method SleepAndPoll(goal: Goal, host: Host, poll: real) returns (ok: bool, ghost sleep: Event, ghost probe: Event)
    requires poll >= 0.0
    modifies host, host.clock
    ensures host.trace == old(host.trace) + [sleep] + [probe]
    ensures sleep == Event(Slept(poll), old(host.clock.now)) && IsProbeOf(goal, probe.call) && Achieved(probe.call) == ok
    ensures probe.at == host.clock.now >= old(host.clock.now) + host.clock.Step(poll)
    ensures host.clock.naps == old(host.clock.naps) + [poll]
  {
    sleep := Event(Slept(poll), host.clock.now);
    host.Sleep(poll);
    ghost var call;
    ok, call := Probe(goal, host);
    probe := Event(call, host.clock.now);
  }

  /** The waiting loop: a poll after every sleep begun before the deadline, up to one that succeeds. */
  method PollUntilDeadline(goal: Goal, host: Host, deadline: real, poll: real)
      returns (ok: bool, ghost polls: seq<Event>, ghost k: nat)
    requires poll >= 0.0
    modifies host, host.clock
    ensures host.trace == old(host.trace) + polls && host.clock.now >= old(host.clock.now)
    ensures var start, step := old(host.clock.now), host.clock.Step(poll);
            if ok then Wait(goal, polls, start, deadline - start, poll, step, true) && polls[|polls| - 1].at <= host.clock.now
            else Waited(goal, polls, start, poll, k) && k <= MaxSleeps(deadline - start, step) && host.clock.now >= deadline
    ensures Napped(old(host.clock.naps), host.clock.naps, poll, |polls| / 2)
  {
    polls := [];
    k := 0;
    ghost var start, step := host.clock.now, host.clock.Step(poll);
    ghost var sleep, probe;
    var t := host.clock.Monotonic();
    WaitingShortensWait(deadline - start, deadline - t, step);
    while t < deadline
      invariant host.trace == old(host.trace) + polls && start <= t == host.clock.now
      invariant k + MaxSleeps(deadline - t, step) <= MaxSleeps(deadline - start, step)
      invariant Waited(goal, polls, start, poll, k) && Napped(old(host.clock.naps), host.clock.naps, poll, k)
      decreases MaxSleeps(deadline - t, step)
    {
      ghost var remaining := deadline - t;
      ok, sleep, probe := SleepAndPoll(goal, host, poll);
      Associative(old(host.trace), polls, [sleep]);
      Associative(old(host.trace), polls + [sleep], [probe]);
      SleepShortensWait(remaining, remaining, deadline - host.clock.now, step);
      if ok {
        WaitSucceeds(goal, polls, sleep, probe, start, deadline - start, poll, step, k);
        return ok, polls + [sleep] + [probe], k;
      }
      WaitGoesOn(goal, polls, sleep, probe, start, poll, k);
      polls := polls + [sleep] + [probe];
      k := k + 1;
      t := host.clock.Monotonic();
      SleepShortensWait(remaining, remaining, deadline - t, step);
    }
    ok := false;
  }

  /** The whole wait: the loop, and a last poll when it was in vain. */
  method WaitUntil(goal: Goal, host: Host, deadline: real, poll: real) returns (ok: bool, ghost polls: seq<Event>)
    requires poll >= 0.0
    modifies host, host.clock
    ensures host.trace == old(host.trace) + polls && host.clock.now >= old(host.clock.now)
    ensures Wait(goal, polls, old(host.clock.now), deadline - old(host.clock.now), poll, host.clock.Step(poll), ok)
    ensures polls[|polls| - 1].at <= host.clock.now && Napped(old(host.clock.naps), host.clock.naps, poll, |polls| / 2)
  {
    ghost var start, step, k, call := host.clock.now, host.clock.Step(poll), 0, GracefulShutdown;
    ok, polls, k := PollUntilDeadline(goal, host, deadline, poll);
    if ok { return; }
    ok, call := Probe(goal, host);
    ghost var probe := Event(call, host.clock.now);
    WaitRunsOut(goal, polls, probe, start, deadline - start, poll, step, k, ok);
    Associative(old(host.trace), polls, [probe]);
    polls := polls + [probe];
  }

  /** `poll` is the interval slept, of which a sleep takes at least `step`. */
  datatype Limits = Limits(timeout: real, containerTimeout: real, poll: real, step: real, elevated: bool)

  /** The limits suit the clock. */
  predicate Suit(limits: Limits, clock: Clock) {
    limits.poll >= 0.0 && limits.step == clock.Step(limits.poll)
  }

  /** The escalation: a graceful shutdown, then for an elevated caller whose wait failed a service stop. */
  datatype Effort =
    | Asked(shutdown: Event, polls: seq<Event>)
    | Forced(shutdown: Event, polls: seq<Event>, stop: Event, last: seq<Event>)
  {
    function Trace(): seq<Event> {
      match this
      case Asked(shutdown, polls) => [shutdown] + polls
      case Forced(shutdown, polls, stop, last) => ([shutdown] + polls) + ([stop] + last)
    }

    function Sleeps(): nat {
      |polls| / 2 + if Forced? then |last| / 2 else 0
    }
  }

  /** One run of the interlock, call by call. `drain` is the wait for containers, if any ran. */
  datatype Transcript =
    | AlreadyClear(probe: Event)
    | StillBusy(probe: Event, busy: Event, drain: seq<Event>, logged: Event)
    | Tried(probe: Event, busy: Event, drain: seq<Event>, effort: Effort)
  {
    function Trace(): seq<Event> {
      match this
      case AlreadyClear(probe) => [probe]
      case StillBusy(probe, busy, drain, logged) => [probe] + ([busy] + drain) + [logged]
      case Tried(probe, busy, drain, effort) => [probe] + ([busy] + drain) + effort.Trace()
    }

    function Sleeps(): nat {
      if AlreadyClear? then 0 else |drain| / 2 + if Tried? then effort.Sleeps() else 0
    }
  }

  /** The containers were seen gone: at the first look, or by a wait that succeeded. */
  predicate Drained(busy: Event, drain: seq<Event>, limits: Limits, ok: bool)
    requires limits.step > 0.0
  {
    && busy.call.ContainerProbe?
    && if busy.call.ids == [] then drain == [] && ok
       else Wait(ContainersGone, drain, busy.at, limits.containerTimeout, limits.poll, limits.step, ok)
  }

  /** The effort is one the interlock may make, and `cleared` tells whether it then reports success. */
  predicate Makes(e: Effort, limits: Limits, cleared: bool)
    requires limits.step > 0.0
  {
    && e.shutdown.call == GracefulShutdown
    && match e
       case Asked(shutdown, polls) =>
         && Wait(EngineGone, polls, shutdown.at, limits.timeout, limits.poll, limits.step, cleared)
         && (cleared || !limits.elevated)
       case Forced(shutdown, polls, stop, last) =>
         && Wait(EngineGone, polls, shutdown.at, limits.timeout, limits.poll, limits.step, false)
         && limits.elevated && stop.call == ServiceStop && stop.at >= polls[|polls| - 1].at
         && Wait(EngineGone, last, stop.at, limits.timeout, limits.poll, limits.step, cleared)
  }

  /** The transcript is one the interlock may produce, and `state` the verdict it then returns. */
  predicate Produces(t: Transcript, limits: Limits, state: EngineState)
    requires limits.step > 0.0
  {
    && t.probe.call == EngineProbe(!t.AlreadyClear?)
    && match t
       case AlreadyClear(_) => state == Stopped
       case StillBusy(_, busy, drain, logged) =>
         Drained(busy, drain, limits, false) && logged.call.ContainerProbe? && state == Blocked
       case Tried(_, busy, drain, effort) =>
         && Drained(busy, drain, limits, true)
         && state != Stopped && Makes(effort, limits, state == Quiesced)
  }

  method Drain(host: Host, limits: Limits) returns (ok: bool, ghost busy: Event, ghost drain: seq<Event>)
    requires Suit(limits, host.clock)
    modifies host, host.clock
    ensures host.trace == old(host.trace) + ([busy] + drain)
    ensures Drained(busy, drain, limits, ok) && Napped(old(host.clock.naps), host.clock.naps, limits.poll, |drain| / 2)
  {
    var ids := host.RunningContainers();
    busy := Event(ContainerProbe(ids), host.clock.now);
    drain := [];
    ok := true;
    if |ids| > 0 {
      var t := host.clock.Monotonic();
      ok, drain := WaitUntil(ContainersGone, host, t + limits.containerTimeout, limits.poll);
    }
  }

  /** Asks the engine to leave, or forces it to, and waits for it to be gone. */
  method Clear(step: Call, host: Host, limits: Limits) returns (ok: bool, ghost first: Event, ghost polls: seq<Event>)
    requires Suit(limits, host.clock) && (step == GracefulShutdown || step == ServiceStop)
    modifies host, host.clock
    ensures host.trace == old(host.trace) + ([first] + polls)
    ensures first == Event(step, old(host.clock.now))
    ensures Wait(EngineGone, polls, first.at, limits.timeout, limits.poll, limits.step, ok)
    ensures polls[|polls| - 1].at <= host.clock.now && Napped(old(host.clock.naps), host.clock.naps, limits.poll, |polls| / 2)
  {
    first := Event(step, host.clock.now);
    if step == GracefulShutdown {
      var _ := host.RequestShutdown();
    } else {
      var _ := host.StopService();
    }
    var t := host.clock.Monotonic();
    ok, polls := WaitUntil(EngineGone, host, t + limits.timeout, limits.poll);
  }

  method Escalate(host: Host, limits: Limits) returns (cleared: bool, ghost e: Effort)
    requires Suit(limits, host.clock)
    modifies host, host.clock
    ensures host.trace == old(host.trace) + e.Trace()
    ensures Makes(e, limits, cleared) && Napped(old(host.clock.naps), host.clock.naps, limits.poll, e.Sleeps())
  {
    ghost var shutdown, polls, stop, last;
    cleared, shutdown, polls := Clear(GracefulShutdown, host, limits);
    e := Asked(shutdown, polls);
    if !cleared && limits.elevated {
      cleared, stop, last := Clear(ServiceStop, host, limits);
      Associative(old(host.trace), [shutdown] + polls, [stop] + last);
      e := Forced(shutdown, polls, stop, last);
    }
  }

  /** Whatever the environment answers, the calls made and the verdict are a transcript's. */
  method Quiesce(host: Host, limits: Limits) returns (state: EngineState, ghost t: Transcript)
    requires Suit(limits, host.clock)
    modifies host, host.clock
    ensures host.trace == old(host.trace) + t.Trace()
    ensures Produces(t, limits, state) && Napped(old(host.clock.naps), host.clock.naps, limits.poll, t.Sleeps())
  {
    var running := host.EngineRunning();
    ghost var probe := Event(EngineProbe(running), host.clock.now);
    if !running {
      return Stopped, AlreadyClear(probe);
    }
    var ok;
    ghost var busy, drain, effort;
    ok, busy, drain := Drain(host, limits);
    Associative(old(host.trace), [probe], [busy] + drain);
    ghost var start := [probe] + ([busy] + drain);
    if !ok {
      var ids := host.RunningContainers();
      ghost var logged := Event(ContainerProbe(ids), host.clock.now);
      Associative(old(host.trace), start, [logged]);
      return Blocked, StillBusy(probe, busy, drain, logged);
    }
    ok, effort := Escalate(host, limits);
    Associative(old(host.trace), start, effort.Trace());
    return if ok then Quiesced else Blocked, Tried(probe, busy, drain, effort);
  }
}
