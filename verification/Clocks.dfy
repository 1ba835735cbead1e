/**
 The injected clock and sleep of every polling loop. Both are adversarial: a reading may be any
 amount later than the one before, and a sleep may overrun, but time never runs backwards, and a
 sleep takes at least some tick, however short, even when it is asked for none.
 */
module Clocks {
  import opened Arithmetic

  type Positive = r: real | r > 0.0 witness 1.0

  class Clock {
    var now: real
    const tick: Positive
    /** How long each sleep was asked to be. */
    ghost var naps: seq<real>

    method Monotonic() returns (t: real)
      modifies `now
      ensures old(now) <= t == now
    {
      t := *;
      if t < now { t := now; }
      now := t;
    }

    /** How far a sleep of `poll` seconds takes the clock at least. */
    function Step(poll: real): (step: Positive)
      ensures step >= poll
    {
      if poll > tick then poll else tick
    }

    method Sleep(seconds: real)
      requires seconds >= 0.0
      modifies this
      ensures old(now) + Step(seconds) <= now && naps == old(naps) + [seconds]
    {
      naps := naps + [seconds];
      var t: real := *;
      if t < now + Step(seconds) { t := now + Step(seconds); }
      now := t;
    }
  }

  /** There were `n` more sleeps since then, each of `nap` seconds. */
  ghost predicate Napped(before: seq<real>, after: seq<real>, nap: real, n: nat) {
    |after| == |before| + n && before <= after && forall i | |before| <= i < |after| :: after[i] == nap
  }

  /** `math.ceil` */
  function Ceil(x: real): int {
    -((-x).Floor)
  }

  lemma OrderIsCancelled(a: real, b: real, d: real)
    requires d > 0.0 && a * d <= b * d
    ensures a <= b
  {
  }

  /** A poll interval less makes one less of the quotient. */
  lemma QuotientOfLess(remaining: real, poll: real)
    requires poll > 0.0
    ensures (remaining - poll) / poll == remaining / poll - 1.0
  {
    var q, q' := remaining / poll, (remaining - poll) / poll;
    assert q * poll == remaining && q' * poll == remaining - poll;
    OrderIsCancelled(q - 1.0, q', poll);
    OrderIsCancelled(q', q - 1.0, poll);
  }

  lemma PositiveQuotient(remaining: real, poll: real)
    requires poll > 0.0 && remaining > 0.0
    ensures Ceil(remaining / poll) >= 1
  {
    var q := remaining / poll;
    assert q * poll == remaining;
    if q <= 0.0 {
      ProductsAreOrdered(q, 0.0, poll);
    }
  }

  /** How many sleeps of at least `poll` seconds a wait can begin before its deadline. */
  function MaxSleeps(remaining: real, poll: real): nat
    requires poll > 0.0
    decreases if remaining <= 0.0 then 0 else Ceil(remaining / poll)
  {
    if remaining <= 0.0 then 0
    else
      PositiveQuotient(remaining, poll);
      QuotientOfLess(remaining, poll);
      1 + MaxSleeps(remaining - poll, poll)
  }

  /** That is the quotient rounded up. */
  lemma {:induction false} MaxSleepsIsCeil(remaining: real, poll: real)
    requires poll > 0.0
    ensures MaxSleeps(remaining, poll) == if remaining <= 0.0 then 0 else Ceil(remaining / poll)
    decreases MaxSleeps(remaining, poll)
  {
    if remaining > 0.0 {
      PositiveQuotient(remaining, poll);
      QuotientOfLess(remaining, poll);
      MaxSleepsIsCeil(remaining - poll, poll);
      if remaining - poll <= 0.0 {
        QuotientsAreOrdered(remaining - poll, 0.0, poll);
      }
    }
  }

  lemma {:induction false} WaitingShortensWait(remaining: real, remaining': real, poll: real)
    requires poll > 0.0 && remaining' <= remaining
    ensures MaxSleeps(remaining', poll) <= MaxSleeps(remaining, poll)
    decreases MaxSleeps(remaining, poll)
  {
    if remaining' > 0.0 {
      WaitingShortensWait(remaining - poll, remaining' - poll, poll);
    }
  }

  /** A sleep begun before the deadline leaves room for at least one fewer. */
  lemma SleepShortensWait(remaining: real, atCheck: real, remaining': real, poll: real)
    requires poll > 0.0 && remaining >= atCheck > 0.0 && remaining' <= atCheck - poll
    ensures MaxSleeps(remaining', poll) < MaxSleeps(remaining, poll)
  {
    WaitingShortensWait(remaining, atCheck, poll);
    WaitingShortensWait(atCheck - poll, remaining', poll);
  }
}
