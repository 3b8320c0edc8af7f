/**
 * The timer-driven minds of src/coolit.ts:55-84 over an abstract integer
 * clock in milliseconds. A mind's `next()` reads the clock, waits, and
 * signals; here the wait is a computed delay, and the clock reading when the
 * timer fires is the reading `now + delay + lateness`, where `lateness` is how
 * late the host ran the timer.
 */
module Mind {

  /** The delay `setTimeout` actually waits: a negative request waits 0. */
  function Timeout(d: int): nat
  {
    if d < 0 then 0 else d
  }

  function Max(a: int, b: int): int
  {
    if a < b then b else a
  }

  /**
   * The throttle's delay (line 80): wait only what is left of `msec` since
   * the previous signal at `prev`, given the reading `curr`.
   */
  function ThrottleDelay(msec: int, prev: int, curr: int): (d: nat)
    ensures curr >= prev ==> d <= Timeout(msec)
    ensures curr - prev >= msec ==> d == 0
    ensures curr - prev < msec ==> d > 0 && curr + d == prev + msec
  {
    if 0 < msec - (curr - prev) then msec - (curr - prev) else 0
  }

  /** `intervalMind(msec)`: every step waits `msec`, however long the consumer took. */
  class IntervalMind {
    const msec: int
    /** `next()` calls answered so far. */
    var steps: nat

    constructor (msec: int)
      ensures this.msec == msec && steps == 0
    {
      this.msec := msec;
      steps := 0;
    }

    /** One `next()` resumed at clock reading `now`: returns the delay and the signal's reading. */
    method Next(now: int, lateness: nat) returns (delay: nat, signal: int)
      modifies this
      ensures delay == Timeout(msec) && signal == now + delay + lateness
      ensures steps == old(steps) + 1
    {
      delay := Timeout(msec);
      signal := now + delay + lateness;
      steps := steps + 1;
    }
  }

  /**
   * `throttleMind(msec)`. Its body first runs at the first `next()`, so
   * `prev` is set (line 77) at that first step, not when the mind is created.
   */
  class ThrottleMind {
    const msec: int
    /** The body has run past line 77. */
    var started: bool
    /** The clock reading taken after the previous wait. */
    var prev: int

    constructor (msec: int)
      ensures this.msec == msec && !started
    {
      this.msec := msec;
      started := false;
      prev := 0;
    }

    /**
     * One `next()` resumed at clock reading `now`: waits what is left of
     * `msec` since the previous signal (a full `msec` on the first step) and
     * keeps the reading after the wait as the new baseline.
     */
    method Next(now: int, lateness: nat) returns (delay: nat, signal: int)
      modifies this
      ensures delay == ThrottleDelay(msec, if old(started) then old(prev) else now, now)
      ensures signal == now + delay + lateness
      ensures started && prev == signal
    {
      if !started {
        prev := now;
        started := true;
      }
      var curr := now;
      delay := ThrottleDelay(msec, prev, curr);
      signal := curr + delay + lateness;
      prev := signal;
    }
  }

  /**
   * The reading at the k-th signal (from 0) of an interval mind first resumed
   * at `t0`, when the operator resumes it `w` after each signal (the time its
   * source and its consumer take per element) and timers fire on time.
   */
  function IntervalSignal(msec: int, w: nat, t0: int, k: nat): int
  {
    if k == 0 then t0 + Timeout(msec)
    else IntervalSignal(msec, w, t0, k - 1) + w + Timeout(msec)
  }

  /** The same for a throttle mind created before `t0`. */
  function ThrottleSignal(msec: int, w: nat, t0: int, k: nat): int
  {
    if k == 0 then t0 + ThrottleDelay(msec, t0, t0)
    else
      var prev := ThrottleSignal(msec, w, t0, k - 1);
      var curr := prev + w;
      curr + ThrottleDelay(msec, prev, curr)
  }

  /** Interval signals are the interval plus the work apart: work adds to the wait. */
  lemma IntervalGap(msec: int, w: nat, t0: int, k: nat)
    ensures IntervalSignal(msec, w, t0, k + 1) - IntervalSignal(msec, w, t0, k) == Timeout(msec) + w
  {
  }

  /**
   * Throttle signals are the larger of the interval and the work apart: work
   * up to `msec` is absorbed into the wait, longer work means no wait at all.
   */
  lemma ThrottleGap(msec: int, w: nat, t0: int, k: nat)
    ensures ThrottleSignal(msec, w, t0, k + 1) - ThrottleSignal(msec, w, t0, k) == Max(Timeout(msec), w)
  {
  }

  lemma {:induction false} IntervalClosedForm(msec: int, w: nat, t0: int, k: nat)
    ensures IntervalSignal(msec, w, t0, k) == t0 + Timeout(msec) + k * (Timeout(msec) + w)
  {
    if k > 0 {
      IntervalClosedForm(msec, w, t0, k - 1);
      assert k * (Timeout(msec) + w) == (k - 1) * (Timeout(msec) + w) + (Timeout(msec) + w);
    }
  }

  lemma {:induction false} ThrottleClosedForm(msec: int, w: nat, t0: int, k: nat)
    ensures ThrottleSignal(msec, w, t0, k) == t0 + Timeout(msec) + k * Max(Timeout(msec), w)
  {
    if k > 0 {
      ThrottleClosedForm(msec, w, t0, k - 1);
      ThrottleGap(msec, w, t0, k - 1);
      assert k * Max(Timeout(msec), w) == (k - 1) * Max(Timeout(msec), w) + Max(Timeout(msec), w);
    }
  }

  /**
   * The throttle is never behind the interval mind under the same work, and
   * strictly ahead from the second signal on when both the interval and the
   * work are positive.
   */
  lemma {:induction false} ThrottleNotSlower(msec: int, w: nat, t0: int, k: nat)
    ensures ThrottleSignal(msec, w, t0, k) <= IntervalSignal(msec, w, t0, k)
    ensures k > 0 && msec > 0 && w > 0 ==> ThrottleSignal(msec, w, t0, k) < IntervalSignal(msec, w, t0, k)
  {
    if k > 0 {
      ThrottleNotSlower(msec, w, t0, k - 1);
      ThrottleGap(msec, w, t0, k - 1);
      IntervalGap(msec, w, t0, k - 1);
    }
  }

  /**
   * The tests' timing scenario on the abstract clock: a 100 ms mind, 100 ms
   * of work per element. In the first 1000 ms after the first resume the
   * throttle signals 10 times, the interval mind 5 times.
   */
  lemma WindowCounts(t0: int)
    ensures forall k: nat :: ThrottleSignal(100, 100, t0, k) <= t0 + 1000 <==> k < 10
    ensures forall k: nat :: IntervalSignal(100, 100, t0, k) <= t0 + 1000 <==> k < 5
  {
    forall k: nat
      ensures ThrottleSignal(100, 100, t0, k) == t0 + 100 + 100 * k
      ensures IntervalSignal(100, 100, t0, k) == t0 + 100 + 200 * k
    {
      ThrottleClosedForm(100, 100, t0, k);
      IntervalClosedForm(100, 100, t0, k);
    }
  }

  /**
   * The operator's loop driving an interval mind for n steps: each step is
   * resumed `w` after the previous signal. Returns the signal readings.
   */
  method RunInterval(m: IntervalMind, t0: int, w: nat, n: nat) returns (signals: seq<int>)
    modifies m
    ensures |signals| == n && m.steps == old(m.steps) + n
    ensures forall k :: 0 <= k < n ==> signals[k] == IntervalSignal(m.msec, w, t0, k)
  {
    signals := [];
    var now := t0;
    while |signals| < n
      invariant |signals| <= n && m.steps == old(m.steps) + |signals|
      invariant forall k :: 0 <= k < |signals| ==> signals[k] == IntervalSignal(m.msec, w, t0, k)
      invariant now == if signals == [] then t0 else signals[|signals| - 1] + w
    {
      var delay, signal := m.Next(now, 0);
      signals := signals + [signal];
      now := signal + w;
    }
  }

  /** The same loop driving a throttle mind that has not been resumed before. */
  method RunThrottle(m: ThrottleMind, t0: int, w: nat, n: nat) returns (signals: seq<int>)
    requires !m.started
    modifies m
    ensures |signals| == n
    ensures n > 0 ==> m.started && m.prev == signals[n - 1]
    ensures forall k :: 0 <= k < n ==> signals[k] == ThrottleSignal(m.msec, w, t0, k)
  {
    signals := [];
    var now := t0;
    while |signals| < n
      invariant |signals| <= n && m.started == (signals != [])
      invariant forall k :: 0 <= k < |signals| ==> signals[k] == ThrottleSignal(m.msec, w, t0, k)
      invariant signals != [] ==> m.prev == signals[|signals| - 1]
      invariant now == if signals == [] then t0 else signals[|signals| - 1] + w
    {
      ghost var k := |signals|;
      ghost var base := if m.started then m.prev else now;
      var delay, signal := m.Next(now, 0);
      if k == 0 {
        assert signal == ThrottleSignal(m.msec, w, t0, 0);
      } else {
        assert base == ThrottleSignal(m.msec, w, t0, k - 1) && now == base + w;
        assert signal == ThrottleSignal(m.msec, w, t0, k);
      }
      signals := signals + [signal];
      now := signal + w;
    }
    assert |signals| == n;
  }
}
