/**
 * The `useCountdown` hook: a number of seconds that a one-second timer
 * decrements while it is positive.
 */
module Countdown {

  /**
   * The effect re-runs whenever the value changes: it schedules a timer only
   * while the value is positive, and the cleanup cancels the timer of the
   * previous value, so at most one timer is pending and it belongs to the
   * current value.
   */
  predicate TickScheduled(secondsLeft: int) { secondsLeft > 0 }

  /** The value after `k` seconds from `secondsLeft`, with no call to `start` in between. */
  function AfterSeconds(secondsLeft: int, k: nat): (r: int)
    ensures secondsLeft <= 0 ==> r == secondsLeft
    ensures secondsLeft > 0 ==> 0 <= r <= secondsLeft
  {
    if k == 0 || !TickScheduled(secondsLeft) then secondsLeft
    else AfterSeconds(secondsLeft - 1, k - 1)
  }

  /** From `n` seconds the countdown loses exactly one per second and then rests at zero. */
  lemma {:induction false} CountsDownByOne(n: int, k: nat)
    requires n >= 0
    ensures AfterSeconds(n, k) == if k <= n then n - k else 0
  {
    if k != 0 && n > 0 {
      CountsDownByOne(n - 1, k - 1);
    }
  }

  /** Once it has reached zero no timer is pending, so it stays at zero. */
  lemma {:induction false} ReachesZeroAndStops(n: nat)
    ensures AfterSeconds(n, n) == 0
    ensures !TickScheduled(AfterSeconds(n, n))
  {
    CountsDownByOne(n, n);
  }

  class Countdown {
    var secondsLeft: int

    /** `useState(0)`. */
    constructor ()
      ensures secondsLeft == 0
    {
      secondsLeft := 0;
    }

    /** `start(seconds)`: the value is set as given. */
    method Start(seconds: int)
      modifies this
      ensures secondsLeft == seconds
    {
      secondsLeft := seconds;
    }

    /** The pending timer fires: one second less, as `AfterSeconds` counts it. */
    method Tick()
      requires TickScheduled(secondsLeft)
      modifies this
      ensures secondsLeft == old(secondsLeft) - 1
      ensures secondsLeft == AfterSeconds(old(secondsLeft), 1)
      ensures secondsLeft >= 0
    {
      secondsLeft := secondsLeft - 1;
    }
  }
}
