/**
 * The Semantic Scholar rate limiter: before each call it sleeps out the
 * rest of the interval since the previous call finished, then makes the
 * call and records when it finished.
 *
 * Time is an abstract integer clock in milliseconds. The lock the source
 * holds around the whole step is what makes callers take turns; here the
 * callers are sequential, so each Execute is one turn.
 */
module RateLimiting {

  /** Interval with an API key: 0.15 s. */
  const KeyedIntervalMs: nat := 150
  /** Interval without an API key: 1.5 s. */
  const AnonymousIntervalMs: nat := 1500

  /**
   * The interval the scraper gives its limiter: the short one exactly when
   * an API key is configured (an empty key counts as none, as in Python).
   */
  function IntervalFor(apiKey: string): (ms: nat)
    ensures apiKey != "" <==> ms == KeyedIntervalMs
    ensures apiKey == "" <==> ms == AnonymousIntervalMs
  {
    if apiKey != "" then KeyedIntervalMs else AnonymousIntervalMs
  }

  /**
   * How long `execute` sleeps at time `now` when the previous call finished
   * at `last`: the rest of the interval, or nothing once it has passed.
   * It is the least delay after which a call may start.
   */
  function SleepFor(now: int, last: int, wait: nat): (d: nat)
    ensures now + d >= last + wait
    ensures d == 0 <==> now - last >= wait
    ensures d > 0 ==> now + d == last + wait
  {
    if now - last < wait then wait - (now - last) else 0
  }

  class RateLimiter {
    const waitTime: nat
    var lastCallTime: int

    constructor (intervalMs: nat)
      ensures waitTime == intervalMs && lastCallTime == 0
    {
      waitTime := intervalMs;
      lastCallTime := 0;
    }

    /**
     * Runs a call that arrives at `now`, yields `call` and takes `duration`.
     * The call starts no earlier than `waitTime` after the previous call
     * finished, and no later than needed; its result is passed through
     * unchanged and its finish time becomes the new `lastCallTime`.
     */
    method Execute<T>(now: int, call: T, duration: nat) returns (result: T, start: int, finish: int)
      modifies this
      ensures start == now + SleepFor(now, old(lastCallTime), waitTime)
      ensures start >= old(lastCallTime) + waitTime && start >= now
      ensures finish == start + duration
      ensures lastCallTime == finish
      ensures result == call
    {
      var timeSinceLast := now - lastCallTime;
      start := now;
      if timeSinceLast < waitTime {
        start := now + (waitTime - timeSinceLast);
      }
      result := call;
      finish := start + duration;
      lastCallTime := finish;
    }
  }
}
