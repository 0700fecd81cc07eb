// The limiter that spaces out requests to Steam's web pages. The clock
// is a parameter: `now` is `Instant::now()` when `wait` starts and
// `resumed` is `Instant::now()` after its sleep, so at least the sleep
// later than `now`.

module ApiRateLimiter {

  /** How long `wait` sleeps when `elapsed` has passed since the last request. */
  function SleepFor(minDelay: nat, elapsed: nat): (s: nat)
  {
    if elapsed < minDelay then minDelay - elapsed else 0
  }

  /** `duration_since`, which counts a clock that went backwards as no time. */
  function Since(now: int, earlier: int): nat
  {
    if now >= earlier then now - earlier else 0
  }

  class RateLimiter {
    var lastRequestTime: int
    const minDelay: nat

    /** `RateLimiter::new`: the last request is dated one delay back, so the first one need not wait. */
    constructor (minDelay: nat, now: int)
      ensures this.minDelay == minDelay && lastRequestTime == now - minDelay
    {
      this.minDelay := minDelay;
      lastRequestTime := now - minDelay;
    }

    /** How long a `wait` starting at `now` sleeps. */
    function SleepAt(now: int): nat
      reads this
    {
      SleepFor(minDelay, Since(now, lastRequestTime))
    }

    /**
     * `wait`: sleep for what is left of the delay, then date the request
     * at the time it resumes. On a clock that does not go backwards, the
     * requests it lets through are at least `minDelay` apart.
     */
    method Wait(now: int, resumed: int) returns (slept: nat)
      requires resumed >= now + SleepAt(now)
      modifies this
      ensures slept == SleepFor(minDelay, Since(now, old(lastRequestTime)))
      ensures lastRequestTime == resumed
      ensures now >= old(lastRequestTime) ==> lastRequestTime >= old(lastRequestTime) + minDelay
    {
      if now >= lastRequestTime {
        SleepSpacesRequests(minDelay, lastRequestTime, now);
      }
      var elapsed := Since(now, lastRequestTime);
      slept := 0;
      if elapsed < minDelay {
        slept := minDelay - elapsed;
      }
      lastRequestTime := resumed;
    }

    /** `execute`: `wait`, then run `f` and hand back its result unchanged. */
    method Execute<T>(now: int, resumed: int, f: () -> T) returns (slept: nat, r: T)
      requires resumed >= now + SleepAt(now)
      modifies this
      ensures slept == SleepFor(minDelay, Since(now, old(lastRequestTime)))
      ensures lastRequestTime == resumed
      ensures now >= old(lastRequestTime) ==> lastRequestTime >= old(lastRequestTime) + minDelay
      ensures r == f()
    {
      slept := Wait(now, resumed);
      r := f();
    }
  }

  /**
   * The sleep makes up exactly the missing part of the delay: a request
   * never proceeds sooner than `minDelay` after the previous one, and
   * does not sleep when the delay has already passed.
   */
  lemma SleepSpacesRequests(minDelay: nat, last: int, now: int)
    requires now >= last
    ensures now + SleepFor(minDelay, Since(now, last)) >= last + minDelay
    ensures now - last >= minDelay ==> SleepFor(minDelay, Since(now, last)) == 0
    ensures now - last < minDelay ==> now + SleepFor(minDelay, Since(now, last)) == last + minDelay
  {
  }

  /** A new limiter lets its first request through at once. */
  lemma FirstWaitIsFree(minDelay: nat, created: int, now: int)
    requires now >= created
    ensures SleepFor(minDelay, Since(now, created - minDelay)) == 0
  {
  }

  /** The limiter's own test: a first wait at creation is free, a second one at once sleeps the whole delay. */
  method BackToBack(minDelay: nat, now: int) returns (first: nat, second: nat)
    ensures first == 0 && second == minDelay
  {
    var limiter := new RateLimiter(minDelay, now);
    first := limiter.Wait(now, now);
    second := limiter.Wait(now, now + minDelay);
  }
}
