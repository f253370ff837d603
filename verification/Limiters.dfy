/** The three rate-limit algorithms of app/services/algorithms.py.
  *
  * Times are integer milliseconds. The token bucket counts in units of 1/windowMs of a
  * token: a request costs windowMs units, a millisecond refills `rate` units, and a full
  * bucket holds capacity * windowMs units, so that every quantity is an exact integer.
  */
module Limiters {
  import opened Arith

  datatype Computation = Computation(
    allowed: bool, remaining: int, resetAtMs: int, retryAfterMs: int)

  // ----- fixed window -----

  datatype FixedWindow = FixedWindow(windowStartMs: int, count: int)

  /** Start of the aligned window that contains `now`. */
  function WindowStart(now: int, windowMs: int): (start: int)
    requires windowMs > 0
    ensures start <= now < start + windowMs
  {
    now - now % windowMs
  }

  /** The aligned window that starts at `start` is the window of exactly the times in it. */
  lemma SameWindow(start: int, t: int, windowMs: int)
    requires windowMs > 0 && WindowStart(start, windowMs) == start
    ensures WindowStart(t, windowMs) == start <==> start <= t < start + windowMs
  {
    if start <= t < start + windowMs {
      var q, k := start / windowMs, t / windowMs;
      if k < q {
        MulMono(k + 1, q, windowMs);
      } else if k > q {
        MulMono(q + 1, k, windowMs);
      }
    }
  }

  lemma WindowStartsAligned(t: int, windowMs: int)
    requires windowMs > 0
    ensures WindowStart(WindowStart(t, windowMs), windowMs) == WindowStart(t, windowMs)
    ensures WindowStart(WindowStart(t, windowMs) + windowMs, windowMs) == WindowStart(t, windowMs) + windowMs
  {
    var q := t / windowMs;
    assert WindowStart(t, windowMs) == q * windowMs;
    MultipleAligned(q, windowMs);
    MultipleAligned(q + 1, windowMs);
    assert (q + 1) * windowMs == q * windowMs + windowMs;
  }

  lemma MultipleAligned(q: int, windowMs: int)
    requires windowMs > 0
    ensures WindowStart(q * windowMs, windowMs) == q * windowMs
  {
    var x := q * windowMs;
    var k := x / windowMs;
    assert x == windowMs * k + x % windowMs;
    if k < q {
      MulMono(k + 1, q, windowMs);
    } else if k > q {
      MulMono(q + 1, k, windowMs);
    }
  }

  /** The counter that a request at `now` finds: the stored one, or a new one for a new window. */
  function FixedWindowCurrent(now: int, state: Option<FixedWindow>, windowMs: int): FixedWindow
    requires windowMs > 0
  {
    var start := WindowStart(now, windowMs);
    if state.None? || state.value.windowStartMs != start then FixedWindow(start, 0) else state.value
  }

  function FixedWindowStep(now: int, state: Option<FixedWindow>, limit: int, windowSeconds: int)
    : (FixedWindow, Computation)
    requires windowSeconds > 0
  {
    var windowMs := windowSeconds * 1000;
    var current := FixedWindowCurrent(now, state, windowMs);
    var nextCount := current.count + 1;
    var allowed := nextCount <= limit;
    var next := if allowed then current.(count := nextCount) else current;
    var resetAt := WindowStart(now, windowMs) + windowMs;
    (next, Computation(allowed,
                       Max(0, limit - (if allowed then next.count else nextCount)),
                       resetAt,
                       Max(0, resetAt - now)))
  }

  // ----- sliding window log -----

  function ActiveEvents(events: seq<int>, cutoff: int): (active: seq<int>)
  {
    if events == [] then []
    else
      var earlier := ActiveEvents(events[..|events| - 1], cutoff);
      if events[|events| - 1] > cutoff then earlier + [events[|events| - 1]] else earlier
  }

  function SlidingLogStep(now: int, events: seq<int>, limit: int, windowSeconds: int)
    : (seq<int>, Computation)
  {
    var windowMs := windowSeconds * 1000;
    var active := ActiveEvents(events, now - windowMs);
    var allowed := |active| < limit;
    var next := if allowed then active + [now] else active;
    var oldest := if next != [] then next[0] else now;
    var resetAt := oldest + windowMs;
    (next, Computation(allowed, Max(0, limit - |next|), resetAt, Max(0, resetAt - now)))
  }

  // ----- token bucket -----

  datatype TokenBucket = TokenBucket(tokens: int, lastRefillMs: int)

  function Refill(tokens: int, elapsed: int, rate: int, full: int): int {
    Min(full, tokens + elapsed * rate)
  }

  /** What a request at `now` finds in the bucket; a missing bucket is full. */
  function TokenBucketAvailable(now: int, state: Option<TokenBucket>, full: int, rate: int): int {
    var current := if state.None? then TokenBucket(full, now) else state.value;
    Refill(current.tokens, Max(0, now - current.lastRefillMs), rate, full)
  }

  function TokenBucketStep(
    now: int, state: Option<TokenBucket>, capacity: int, rate: int, windowSeconds: int)
    : (TokenBucket, Computation)
    requires rate > 0 && windowSeconds > 0
  {
    var cost := windowSeconds * 1000;
    var full := capacity * cost;
    var available := TokenBucketAvailable(now, state, full, rate);
    var allowed := available >= cost;
    var left := if allowed then available - cost else available;
    var retry := if allowed then 0 else CeilDiv(Max(0, cost - left), rate);
    (TokenBucket(left, now),
     Computation(allowed, Max(0, left / cost), now + Max(0, CeilDiv(full - left, rate)), retry))
  }

  // ----- one interface over the three -----

  datatype Config =
    | FixedWindowConfig(limit: int, windowSeconds: int)
    | SlidingLogConfig(limit: int, windowSeconds: int)
    | TokenBucketConfig(capacity: int, rate: int, windowSeconds: int)
  {
    /** The bounds that app/schemas/policy.py puts on every stored policy. */
    predicate Valid() {
      && windowSeconds >= 1
      && match this
         case FixedWindowConfig(limit, _) => limit >= 1
         case SlidingLogConfig(limit, _) => limit >= 1
         case TokenBucketConfig(capacity, rate, _) => capacity >= 1 && rate >= 1
    }

    function WindowMs(): int { windowSeconds * 1000 }
  }

  datatype State =
    | Fresh
    | FixedState(fixed: FixedWindow)
    | LogState(events: seq<int>)
    | BucketState(bucket: TokenBucket)

  predicate Fits(c: Config, s: State) {
    match c
    case FixedWindowConfig(_, _) => s.Fresh? || s.FixedState?
    case SlidingLogConfig(_, _) => s.Fresh? || s.LogState?
    case TokenBucketConfig(_, _, _) => s.Fresh? || s.BucketState?
  }

  function Step(c: Config, s: State, now: int): (r: (State, Computation))
    requires c.Valid() && Fits(c, s)
    ensures Fits(c, r.0) && !r.0.Fresh?
  {
    match c
    case FixedWindowConfig(limit, seconds) =>
      var (next, d) := FixedWindowStep(now, if s.Fresh? then None else Some(s.fixed), limit, seconds);
      (FixedState(next), d)
    case SlidingLogConfig(limit, seconds) =>
      var (next, d) := SlidingLogStep(now, if s.Fresh? then [] else s.events, limit, seconds);
      (LogState(next), d)
    case TokenBucketConfig(capacity, rate, seconds) =>
      var (next, d) := TokenBucketStep(now, if s.Fresh? then None else Some(s.bucket), capacity, rate, seconds);
      (BucketState(next), d)
  }

  /** Whether a request at `now` is let through; the first half of `Step`, without the arithmetic
    * of the answer. */
  predicate Admits(c: Config, s: State, now: int)
    requires c.Valid() && Fits(c, s)
  {
    match c
    case FixedWindowConfig(limit, seconds) =>
      FixedWindowCurrent(now, if s.Fresh? then None else Some(s.fixed), c.WindowMs()).count < limit
    case SlidingLogConfig(limit, seconds) =>
      |ActiveEvents(if s.Fresh? then [] else s.events, now - c.WindowMs())| < limit
    case TokenBucketConfig(capacity, rate, seconds) =>
      TokenBucketAvailable(now, if s.Fresh? then None else Some(s.bucket), capacity * c.WindowMs(), rate)
      >= c.WindowMs()
  }

  /** The state that a request at `now` leaves behind; the other half of `Step`. */
  function Next(c: Config, s: State, now: int): (next: State)
    requires c.Valid() && Fits(c, s)
    ensures Fits(c, next) && !next.Fresh?
  {
    match c
    case FixedWindowConfig(limit, seconds) =>
      var current := FixedWindowCurrent(now, if s.Fresh? then None else Some(s.fixed), c.WindowMs());
      FixedState(if Admits(c, s, now) then current.(count := current.count + 1) else current)
    case SlidingLogConfig(limit, seconds) =>
      var active := ActiveEvents(if s.Fresh? then [] else s.events, now - c.WindowMs());
      LogState(if Admits(c, s, now) then active + [now] else active)
    case TokenBucketConfig(capacity, rate, seconds) =>
      var available :=
        TokenBucketAvailable(now, if s.Fresh? then None else Some(s.bucket), capacity * c.WindowMs(), rate);
      BucketState(TokenBucket(if Admits(c, s, now) then available - c.WindowMs() else available, now))
  }

  lemma StepHalves(c: Config, s: State, now: int)
    requires c.Valid() && Fits(c, s)
    ensures Step(c, s, now).0 == Next(c, s, now)
    ensures Step(c, s, now).1.allowed == Admits(c, s, now)
  {
  }

  /** State after the requests at `times`, from nothing. */
  function After(c: Config, times: seq<int>): (s: State)
    requires c.Valid()
    ensures Fits(c, s) && (s.Fresh? <==> times == [])
  {
    if times == [] then Fresh
    else Next(c, After(c, times[..|times| - 1]), times[|times| - 1])
  }

  /** Whether a request at `now` is let through after the requests at `times`. */
  predicate Allows(c: Config, times: seq<int>, now: int)
    requires c.Valid()
  {
    Admits(c, After(c, times), now)
  }

  /** The full answer to a request at `now` after the requests at `times`. */
  function Decide(c: Config, times: seq<int>, now: int): (d: Computation)
    requires c.Valid()
    ensures d.allowed <==> Allows(c, times, now)
  {
    StepHalves(c, After(c, times), now);
    Step(c, After(c, times), now).1
  }

  /** The timestamps of the requests among `times` that are let through. */
  function Admitted(c: Config, times: seq<int>): (admitted: seq<int>)
    requires c.Valid()
  {
    if times == [] then []
    else
      var before := times[..|times| - 1];
      var now := times[|times| - 1];
      if Allows(c, before, now) then Admitted(c, before) + [now] else Admitted(c, before)
  }

  lemma AfterSnoc(c: Config, times: seq<int>, now: int)
    requires c.Valid()
    ensures After(c, times + [now]) == Next(c, After(c, times), now)
    ensures Admitted(c, times + [now]) ==
            if Allows(c, times, now) then Admitted(c, times) + [now] else Admitted(c, times)
  {
    assert (times + [now])[..|times|] == times;
  }

  lemma AdmittedCountSnoc(c: Config, times: seq<int>, now: int, lo: int, hi: int)
    requires c.Valid()
    ensures CountIn(Admitted(c, times + [now]), lo, hi) ==
            CountIn(Admitted(c, times), lo, hi) + (if Allows(c, times, now) && lo <= now < hi then 1 else 0)
  {
    AfterSnoc(c, times, now);
    CountInSnoc(Admitted(c, times), now, lo, hi);
  }

  lemma {:induction false} AdmittedFrom(c: Config, times: seq<int>)
    requires c.Valid()
    ensures forall x :: x in Admitted(c, times) ==> x in times
  {
    if times != [] {
      AdmittedFrom(c, times[..|times| - 1]);
    }
  }
}
