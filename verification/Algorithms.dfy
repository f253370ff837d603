/** The algorithms of app/services/algorithms.py on the state objects that they update in place.
  * The sliding window log takes and returns lists; SlidingLogStep is that function. */
module Algorithms {
  import opened Arith
  import opened Limiters

  class FixedWindowState {
    var windowStartMs: int
    var count: int

    constructor (windowStartMs: int, count: int)
      ensures Value() == FixedWindow(windowStartMs, count)
    {
      this.windowStartMs, this.count := windowStartMs, count;
    }

    function Value(): FixedWindow
      reads this
    {
      FixedWindow(windowStartMs, count)
    }
  }

  class TokenBucketState {
    var tokens: int
    var lastRefillMs: int

    constructor (tokens: int, lastRefillMs: int)
      ensures Value() == TokenBucket(tokens, lastRefillMs)
    {
      this.tokens, this.lastRefillMs := tokens, lastRefillMs;
    }

    function Value(): TokenBucket
      reads this
    {
      TokenBucket(tokens, lastRefillMs)
    }
  }

  function FixedWindowOf(state: FixedWindowState?): Option<FixedWindow>
    reads state
  {
    if state == null then None else Some(state.Value())
  }

  function TokenBucketOf(state: TokenBucketState?): Option<TokenBucket>
    reads state
  {
    if state == null then None else Some(state.Value())
  }

  method ApplyFixedWindow(nowMs: int, state: FixedWindowState?, limit: int, windowSeconds: int)
    returns (next: FixedWindowState, d: Computation)
    requires windowSeconds > 0
    modifies state
    ensures (next.Value(), d) == FixedWindowStep(nowMs, old(FixedWindowOf(state)), limit, windowSeconds)
    ensures next == state || fresh(next)
  {
    var windowMs := windowSeconds * 1000;
    var expectedStart := WindowStart(nowMs, windowMs);

    if state == null || state.windowStartMs != expectedStart {
      next := new FixedWindowState(expectedStart, 0);
    } else {
      next := state;
    }

    var nextCount := next.count + 1;
    var allowed := nextCount <= limit;
    if allowed {
      next.count := nextCount;
    }

    var resetAtMs := expectedStart + windowMs;
    var remaining := Max(0, limit - (if allowed then next.count else nextCount));
    d := Computation(allowed, remaining, resetAtMs, Max(0, resetAtMs - nowMs));
  }

  method ApplyTokenBucket(
    nowMs: int, state: TokenBucketState?, capacity: int, rate: int, windowSeconds: int)
    returns (next: TokenBucketState, d: Computation)
    requires rate > 0 && windowSeconds > 0
    modifies state
    ensures (next.Value(), d) == TokenBucketStep(nowMs, old(TokenBucketOf(state)), capacity, rate, windowSeconds)
    ensures next == state || fresh(next)
  {
    var cost := windowSeconds * 1000;
    var full := capacity * cost;
    if state == null {
      next := new TokenBucketState(full, nowMs);
    } else {
      next := state;
    }

    var elapsedMs := Max(0, nowMs - next.lastRefillMs);
    var available := Min(full, next.tokens + elapsedMs * rate);

    var allowed := available >= cost;
    if allowed {
      available := available - cost;
    }

    next.tokens := available;
    next.lastRefillMs := nowMs;

    var retryAfterMs := 0;
    if !allowed {
      retryAfterMs := CeilDiv(Max(0, cost - available), rate);
    }
    var refillToFullMs := CeilDiv(full - available, rate);
    d := Computation(allowed, Max(0, available / cost), nowMs + Max(0, refillToFullMs), retryAfterMs);
  }
}
