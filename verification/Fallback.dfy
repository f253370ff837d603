/** The in-memory limiter of app/services/local_fallback_limiter.py: states per key, evicted when
  * they expire. First as a function on values, then as the object with its three dictionaries. */
module Fallback {
  import opened Arith
  import opened Limiters
  import opened Algorithms

  datatype Stored<+T> = Stored(value: T, expiresAtMs: int)

  datatype Store = Store(
    fixedWindows: map<string, Stored<FixedWindow>>,
    slidingWindows: map<string, Stored<seq<int>>>,
    tokenBuckets: map<string, Stored<TokenBucket>>)

  const EmptyStore := Store(map[], map[], map[])

  function Live<T>(bucket: map<string, Stored<T>>, now: int): map<string, Stored<T>> {
    map key | key in bucket && bucket[key].expiresAtMs > now :: bucket[key]
  }

  function Evicted(store: Store, now: int): Store {
    Store(Live(store.fixedWindows, now), Live(store.slidingWindows, now), Live(store.tokenBuckets, now))
  }

  function ValueIn<T>(bucket: map<string, Stored<T>>, key: string): Option<T> {
    if key in bucket then Some(bucket[key].value) else None
  }

  /** When the state that a request leaves behind may be forgotten. */
  function ExpiryOf(c: Config, ttlMs: int, next: State, d: Computation, now: int): int
    requires c.Valid() && Fits(c, next) && !next.Fresh?
  {
    if c.TokenBucketConfig? then
      var refillToFull := CeilDiv(c.capacity * c.WindowMs() - next.bucket.tokens, c.rate);
      Max(now + refillToFull + ttlMs, now + 1000)
    else
      Max(d.resetAtMs, now + ttlMs)
  }

  /** The part of `apply` after eviction. */
  function ApplyLive(ttlMs: int, live: Store, c: Config, key: string, now: int): (Store, Computation)
    requires c.Valid()
  {
    match c
    case FixedWindowConfig(limit, seconds) =>
      var (next, d) := FixedWindowStep(now, ValueIn(live.fixedWindows, key), limit, seconds);
      (live.(fixedWindows := live.fixedWindows[key := Stored(next, ExpiryOf(c, ttlMs, FixedState(next), d, now))]), d)
    case SlidingLogConfig(limit, seconds) =>
      var events := if key in live.slidingWindows then live.slidingWindows[key].value else [];
      var (next, d) := SlidingLogStep(now, events, limit, seconds);
      (live.(slidingWindows := live.slidingWindows[key := Stored(next, ExpiryOf(c, ttlMs, LogState(next), d, now))]), d)
    case TokenBucketConfig(capacity, rate, seconds) =>
      var (next, d) := TokenBucketStep(now, ValueIn(live.tokenBuckets, key), capacity, rate, seconds);
      (live.(tokenBuckets := live.tokenBuckets[key := Stored(next, ExpiryOf(c, ttlMs, BucketState(next), d, now))]), d)
  }

  /** One call of `apply`. */
  function Apply(ttlMs: int, store: Store, c: Config, key: string, now: int): (Store, Computation)
    requires c.Valid()
  {
    ApplyLive(ttlMs, Evicted(store, now), c, key, now)
  }

  lemma SameButFor<T>(m: map<string, T>, m': map<string, T>, key: string, e: T)
    requires m - {key} == m' - {key}
    ensures m[key := e] == m'[key := e]
  {
    assert m[key := e] == (m - {key})[key := e];
    assert m'[key := e] == (m' - {key})[key := e];
  }

  datatype FallbackDecision = FallbackDecision(
    allowed: bool, limit: int, remaining: int, resetAtEpochSeconds: int, retryAfterSeconds: int)

  function HeaderLimit(c: Config): int {
    if c.TokenBucketConfig? then c.capacity else c.limit
  }

  function ToDecision(c: Config, d: Computation): FallbackDecision {
    FallbackDecision(d.allowed, HeaderLimit(c), d.remaining, CeilDiv(d.resetAtMs, 1000),
                     if d.allowed then 0 else CeilDiv(d.retryAfterMs, 1000))
  }

  /** `now_ms or clock`: an explicit 0 counts as not given. */
  function EffectiveNow(nowMs: Option<int>, clockMs: int): int {
    if nowMs.Some? && nowMs.value != 0 then nowMs.value else clockMs
  }

  class LocalFallbackLimiter {
    var fixedWindows: map<string, Stored<FixedWindowState>>
    var slidingWindows: map<string, Stored<seq<int>>>
    var tokenBuckets: map<string, Stored<TokenBucketState>>
    const stateTtlMs: int

    ghost function FixedStates(): set<object>
      reads `fixedWindows
    {
      set key | key in fixedWindows :: fixedWindows[key].value as object
    }

    ghost function BucketStates(): set<object>
      reads `tokenBuckets
    {
      set key | key in tokenBuckets :: tokenBuckets[key].value as object
    }

    ghost function States(): set<object>
      reads `fixedWindows, `tokenBuckets
    {
      FixedStates() + BucketStates()
    }

    /** No two keys share a state object. */
    ghost predicate Valid()
      reads `fixedWindows, `tokenBuckets
    {
      && stateTtlMs >= 1000
      && (forall k, l :: k in fixedWindows && l in fixedWindows && k != l ==>
            fixedWindows[k].value != fixedWindows[l].value)
      && (forall k, l :: k in tokenBuckets && l in tokenBuckets && k != l ==>
            tokenBuckets[k].value != tokenBuckets[l].value)
    }

    ghost function FixedView(): map<string, Stored<FixedWindow>>
      reads `fixedWindows, FixedStates()
    {
      map key | key in fixedWindows :: Stored(fixedWindows[key].value.Value(), fixedWindows[key].expiresAtMs)
    }

    ghost function BucketView(): map<string, Stored<TokenBucket>>
      reads `tokenBuckets, BucketStates()
    {
      map key | key in tokenBuckets :: Stored(tokenBuckets[key].value.Value(), tokenBuckets[key].expiresAtMs)
    }

    ghost function View(): Store
      reads this, States()
    {
      Store(FixedView(), slidingWindows, BucketView())
    }

    constructor (stateTtlSeconds: int)
      ensures Valid() && View() == EmptyStore && stateTtlMs == Max(1, stateTtlSeconds) * 1000
      ensures States() == {}
    {
      fixedWindows, slidingWindows, tokenBuckets := map[], map[], map[];
      stateTtlMs := Max(1, stateTtlSeconds) * 1000;
    }

    method Clear()
      modifies this
      ensures View() == EmptyStore && States() == {}
      ensures old(Valid()) ==> Valid()
    {
      fixedWindows, slidingWindows, tokenBuckets := map[], map[], map[];
    }

    method EvictFixed(nowMs: int)
      requires Valid()
      modifies `fixedWindows
      ensures Valid() && States() <= old(States())
      ensures FixedView() == Live(old(FixedView()), nowMs) && BucketView() == old(BucketView())
    {
      fixedWindows := Prune(fixedWindows, nowMs);
    }

    method EvictSliding(nowMs: int)
      requires Valid()
      modifies `slidingWindows
      ensures Valid() && States() == old(States()) && slidingWindows == Live(old(slidingWindows), nowMs)
      ensures FixedView() == old(FixedView()) && BucketView() == old(BucketView())
    {
      slidingWindows := Prune(slidingWindows, nowMs);
    }

    method EvictBuckets(nowMs: int)
      requires Valid()
      modifies `tokenBuckets
      ensures Valid() && States() <= old(States())
      ensures BucketView() == Live(old(BucketView()), nowMs) && FixedView() == old(FixedView())
    {
      tokenBuckets := Prune(tokenBuckets, nowMs);
    }

    method EvictExpired(nowMs: int)
      requires Valid()
      modifies `fixedWindows, `slidingWindows, `tokenBuckets
      ensures Valid() && States() <= old(States())
      ensures View() == Evicted(old(View()), nowMs)
    {
      hide Live, Valid, States, FixedView, BucketView;
      EvictFixed(nowMs);
      EvictSliding(nowMs);
      EvictBuckets(nowMs);
    }

    method PutFixed(key: string, state: FixedWindowState, expiresAtMs: int)
      requires Valid() && forall k :: k in fixedWindows && k != key ==> fixedWindows[k].value != state
      modifies `fixedWindows
      ensures Valid() && States() <= old(States()) + {state}
      ensures FixedView() == old(FixedView())[key := Stored(old(state.Value()), expiresAtMs)]
      ensures BucketView() == old(BucketView())
    {
      hide FixedWindowState.Value, TokenBucketState.Value;
      fixedWindows := fixedWindows[key := Stored(state, expiresAtMs)];
      assert FixedStates() <= old(FixedStates()) + {state};
      assert BucketView() == old(BucketView());
    }

    method PutBucket(key: string, state: TokenBucketState, expiresAtMs: int)
      requires Valid() && forall k :: k in tokenBuckets && k != key ==> tokenBuckets[k].value != state
      modifies `tokenBuckets
      ensures Valid() && States() <= old(States()) + {state}
      ensures BucketView() == old(BucketView())[key := Stored(old(state.Value()), expiresAtMs)]
      ensures FixedView() == old(FixedView())
    {
      hide FixedWindowState.Value, TokenBucketState.Value;
      tokenBuckets := tokenBuckets[key := Stored(state, expiresAtMs)];
      assert BucketStates() <= old(BucketStates()) + {state};
      assert FixedView() == old(FixedView());
    }

    /** The window of `key` after the request, not yet stored again; all others are untouched. */
    method CountInWindow(c: Config, key: string, nowMs: int) returns (next: FixedWindowState, d: Computation)
      requires Valid() && c.Valid() && c.FixedWindowConfig?
      modifies FixedStates()
      ensures Valid() && fixedWindows == old(fixedWindows)
      ensures (next.Value(), d) ==
              FixedWindowStep(nowMs, ValueIn(old(FixedView()), key), c.limit, c.windowSeconds)
      ensures forall k :: k in fixedWindows && k != key ==> fixedWindows[k].value != next
      ensures FixedView() - {key} == old(FixedView()) - {key}
      ensures next in old(FixedStates()) || fresh(next)
    {
      hide FixedWindowStep;
      var state: FixedWindowState? := null;
      if key in fixedWindows {
        state := fixedWindows[key].value;
      }
      assert ValueIn(FixedView(), key) == FixedWindowOf(state);
      next, d := ApplyFixedWindow(nowMs, state, c.limit, c.windowSeconds);
    }

    method ApplyFixed(c: Config, key: string, nowMs: int) returns (d: Computation)
      requires Valid() && c.Valid() && c.FixedWindowConfig?
      modifies `fixedWindows, FixedStates()
      ensures Valid() && fresh(FixedStates() - old(FixedStates()))
      ensures (View(), d) == ApplyLive(stateTtlMs, old(View()), c, key, nowMs)
    {
      hide FixedWindowStep, FixedView, BucketView;
      var next: FixedWindowState;
      next, d := CountInWindow(c, key, nowMs);
      var expiresAtMs := Max(d.resetAtMs, nowMs + stateTtlMs);
      SameButFor(FixedView(), old(FixedView()), key, Stored(next.Value(), expiresAtMs));
      PutFixed(key, next, expiresAtMs);
      assert FixedView() == old(FixedView())[key := Stored(next.Value(), expiresAtMs)];
    }

    method ApplySliding(c: Config, key: string, nowMs: int) returns (d: Computation)
      requires Valid() && c.Valid() && c.SlidingLogConfig?
      modifies `slidingWindows
      ensures Valid() && States() == old(States())
      ensures (View(), d) == ApplyLive(stateTtlMs, old(View()), c, key, nowMs)
    {
      var events: seq<int> := [];
      if key in slidingWindows {
        events := slidingWindows[key].value;
      }
      var (nextEvents, computation) := SlidingLogStep(nowMs, events, c.limit, c.windowSeconds);
      d := computation;
      slidingWindows := slidingWindows[key := Stored(nextEvents, Max(d.resetAtMs, nowMs + stateTtlMs))];
      assert FixedView() == old(FixedView()) && BucketView() == old(BucketView());
    }

    /** The bucket of `key` after the request, not yet stored again; all others are untouched. */
    method TakeFromBucket(c: Config, key: string, nowMs: int) returns (next: TokenBucketState, d: Computation)
      requires Valid() && c.Valid() && c.TokenBucketConfig?
      modifies BucketStates()
      ensures Valid() && tokenBuckets == old(tokenBuckets)
      ensures (next.Value(), d) ==
              TokenBucketStep(nowMs, ValueIn(old(BucketView()), key), c.capacity, c.rate, c.windowSeconds)
      ensures forall k :: k in tokenBuckets && k != key ==> tokenBuckets[k].value != next
      ensures BucketView() - {key} == old(BucketView()) - {key}
      ensures next in old(BucketStates()) || fresh(next)
    {
      hide TokenBucketStep;
      var state: TokenBucketState? := null;
      if key in tokenBuckets {
        state := tokenBuckets[key].value;
      }
      assert ValueIn(BucketView(), key) == TokenBucketOf(state);
      next, d := ApplyTokenBucket(nowMs, state, c.capacity, c.rate, c.windowSeconds);
    }

    method ApplyBucket(c: Config, key: string, nowMs: int) returns (d: Computation)
      requires Valid() && c.Valid() && c.TokenBucketConfig?
      modifies `tokenBuckets, BucketStates()
      ensures Valid() && fresh(BucketStates() - old(BucketStates()))
      ensures (View(), d) == ApplyLive(stateTtlMs, old(View()), c, key, nowMs)
    {
      hide TokenBucketStep, FixedView, BucketView;
      var next: TokenBucketState;
      next, d := TakeFromBucket(c, key, nowMs);
      var expiresAtMs := ExpiryOf(c, stateTtlMs, BucketState(next.Value()), d, nowMs);
      SameButFor(BucketView(), old(BucketView()), key, Stored(next.Value(), expiresAtMs));
      PutBucket(key, next, expiresAtMs);
      assert BucketView() == old(BucketView())[key := Stored(next.Value(), expiresAtMs)];
    }

    method ApplyByAlgorithm(c: Config, key: string, nowMs: int) returns (d: Computation)
      requires Valid() && c.Valid()
      modifies this, States()
      ensures Valid() && fresh(States() - old(States()))
      ensures (View(), d) == ApplyLive(stateTtlMs, old(View()), c, key, nowMs)
    {
      match c {
        case FixedWindowConfig(_, _) => d := ApplyFixed(c, key, nowMs);
        case SlidingLogConfig(_, _) => d := ApplySliding(c, key, nowMs);
        case TokenBucketConfig(_, _, _) => d := ApplyBucket(c, key, nowMs);
      }
    }

    method ApplyCall(c: Config, key: string, nowMs: Option<int>, clockMs: int) returns (r: FallbackDecision)
      requires Valid() && c.Valid()
      modifies this, States()
      ensures Valid() && fresh(States() - old(States()))
      ensures var now := if nowMs == None || nowMs == Some(0) then clockMs else nowMs.value;
              && View() == Apply(stateTtlMs, old(View()), c, key, now).0
              && r == ToDecision(c, Apply(stateTtlMs, old(View()), c, key, now).1)
    {
      var now := EffectiveNow(nowMs, clockMs);
      EvictExpired(now);
      var d := ApplyByAlgorithm(c, key, now);
      r := ToDecision(c, d);
    }
  }

  method Prune<T>(bucket: map<string, Stored<T>>, nowMs: int) returns (kept: map<string, Stored<T>>)
    ensures kept == Live(bucket, nowMs)
  {
    kept := bucket;
    var expired := set key | key in bucket && bucket[key].expiresAtMs <= nowMs;
    while expired != {}
      invariant expired <= kept.Keys <= bucket.Keys
      invariant forall key :: key in kept ==> kept[key] == bucket[key]
      invariant forall key :: key in bucket ==>
                  (key in expired <==> bucket[key].expiresAtMs <= nowMs && key in kept)
      invariant forall key :: key in bucket && bucket[key].expiresAtMs > nowMs ==> key in kept
      decreases expired
    {
      var key :| key in expired;
      kept := map k | k in kept && k != key :: kept[k];
      expired := expired - {key};
    }
  }
}
