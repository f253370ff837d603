/** The Redis token bucket under a clock that may step backwards, with the expiry that the script
  * sets: how large a step each of its guarantees survives. */
module BucketClock {
  import opened Arith
  import opened Limiters
  import opened TokenBucketRuns
  import opened RedisScripts

  // ----- clocks -----

  /** The latest of `times`, or `from`. */
  function Latest(from: int, times: seq<int>): (latest: int)
    ensures latest >= from
  {
    if times == [] then from else Max(Latest(from, times[..|times| - 1]), times[|times| - 1])
  }

  /** No time lies more than `back` behind the latest one before it, counted from `from`. */
  predicate Tolerated(from: int, times: seq<int>, back: int) {
    times == [] || (
      var earlier := times[..|times| - 1];
      Tolerated(from, earlier, back) && times[|times| - 1] >= Latest(from, earlier) - back)
  }

  lemma ClockSnoc(from: int, times: seq<int>, now: int, back: int)
    ensures Latest(from, times + [now]) == Max(Latest(from, times), now)
    ensures Tolerated(from, times + [now], back) <==> Tolerated(from, times, back) && now >= Latest(from, times) - back
  {
    assert (times + [now])[..|times|] == times;
  }

  // ----- runs of the script on one key -----

  /** One evaluation: the clock that it reads, and the expired keys dropped just before it. */
  datatype Tick = Tick(nowMs: int, victims: set<StoreKey>)

  function TimesOf(ticks: seq<Tick>): (times: seq<int>) {
    if ticks == [] then [] else TimesOf(ticks[..|ticks| - 1]) + [ticks[|ticks| - 1].nowMs]
  }

  function Evaluated(space: Keyspace, c: Config, key: string, t: Tick): (Keyspace, Reply)
    requires c.Valid()
  {
    RunScript(Purge(space, t.victims, t.nowMs), c, key, 0, t.nowMs)
  }

  predicate Allowed(reply: Reply) { reply.Reply? && reply.allowed }

  function SpaceAfter(space: Keyspace, c: Config, key: string, ticks: seq<Tick>): Keyspace
    requires c.Valid()
  {
    if ticks == [] then space
    else Evaluated(SpaceAfter(space, c, key, ticks[..|ticks| - 1]), c, key, ticks[|ticks| - 1]).0
  }

  /** How many of the evaluations let their request through. */
  function LetIn(space: Keyspace, c: Config, key: string, ticks: seq<Tick>): int
    requires c.Valid()
  {
    if ticks == [] then 0
    else
      var earlier := ticks[..|ticks| - 1];
      LetIn(space, c, key, earlier)
      + (if Allowed(Evaluated(SpaceAfter(space, c, key, earlier), c, key, ticks[|ticks| - 1]).1) then 1 else 0)
  }

  lemma NoTicks(from: int)
    ensures Latest(from, TimesOf([])) == from
  {
  }

  lemma TimesSnoc(ticks: seq<Tick>, t: Tick)
    ensures TimesOf(ticks + [t]) == TimesOf(ticks) + [t.nowMs]
  {
    assert (ticks + [t])[..|ticks|] == ticks;
  }

  lemma TickSnoc(space: Keyspace, c: Config, key: string, ticks: seq<Tick>, t: Tick)
    requires c.Valid()
    ensures TimesOf(ticks + [t]) == TimesOf(ticks) + [t.nowMs]
    ensures SpaceAfter(space, c, key, ticks + [t]) == Evaluated(SpaceAfter(space, c, key, ticks), c, key, t).0
    ensures LetIn(space, c, key, ticks + [t]) ==
            LetIn(space, c, key, ticks)
            + (if Allowed(Evaluated(SpaceAfter(space, c, key, ticks), c, key, t).1) then 1 else 0)
  {
    hide Evaluated, Allowed;
    assert (ticks + [t])[..|ticks|] == ticks;
  }

  /** How long an empty bucket takes to fill. */
  function FullMs(c: Config): (ms: int)
    requires c.Valid() && c.TokenBucketConfig?
  {
    CeilDiv(Full(c), c.rate)
  }

  lemma TtlIs(c: Config)
    requires c.Valid() && c.TokenBucketConfig?
    ensures BucketTtl(c) == FullMs(c) + c.WindowMs() && FullMs(c) > 0
    ensures (FullMs(c) - 1) * c.rate < Full(c) <= FullMs(c) * c.rate
  {
    FullHoldsOneRequest(c);
    CeilDivLeast(Full(c), c.rate, 0);
  }

  // ----- one evaluation -----

  /** The key holds a bucket between empty and full. */
  predicate HasBucket(space: Keyspace, key: string, full: int) {
    Plain(key) in space && space[Plain(key)].value.Hash? && 0 <= space[Plain(key)].value.tokens <= full
  }

  function BucketAt(space: Keyspace, key: string): (b: TokenBucket) {
    if Plain(key) in space && space[Plain(key)].value.Hash?
    then TokenBucket(space[Plain(key)].value.tokens, space[Plain(key)].value.lastRefillMs)
    else TokenBucket(0, 0)
  }

  function ExpiryAt(space: Keyspace, key: string): int {
    if Plain(key) in space then space[Plain(key)].expiresAtMs else 0
  }

  lemma EvalOnBucket(space: Keyspace, c: Config, key: string, now: int)
    requires c.Valid() && c.TokenBucketConfig? && HasBucket(space, key, Full(c))
    ensures var (next, reply) := RunScript(space, c, key, 0, now);
            var (b, b') := (BucketAt(space, key), BucketAt(next, key));
            && HasBucket(next, key, Full(c)) && ExpiryAt(next, key) == now + BucketTtl(c)
            && b'.lastRefillMs == Max(b.lastRefillMs, now)
            && b'.tokens + Paid(c, Allowed(reply)) ==
               Min(Full(c), b.tokens + (b'.lastRefillMs - b.lastRefillMs) * c.rate)
            && (Allowed(reply) <==>
                  Min(Full(c), b.tokens + (b'.lastRefillMs - b.lastRefillMs) * c.rate) >= c.WindowMs())
  {
    var b := BucketAt(space, key);
    MulMono(0, Max(0, now - b.lastRefillMs), c.rate);
  }

  lemma EvalOnNothing(space: Keyspace, c: Config, key: string, now: int)
    requires c.Valid() && c.TokenBucketConfig? && Plain(key) !in space
    ensures var (next, reply) := RunScript(space, c, key, 0, now);
            && HasBucket(next, key, Full(c)) && ExpiryAt(next, key) == now + BucketTtl(c)
            && BucketAt(next, key).lastRefillMs == now && Allowed(reply)
            && BucketAt(next, key).tokens + c.WindowMs() == Full(c)
  {
    FullHoldsOneRequest(c);
  }

  lemma PurgedOrNot(space: Keyspace, key: string, victims: set<StoreKey>, now: int)
    ensures var kept := Purge(space, victims, now);
            if Plain(key) in kept then
              && Plain(key) in space && kept[Plain(key)] == space[Plain(key)]
              && BucketAt(kept, key) == BucketAt(space, key)
            else Plain(key) in space ==> ExpiryAt(space, key) <= now
  {
  }

  /** Whatever the clock does, and whatever has expired: the level is between empty and full. */
  lemma {:induction false} LevelInRange(space: Keyspace, c: Config, key: string, ticks: seq<Tick>)
    requires c.Valid() && c.TokenBucketConfig? && ticks != []
    requires Plain(key) in space ==> HasBucket(space, key, Full(c))
    ensures HasBucket(SpaceAfter(space, c, key, ticks), key, Full(c))
  {
    hide RunScript, Full, Purge;
    var (earlier, t) := (ticks[..|ticks| - 1], ticks[|ticks| - 1]);
    if earlier != [] {
      LevelInRange(space, c, key, earlier);
    }
    var before := SpaceAfter(space, c, key, earlier);
    PurgedOrNot(before, key, t.victims, t.nowMs);
    var kept := Purge(before, t.victims, t.nowMs);
    if Plain(key) in kept {
      EvalOnBucket(kept, c, key, t.nowMs);
    } else {
      EvalOnNothing(kept, c, key, t.nowMs);
    }
  }

  /** A bucket whose last write was no more than `back` behind its time of last refill. */
  predicate Living(space: Keyspace, c: Config, key: string, back: int)
    requires c.Valid() && c.TokenBucketConfig?
  {
    && HasBucket(space, key, Full(c))
    && ExpiryAt(space, key) >= BucketAt(space, key).lastRefillMs + BucketTtl(c) - back
  }

  /** One evaluation, not too far back: the time of the last refill moves up to `now` or stays, also
    * when the key has expired; and unless the step back exceeds the window, what is let in is paid
    * for by what was there and what that time refills. */
  lemma OneEval(space: Keyspace, c: Config, key: string, t: Tick, back: int)
    requires c.Valid() && c.TokenBucketConfig? && 0 <= back <= BucketTtl(c) && Living(space, c, key, back)
    requires t.nowMs >= BucketAt(space, key).lastRefillMs - back
    ensures var (next, reply) := Evaluated(space, c, key, t);
            var (b, b') := (BucketAt(space, key), BucketAt(next, key));
            && Living(next, c, key, back)
            && b'.lastRefillMs == Max(b.lastRefillMs, t.nowMs)
            && (back <= c.WindowMs() ==>
                  b'.tokens + Paid(c, Allowed(reply)) <= b.tokens + (b'.lastRefillMs - b.lastRefillMs) * c.rate)
  {
    hide RunScript, Full, Purge, FullMs, BucketTtl;
    PurgedOrNot(space, key, t.victims, t.nowMs);
    TtlIs(c);
    var kept := Purge(space, t.victims, t.nowMs);
    if Plain(key) in kept {
      EvalOnBucket(kept, c, key, t.nowMs);
    } else {
      EvalOnNothing(kept, c, key, t.nowMs);
      if back <= c.WindowMs() {
        MulMono(FullMs(c), t.nowMs - BucketAt(space, key).lastRefillMs, c.rate);
      }
    }
  }

  lemma CountPaid(n: int, one: bool, w: int)
    ensures (n + (if one then 1 else 0)) * w == n * w + (if one then w else 0)
  {
  }

  /** What n requests and then perhaps one more have cost, from the level `start` at time `first`. */
  lemma Accumulate(c: Config, start: int, b: TokenBucket, b': TokenBucket, first: int, n: int, one: bool)
    requires c.TokenBucketConfig? && b.tokens + n * c.WindowMs() <= start + (b.lastRefillMs - first) * c.rate
    requires b'.tokens + Paid(c, one) <= b.tokens + (b'.lastRefillMs - b.lastRefillMs) * c.rate
    ensures b'.tokens + (n + (if one then 1 else 0)) * c.WindowMs() <= start + (b'.lastRefillMs - first) * c.rate
  {
    CountPaid(n, one, c.WindowMs());
    Distribute(b.lastRefillMs - first, b'.lastRefillMs - b.lastRefillMs, c.rate);
  }

  // ----- runs that do not step back too far -----

  /** Between any two evaluations of such a run: the time of the last refill is the latest time seen,
    * and whatever is let in is paid for by the level at the start and the growth of that time. */
  lemma {:induction false} AnyClock(space: Keyspace, c: Config, key: string, ticks: seq<Tick>, back: int)
    requires c.Valid() && c.TokenBucketConfig? && 0 <= back <= BucketTtl(c) && Living(space, c, key, back)
    requires Tolerated(BucketAt(space, key).lastRefillMs, TimesOf(ticks), back)
    ensures var (b, b') := (BucketAt(space, key), BucketAt(SpaceAfter(space, c, key, ticks), key));
            && Living(SpaceAfter(space, c, key, ticks), c, key, back)
            && b'.lastRefillMs == Latest(b.lastRefillMs, TimesOf(ticks))
            && (back <= c.WindowMs() ==>
                  b'.tokens + LetIn(space, c, key, ticks) * c.WindowMs()
                  <= b.tokens + (b'.lastRefillMs - b.lastRefillMs) * c.rate)
  {
    hide BucketTtl, Full, Evaluated, Allowed, BucketAt, HasBucket, ExpiryAt, TimesOf, Latest, Tolerated;
    var b := BucketAt(space, key);
    if ticks == [] {
      NoTicks(b.lastRefillMs);
      assert (b.lastRefillMs - b.lastRefillMs) * c.rate == 0;
    } else {
      var (earlier, t) := (ticks[..|ticks| - 1], ticks[|ticks| - 1]);
      assert ticks == earlier + [t];
      TickSnoc(space, c, key, earlier, t);
      ClockSnoc(b.lastRefillMs, TimesOf(earlier), t.nowMs, back);
      AnyClock(space, c, key, earlier, back);
      var middle := SpaceAfter(space, c, key, earlier);
      OneEval(middle, c, key, t, back);
      if back <= c.WindowMs() {
        var (next, reply) := Evaluated(middle, c, key, t);
        Accumulate(c, b.tokens, BucketAt(middle, key), BucketAt(next, key), b.lastRefillMs,
                   LetIn(space, c, key, earlier), Allowed(reply));
      }
    }
  }

  /** The same from the first request of a key on, which finds a full bucket. */
  lemma {:induction false} FromNothing(c: Config, key: string, ticks: seq<Tick>, back: int)
    requires c.Valid() && c.TokenBucketConfig? && 0 <= back <= BucketTtl(c) && ticks != []
    requires Tolerated(ticks[0].nowMs, TimesOf(ticks), back)
    ensures var (first, next) := (ticks[0].nowMs, SpaceAfter(map[], c, key, ticks));
            && Living(next, c, key, back)
            && BucketAt(next, key).lastRefillMs == Latest(first, TimesOf(ticks))
            && (back <= c.WindowMs() ==>
                  BucketAt(next, key).tokens + LetIn(map[], c, key, ticks) * c.WindowMs()
                  <= Full(c) + (BucketAt(next, key).lastRefillMs - first) * c.rate)
  {
    hide BucketTtl, Full, Evaluated, Allowed, BucketAt;
    var (earlier, t, first) := (ticks[..|ticks| - 1], ticks[|ticks| - 1], ticks[0].nowMs);
    assert ticks == earlier + [t];
    TickSnoc(map[], c, key, earlier, t);
    ClockSnoc(first, TimesOf(earlier), t.nowMs, back);
    if earlier == [] {
      FirstEval(c, key, t, back);
      assert (first - first) * c.rate == 0;
    } else {
      FromNothing(c, key, earlier, back);
      var middle := SpaceAfter(map[], c, key, earlier);
      OneEval(middle, c, key, t, back);
      if back <= c.WindowMs() {
        var (next, reply) := Evaluated(middle, c, key, t);
        Accumulate(c, Full(c), BucketAt(middle, key), BucketAt(next, key), first,
                   LetIn(map[], c, key, earlier), Allowed(reply));
      }
    }
  }

  lemma FirstEval(c: Config, key: string, t: Tick, back: int)
    requires c.Valid() && c.TokenBucketConfig? && back >= 0
    ensures var (next, reply) := Evaluated(map[], c, key, t);
            && Living(next, c, key, back) && BucketAt(next, key).lastRefillMs == t.nowMs && Allowed(reply)
            && BucketAt(next, key).tokens + c.WindowMs() == Full(c) && ExpiryAt(next, key) == t.nowMs + BucketTtl(c)
  {
    hide RunScript, BucketTtl, Full;
    EvalOnNothing(Purge(map[], t.victims, t.nowMs), c, key, t.nowMs);
  }

  /** All requests let in cost no more than a full bucket and what the clock refills by its progress. */
  ghost predicate AdmissionsBounded(c: Config, key: string, back: int)
    requires c.Valid() && c.TokenBucketConfig?
  {
    forall ticks: seq<Tick> :: ticks != [] && Tolerated(ticks[0].nowMs, TimesOf(ticks), back) ==>
      LetIn(map[], c, key, ticks) * c.WindowMs()
      <= Full(c) + (Latest(ticks[0].nowMs, TimesOf(ticks)) - ticks[0].nowMs) * c.rate
  }

  /** The time of the last refill is always the latest time seen. */
  ghost predicate RefillNeverGoesBack(c: Config, key: string, back: int)
    requires c.Valid() && c.TokenBucketConfig?
  {
    forall ticks: seq<Tick> :: ticks != [] && Tolerated(ticks[0].nowMs, TimesOf(ticks), back) ==>
      BucketAt(SpaceAfter(map[], c, key, ticks), key).lastRefillMs == Latest(ticks[0].nowMs, TimesOf(ticks))
  }

  // ----- runs that step back further -----

  /** k evaluations at one instant. */
  function Burst(now: int, k: nat): (ticks: seq<Tick>)
    ensures |ticks| == k && forall n :: 0 <= n < k ==> ticks[n] == Tick(now, {})
  {
    seq(k, _ => Tick(now, {}))
  }

  lemma PurgeNone(space: Keyspace, now: int)
    ensures Purge(space, {}, now) == space
  {
  }

  /** As many requests as there are tokens for get through at one instant. */
  lemma {:induction false} Drain(c: Config, key: string, ticks: seq<Tick>, now: int, left: nat, k: nat)
    requires c.Valid() && c.TokenBucketConfig? && k <= left <= c.capacity
    requires var space := SpaceAfter(map[], c, key, ticks);
             HasBucket(space, key, Full(c)) && BucketAt(space, key) == TokenBucket(left * c.WindowMs(), now)
    ensures var next := SpaceAfter(map[], c, key, ticks + Burst(now, k));
            HasBucket(next, key, Full(c)) && BucketAt(next, key) == TokenBucket((left - k) * c.WindowMs(), now)
    ensures LetIn(map[], c, key, ticks + Burst(now, k)) == LetIn(map[], c, key, ticks) + k
  {
    hide RunScript, Full, HasBucket, BucketAt, Purge;
    if k == 0 {
      assert ticks + Burst(now, 0) == ticks;
    } else {
      var earlier := ticks + Burst(now, k - 1);
      assert ticks + Burst(now, k) == earlier + [Tick(now, {})];
      Drain(c, key, ticks, now, left, k - 1);
      TickSnoc(map[], c, key, earlier, Tick(now, {}));
      TakeOne(SpaceAfter(map[], c, key, earlier), c, key, now, left - k);
    }
  }

  lemma TakeOne(space: Keyspace, c: Config, key: string, now: int, left: nat)
    requires c.Valid() && c.TokenBucketConfig? && left < c.capacity && HasBucket(space, key, Full(c))
    requires BucketAt(space, key) == TokenBucket((left + 1) * c.WindowMs(), now)
    ensures var (next, reply) := Evaluated(space, c, key, Tick(now, {}));
            && HasBucket(next, key, Full(c)) && BucketAt(next, key) == TokenBucket(left * c.WindowMs(), now)
            && Allowed(reply)
  {
    hide RunScript, Purge;
    PurgeNone(space, now);
    EvalOnBucket(space, c, key, now);
    assert (now - now) * c.rate == 0;
    MulMono(0, left, c.WindowMs());
    Distribute(left, 1, c.WindowMs());
  }

  /** A full bucket is emptied at once. */
  lemma DrainAll(c: Config, key: string, now: int)
    requires c.Valid() && c.TokenBucketConfig?
    ensures var (ticks, w) := (Burst(now, c.capacity), c.WindowMs());
            && HasBucket(SpaceAfter(map[], c, key, ticks), key, Full(c))
            && BucketAt(SpaceAfter(map[], c, key, ticks), key) == TokenBucket(0, now)
            && LetIn(map[], c, key, ticks) == c.capacity
  {
    hide HasBucket, BucketAt, SpaceAfter, LetIn, Burst, Full;
    AfterFirst(c, key, Tick(now, {}));
    DrainFully(c, key, [Tick(now, {})], now, c.capacity - 1);
    BurstAgain(now, c.capacity);
  }

  lemma AfterFirst(c: Config, key: string, t: Tick)
    requires c.Valid() && c.TokenBucketConfig?
    ensures var space := SpaceAfter(map[], c, key, [t]);
            && HasBucket(space, key, Full(c))
            && BucketAt(space, key) == TokenBucket((c.capacity - 1) * c.WindowMs(), t.nowMs)
            && LetIn(map[], c, key, [t]) == 1
  {
    hide HasBucket, BucketAt, Evaluated, Allowed, SpaceAfter, LetIn, Full;
    assert [] + [t] == [t];
    NoRun(map[], c, key);
    TickSnoc(map[], c, key, [], t);
    FirstFull(c, key, t);
  }

  lemma DrainFully(c: Config, key: string, ticks: seq<Tick>, now: int, left: nat)
    requires c.Valid() && c.TokenBucketConfig? && left <= c.capacity
    requires var space := SpaceAfter(map[], c, key, ticks);
             HasBucket(space, key, Full(c)) && BucketAt(space, key) == TokenBucket(left * c.WindowMs(), now)
    ensures var next := SpaceAfter(map[], c, key, ticks + Burst(now, left));
            HasBucket(next, key, Full(c)) && BucketAt(next, key) == TokenBucket(0, now)
    ensures LetIn(map[], c, key, ticks + Burst(now, left)) == LetIn(map[], c, key, ticks) + left
  {
    hide HasBucket, BucketAt, SpaceAfter, LetIn, Burst, Full;
    Drain(c, key, ticks, now, left, left);
    Nothing(left, c.WindowMs());
  }

  lemma Nothing(n: int, w: int)
    ensures (n - n) * w == 0
  {
  }

  lemma NoRun(space: Keyspace, c: Config, key: string)
    requires c.Valid()
    ensures SpaceAfter(space, c, key, []) == space && LetIn(space, c, key, []) == 0
  {
  }

  lemma BurstAgain(now: int, k: nat)
    requires k > 0
    ensures [Tick(now, {})] + Burst(now, k - 1) == Burst(now, k)
  {
  }

  lemma FirstFull(c: Config, key: string, t: Tick)
    requires c.Valid() && c.TokenBucketConfig?
    ensures var (next, reply) := Evaluated(map[], c, key, t);
            && HasBucket(next, key, Full(c)) && Allowed(reply)
            && BucketAt(next, key) == TokenBucket((c.capacity - 1) * c.WindowMs(), t.nowMs)
  {
    hide RunScript;
    EvalOnNothing(Purge(map[], t.victims, t.nowMs), c, key, t.nowMs);
    Distribute(c.capacity - 1, 1, c.WindowMs());
  }

  lemma {:induction false} ClockOfBurst(from: int, ticks: seq<Tick>, now: int, k: nat, back: int)
    requires back >= 0 && Tolerated(from, TimesOf(ticks), back) && now >= Latest(from, TimesOf(ticks))
    ensures Tolerated(from, TimesOf(ticks + Burst(now, k)), back)
    ensures Latest(from, TimesOf(ticks + Burst(now, k))) == if k == 0 then Latest(from, TimesOf(ticks)) else now
  {
    hide Latest, Tolerated, Burst;
    if k == 0 {
      assert ticks + Burst(now, 0) == ticks;
    } else {
      var earlier := ticks + Burst(now, k - 1);
      ClockOfBurst(from, ticks, now, k - 1, back);
      BurstSnoc(ticks, now, k);
      TimesSnoc(earlier, Tick(now, {}));
      ClockSnoc(from, TimesOf(earlier), now, back);
    }
  }

  lemma BurstSnoc(ticks: seq<Tick>, now: int, k: nat)
    requires k > 0
    ensures ticks + Burst(now, k) == ticks + Burst(now, k - 1) + [Tick(now, {})]
  {
  }

  /** The bucket is emptied at `now`; a request just more than a window earlier finds nothing, and
    * sets an expiry one millisecond before the bucket would be full again. */
  lemma ExpiresEarly(c: Config, key: string, now: int, back: int) returns (ticks: seq<Tick>)
    requires c.Valid() && c.TokenBucketConfig? && back > c.WindowMs()
    ensures var next := SpaceAfter(map[], c, key, ticks);
            && Plain(key) in next && ExpiryAt(next, key) == now + FullMs(c) - 1
            && LetIn(map[], c, key, ticks) == c.capacity
    ensures ticks != [] && ticks[0].nowMs == now
    ensures Tolerated(now, TimesOf(ticks), back) && Latest(now, TimesOf(ticks)) == now
  {
    hide RunScript, HasBucket, BucketAt, Evaluated, Allowed, ExpiryAt, Tolerated, Latest, Burst, SpaceAfter, LetIn,
      TimesOf, Full, FullMs, BucketTtl;
    var (burst, early) := (Burst(now, c.capacity), Tick(now - c.WindowMs() - 1, {}));
    ticks := burst + [early];
    DrainAll(c, key, now);
    TickSnoc(map[], c, key, burst, early);
    RefusedEarlier(SpaceAfter(map[], c, key, burst), c, key, now, early);
    BurstClock(now, c.capacity, back);
    ClockSnoc(now, TimesOf(burst), early.nowMs, back);
    TtlIs(c);
  }

  lemma BurstClock(now: int, k: nat, back: int)
    requires back >= 0
    ensures Tolerated(now, TimesOf(Burst(now, k)), back) && Latest(now, TimesOf(Burst(now, k))) == now
  {
    ClockOfBurst(now, [], now, k, back);
    assert [] + Burst(now, k) == Burst(now, k);
  }

  lemma RefusedEarlier(space: Keyspace, c: Config, key: string, now: int, t: Tick)
    requires c.Valid() && c.TokenBucketConfig? && HasBucket(space, key, Full(c))
    requires BucketAt(space, key) == TokenBucket(0, now) && t.nowMs < now && t.victims == {}
    ensures var (next, reply) := Evaluated(space, c, key, t);
            Plain(key) in next && !Allowed(reply) && ExpiryAt(next, key) == t.nowMs + BucketTtl(c)
  {
    hide RunScript, Purge, BucketTtl;
    PurgeNone(space, t.nowMs);
    EvalOnBucket(space, c, key, t.nowMs);
    assert (now - now) * c.rate == 0;
  }

  /** An evaluation that finds its key expired starts with a full bucket. */
  lemma ExpiredIsFull(space: Keyspace, c: Config, key: string, t: Tick)
    requires c.Valid() && c.TokenBucketConfig? && Plain(key) in space
    requires ExpiryAt(space, key) <= t.nowMs && Plain(key) in t.victims
    ensures var (next, reply) := Evaluated(space, c, key, t);
            && HasBucket(next, key, Full(c)) && Allowed(reply)
            && BucketAt(next, key) == TokenBucket((c.capacity - 1) * c.WindowMs(), t.nowMs)
  {
    hide RunScript;
    EvalOnNothing(Purge(space, t.victims, t.nowMs), c, key, t.nowMs);
    Distribute(c.capacity - 1, 1, c.WindowMs());
  }

  /** For every policy, a step back just longer than the window lets two full buckets in while the
    * clock refills less than one. */
  lemma ExpiryForgets(c: Config, key: string, now: int, back: int) returns (ticks: seq<Tick>)
    requires c.Valid() && c.TokenBucketConfig? && back > c.WindowMs()
    ensures ticks != [] && ticks[0].nowMs == now && Tolerated(now, TimesOf(ticks), back)
    ensures LetIn(map[], c, key, ticks) == 2 * c.capacity
    ensures (Latest(now, TimesOf(ticks)) - now) * c.rate < Full(c)
  {
    hide RunScript, HasBucket, BucketAt, Evaluated, Allowed, ExpiryAt, Tolerated, Latest, Burst, Full, FullMs;
    var early := ExpiresEarly(c, key, now, back);
    TtlIs(c);
    var later := now + FullMs(c) - 1;
    var again := Tick(later, {Plain(key)});
    var first := early + [again];
    TickSnoc(map[], c, key, early, again);
    ExpiredIsFull(SpaceAfter(map[], c, key, early), c, key, again);
    Drain(c, key, first, later, c.capacity - 1, c.capacity - 1);
    ticks := first + Burst(later, c.capacity - 1);
    ClockSnoc(now, TimesOf(early), later, back);
    ClockOfBurst(now, first, later, c.capacity - 1, back);
  }

  /** The bound on admissions holds of the script, expiry included, exactly on clocks that never step
    * back by more than the window. */
  lemma AdmissionsBoundedExactly(c: Config, key: string, back: int)
    requires c.Valid() && c.TokenBucketConfig? && back >= 0
    ensures AdmissionsBounded(c, key, back) <==> back <= c.WindowMs()
  {
    hide SpaceAfter, Full, Tolerated, Latest, TimesOf, BucketTtl, BucketAt;
    if back <= c.WindowMs() {
      forall ticks: seq<Tick> | ticks != [] && Tolerated(ticks[0].nowMs, TimesOf(ticks), back)
        ensures LetIn(map[], c, key, ticks) * c.WindowMs()
                <= Full(c) + (Latest(ticks[0].nowMs, TimesOf(ticks)) - ticks[0].nowMs) * c.rate
      {
        BoundedRun(c, key, ticks, back);
      }
    } else {
      var ticks := ExpiryForgets(c, key, 0, back);
      TwiceFull(c);
      assert Tolerated(ticks[0].nowMs, TimesOf(ticks), back);
    }
  }

  lemma BoundedRun(c: Config, key: string, ticks: seq<Tick>, back: int)
    requires c.Valid() && c.TokenBucketConfig? && 0 <= back <= c.WindowMs() && ticks != []
    requires Tolerated(ticks[0].nowMs, TimesOf(ticks), back)
    ensures LetIn(map[], c, key, ticks) * c.WindowMs()
            <= Full(c) + (Latest(ticks[0].nowMs, TimesOf(ticks)) - ticks[0].nowMs) * c.rate
  {
    hide SpaceAfter, Full, Tolerated, Latest, TimesOf, BucketTtl, LetIn;
    TtlIs(c);
    FromNothing(c, key, ticks, back);
    assert BucketAt(SpaceAfter(map[], c, key, ticks), key).tokens >= 0;
  }

  lemma TwiceFull(c: Config)
    requires c.Valid() && c.TokenBucketConfig?
    ensures 2 * c.capacity * c.WindowMs() == Full(c) + Full(c)
  {
  }

  /** For every policy, an expiry that a longer step back has set can come before the latest time. */
  lemma ExpiryRewinds(c: Config, key: string, now: int, back: int) returns (ticks: seq<Tick>)
    requires c.Valid() && c.TokenBucketConfig? && back > BucketTtl(c)
    ensures ticks != [] && ticks[0].nowMs == now
    ensures Tolerated(now, TimesOf(ticks), back) && Latest(now, TimesOf(ticks)) == now
    ensures BucketAt(SpaceAfter(map[], c, key, ticks), key).lastRefillMs == now - 1
  {
    hide RunScript, HasBucket, BucketAt, Evaluated, Allowed, ExpiryAt, Tolerated, Latest, Full, BucketTtl, FullMs;
    TtlIs(c);
    var (a, b, d) := (Tick(now, {}), Tick(now - BucketTtl(c) - 1, {}), Tick(now - 1, {Plain(key)}));
    assert [] + [a] == [a];
    TickSnoc(map[], c, key, [], a);
    FirstFull(c, key, a);
    TickSnoc(map[], c, key, [a], b);
    WritesExpiry(SpaceAfter(map[], c, key, [a]), c, key, b);
    TickSnoc(map[], c, key, [a] + [b], d);
    ExpiredIsFull(SpaceAfter(map[], c, key, [a] + [b]), c, key, d);
    ticks := [a] + [b] + [d];
    ThreeTimes(now, TimesOf([]), a.nowMs, b.nowMs, d.nowMs, back);
  }

  lemma ThreeTimes(from: int, times: seq<int>, a: int, b: int, d: int, back: int)
    requires times == [] && a == from && from - back <= b <= from && from - back <= d <= from && back >= 0
    ensures Tolerated(from, times + [a] + [b] + [d], back) && Latest(from, times + [a] + [b] + [d]) == from
  {
    ClockSnoc(from, times, a, back);
    ClockSnoc(from, times + [a], b, back);
    ClockSnoc(from, times + [a] + [b], d, back);
  }

  lemma WritesExpiry(space: Keyspace, c: Config, key: string, t: Tick)
    requires c.Valid() && c.TokenBucketConfig? && HasBucket(space, key, Full(c)) && t.victims == {}
    ensures var next := Evaluated(space, c, key, t).0;
            Plain(key) in next && ExpiryAt(next, key) == t.nowMs + BucketTtl(c)
  {
    hide RunScript, Purge, BucketTtl;
    PurgeNone(space, t.nowMs);
    EvalOnBucket(space, c, key, t.nowMs);
  }

  /** last_refill_ms never decreases, expiry included, exactly on clocks that never step back by more
    * than the time to live of a bucket. */
  lemma RefillNeverGoesBackExactly(c: Config, key: string, back: int)
    requires c.Valid() && c.TokenBucketConfig? && back >= 0
    ensures RefillNeverGoesBack(c, key, back) <==> back <= BucketTtl(c)
  {
    hide SpaceAfter, Full, Tolerated, Latest, TimesOf, BucketTtl, BucketAt, Living;
    if back <= BucketTtl(c) {
      forall ticks: seq<Tick> | ticks != [] && Tolerated(ticks[0].nowMs, TimesOf(ticks), back)
        ensures BucketAt(SpaceAfter(map[], c, key, ticks), key).lastRefillMs == Latest(ticks[0].nowMs, TimesOf(ticks))
      {
        FromNothing(c, key, ticks, back);
      }
    } else {
      var ticks := ExpiryRewinds(c, key, 0, back);
      assert Tolerated(ticks[0].nowMs, TimesOf(ticks), back);
    }
  }
}
