/** What the numbers in an answer mean: `remaining`, `reset_at_ms` and `retry_after_ms` are exact
  * for all three algorithms. The reference is `Quota`, the number of requests that a state would
  * still let through at a given instant. */
module Answers {
  import opened Arith
  import opened Limiters
  import opened SlidingLogRuns
  import opened TokenBucketRuns

  /** What holds of a stored state whose last request was at `at`. */
  ghost predicate Reached(c: Config, s: State, at: int)
    requires c.Valid() && Fits(c, s)
  {
    match s
    case Fresh => true
    case FixedState(f) => f.windowStartMs == WindowStart(at, c.WindowMs()) && 0 <= f.count <= c.limit
    case LogState(events) =>
      NonDecreasing(events) && |events| <= c.limit && (events != [] ==> events[|events| - 1] <= at)
    case BucketState(b) => b.lastRefillMs == at && 0 <= b.tokens <= Full(c)
  }

  function FixedCount(c: Config, s: State, t: int): int
    requires c.FixedWindowConfig? && c.Valid() && Fits(c, s)
  {
    FixedWindowCurrent(t, if s.Fresh? then None else Some(s.fixed), c.WindowMs()).count
  }

  /** How many requests at instant t would be let through from state s. */
  function Quota(c: Config, s: State, t: int): int
    requires c.Valid() && Fits(c, s)
  {
    match c
    case FixedWindowConfig(limit, _) => limit - FixedCount(c, s, t)
    case SlidingLogConfig(limit, _) => limit - |Recent(c, s, t)|
    case TokenBucketConfig(_, _, _) => Available(c, s, t) / c.WindowMs()
  }

  // ----- reached states -----

  lemma AvailableInRange(c: Config, s: State, at: int, t: int)
    requires c.TokenBucketConfig? && c.Valid() && Fits(c, s) && Reached(c, s, at)
    ensures 0 <= Available(c, s, t) <= Full(c)
  {
    FullHoldsOneRequest(c);
    if s.BucketState? {
      MulMono(0, Max(0, t - s.bucket.lastRefillMs), c.rate);
    }
  }

  lemma RecentInRange(c: Config, s: State, at: int, t: int)
    requires c.SlidingLogConfig? && c.Valid() && Fits(c, s) && Reached(c, s, at) && (s.Fresh? || at <= t)
    ensures var recent := Recent(c, s, t);
            && NonDecreasing(recent) && |recent| <= c.limit
            && (recent != [] ==> t - c.WindowMs() < recent[0] && recent[|recent| - 1] <= t)
  {
    ActiveRange(if s.Fresh? then [] else s.events, t - c.WindowMs(), t);
  }

  lemma ActiveRange(events: seq<int>, cutoff: int, t: int)
    requires NonDecreasing(events) && (events != [] ==> events[|events| - 1] <= t)
    ensures var active := ActiveEvents(events, cutoff);
            && NonDecreasing(active) && |active| <= |events|
            && (active != [] ==> cutoff < active[0] && active[|active| - 1] <= t)
  {
    ActiveKeeps(events, cutoff);
    var active := ActiveEvents(events, cutoff);
    if active != [] {
      assert active[0] in active && active[|active| - 1] in active;
      AllUpToLast(events);
    }
  }

  lemma NextReached(c: Config, s: State, at: int, now: int)
    requires c.Valid() && Fits(c, s) && Reached(c, s, at) && (s.Fresh? || at <= now)
    ensures Reached(c, Next(c, s, now), now)
  {
    match c {
      case FixedWindowConfig(_, _) =>
      case SlidingLogConfig(_, _) =>
        RecentInRange(c, s, at, now);
        LogStep(c, s, now);
        NonDecreasingSnoc(Recent(c, s, now), now);
      case TokenBucketConfig(_, _, _) =>
        AvailableInRange(c, s, at, now);
        BucketStep(c, s, now);
    }
  }

  lemma {:induction false} AfterReached(c: Config, times: seq<int>)
    requires c.Valid() && NonDecreasing(times)
    ensures Reached(c, After(c, times), if times == [] then 0 else times[|times| - 1])
  {
    if times != [] {
      var before, now := times[..|times| - 1], times[|times| - 1];
      assert times == before + [now];
      NonDecreasingSnoc(before, now);
      AfterReached(c, before);
      NextReached(c, After(c, before), if before == [] then 0 else before[|before| - 1], now);
    }
  }

  // ----- quota -----

  lemma DivPositive(a: int, b: int)
    requires b > 0 && a >= 0
    ensures a / b >= 0 && (a / b > 0 <==> a >= b)
    ensures a >= b ==> (a - b) / b == a / b - 1
  {
    var q := a / b;
    assert q * b <= a < q * b + b;
    if a >= b {
      assert (q - 1) * b == q * b - b;
      DivIs(a - b, b, q - 1);
    } else {
      DivIs(a, b, 0);
    }
  }

  lemma QuotaDecides(c: Config, s: State, at: int, t: int)
    requires c.Valid() && Fits(c, s) && Reached(c, s, at) && (s.Fresh? || at <= t)
    ensures Quota(c, s, t) >= 0 && (Admits(c, s, t) <==> Quota(c, s, t) > 0)
  {
    match c {
      case FixedWindowConfig(_, _) =>
      case SlidingLogConfig(_, _) =>
        RecentInRange(c, s, at, t);
        LogStep(c, s, t);
      case TokenBucketConfig(_, _, _) =>
        AvailableInRange(c, s, at, t);
        BucketStep(c, s, t);
        DivPositive(Available(c, s, t), c.WindowMs());
    }
  }

  /** Between a request at p and a later instant t, the request takes one off the quota of p's
    * instant if it is admitted, and a denied one takes nothing off the quota at any later t. */
  lemma QuotaAfter(c: Config, s: State, at: int, p: int, t: int)
    requires c.Valid() && Fits(c, s) && Reached(c, s, at) && (s.Fresh? || at <= p) && p <= t
    ensures p == t && Admits(c, s, p) ==> Quota(c, Next(c, s, p), t) == Quota(c, s, t) - 1
    ensures !Admits(c, s, p) ==> Quota(c, Next(c, s, p), t) == Quota(c, s, t)
  {
    match c {
      case FixedWindowConfig(_, _) =>
        FixedQuotaAfter(c, s, at, p, t);
      case SlidingLogConfig(_, _) =>
        LogQuotaAfter(c, s, at, p, t);
      case TokenBucketConfig(_, _, _) =>
        BucketQuotaAfter(c, s, at, p, t);
    }
  }

  lemma FixedQuotaAfter(c: Config, s: State, at: int, p: int, t: int)
    requires c.FixedWindowConfig? && c.Valid() && Fits(c, s) && Reached(c, s, at) && (s.Fresh? || at <= p) && p <= t
    ensures p == t && Admits(c, s, p) ==> Quota(c, Next(c, s, p), t) == Quota(c, s, t) - 1
    ensures !Admits(c, s, p) ==> Quota(c, Next(c, s, p), t) == Quota(c, s, t)
  {
  }

  lemma LogQuotaAfter(c: Config, s: State, at: int, p: int, t: int)
    requires c.SlidingLogConfig? && c.Valid() && Fits(c, s) && Reached(c, s, at) && (s.Fresh? || at <= p) && p <= t
    ensures p == t && Admits(c, s, p) ==> Quota(c, Next(c, s, p), t) == Quota(c, s, t) - 1
    ensures !Admits(c, s, p) ==> Quota(c, Next(c, s, p), t) == Quota(c, s, t)
  {
    hide Admits, Next;
    LogStep(c, s, p);
    NextRecent(c, s, p, t);
  }

  /** What counts at t of the list that a request at p leaves. */
  lemma NextRecent(c: Config, s: State, p: int, t: int)
    requires c.SlidingLogConfig? && c.Valid() && Fits(c, s) && p <= t
    ensures Recent(c, Next(c, s, p), t) ==
            if Admits(c, s, p) && p > t - c.WindowMs() then Recent(c, s, t) + [p] else Recent(c, s, t)
  {
    hide Admits, Next, ActiveEvents;
    LogStep(c, s, p);
    ActiveOfActive(if s.Fresh? then [] else s.events, p - c.WindowMs(), t - c.WindowMs());
    ActiveSnoc(Recent(c, s, p), p, t - c.WindowMs());
  }

  lemma RefillTwice(tokens: int, a: int, b: int, rate: int, full: int)
    requires tokens <= full && a >= 0 && b >= 0 && rate >= 0
    ensures Refill(Refill(tokens, a, rate, full), b, rate, full) == Refill(tokens, a + b, rate, full)
  {
    MulMono(0, a, rate);
    MulMono(0, b, rate);
    Distribute(a, b, rate);
  }

  /** Looking at the bucket at p without taking anything does not change what is there at t. */
  lemma AvailableLater(c: Config, s: State, at: int, p: int, t: int)
    requires c.TokenBucketConfig? && c.Valid() && Fits(c, s) && Reached(c, s, at) && (s.Fresh? || at <= p) && p <= t
    ensures Available(c, BucketState(TokenBucket(Available(c, s, p), p)), t) == Available(c, s, t)
  {
    MulMono(0, t - p, c.rate);
    if s.BucketState? {
      RefillTwice(s.bucket.tokens, p - at, t - p, c.rate, Full(c));
    }
  }

  lemma BucketQuotaAfter(c: Config, s: State, at: int, p: int, t: int)
    requires c.TokenBucketConfig? && c.Valid() && Fits(c, s) && Reached(c, s, at) && (s.Fresh? || at <= p) && p <= t
    ensures p == t && Admits(c, s, p) ==> Quota(c, Next(c, s, p), t) == Quota(c, s, t) - 1
    ensures !Admits(c, s, p) ==> Quota(c, Next(c, s, p), t) == Quota(c, s, t)
  {
    BucketStep(c, s, p);
    AvailableInRange(c, s, at, p);
    if Admits(c, s, p) {
      DivPositive(Available(c, s, p), c.WindowMs());
      assert (t - p) * c.rate >= 0 by { MulMono(0, t - p, c.rate); }
    } else {
      AvailableLater(c, s, at, p, t);
    }
  }

  // ----- remaining -----

  lemma RemainingIsQuota(c: Config, s: State, at: int, now: int)
    requires c.Valid() && Fits(c, s) && Reached(c, s, at) && (s.Fresh? || at <= now)
    ensures Step(c, s, now).1.remaining == Quota(c, Next(c, s, now), now)
  {
    QuotaDecides(c, s, at, now);
    QuotaAfter(c, s, at, now, now);
    StepHalves(c, s, now);
    NextReached(c, s, at, now);
    QuotaDecides(c, Next(c, s, now), now, now);
    match c {
      case FixedWindowConfig(_, _) =>
      case SlidingLogConfig(_, _) =>
        LogRemaining(c, s, at, now);
      case TokenBucketConfig(_, _, _) =>
        BucketStep(c, s, now);
        AvailableInRange(c, Next(c, s, now), now, now);
    }
  }

  lemma LogAnswer(c: Config, s: State, now: int)
    requires c.SlidingLogConfig? && c.Valid() && Fits(c, s)
    ensures var d, events := Step(c, s, now).1, Next(c, s, now).events;
            && d.remaining == Max(0, c.limit - |events|)
            && d.resetAtMs == (if events != [] then events[0] else now) + c.WindowMs()
            && d.retryAfterMs == Max(0, d.resetAtMs - now)
  {
    StepHalves(c, s, now);
  }

  lemma AllActive(events: seq<int>, cutoff: int, now: int)
    requires NonDecreasing(events) && events != [] && cutoff < events[0] && events[|events| - 1] <= now
    ensures ActiveEvents(events, cutoff) == events && events[0] <= now
  {
    ActiveKeeps(events, cutoff);
    NonDecreasingAt(events, 0, |events| - 1);
  }

  /** Everything stored by a request lies in the window that ends with it. */
  lemma NextAllRecent(c: Config, s: State, at: int, now: int)
    requires c.SlidingLogConfig? && c.Valid() && Fits(c, s) && Reached(c, s, at) && (s.Fresh? || at <= now)
    ensures var events := Next(c, s, now).events;
            && Recent(c, Next(c, s, now), now) == events && |events| <= c.limit
            && events != [] && NonDecreasing(events) && now - c.WindowMs() < events[0] <= now
  {
    hide Admits, Next, ActiveEvents, NonDecreasing, Reached;
    LogStep(c, s, now);
    RecentInRange(c, s, at, now);
    var recent := Recent(c, s, now);
    if Admits(c, s, now) {
      NonDecreasingSnoc(recent, now);
      AllActive(recent + [now], now - c.WindowMs(), now);
    } else {
      AllActive(recent, now - c.WindowMs(), now);
    }
  }

  lemma LogRemaining(c: Config, s: State, at: int, now: int)
    requires c.SlidingLogConfig? && c.Valid() && Fits(c, s) && Reached(c, s, at) && (s.Fresh? || at <= now)
    ensures Step(c, s, now).1.remaining == c.limit - |Recent(c, Next(c, s, now), now)|
  {
    LogAnswer(c, s, now);
    NextAllRecent(c, s, at, now);
  }

  lemma BeforeAndAfter(c: Config, times: seq<int>, now: int) returns (at: int)
    requires c.Valid() && NonDecreasing(times + [now])
    ensures Reached(c, After(c, times), at) && (After(c, times).Fresh? || at <= now)
    ensures After(c, times + [now]) == Next(c, After(c, times), now)
    ensures Reached(c, After(c, times + [now]), now)
  {
    at := if times == [] then 0 else times[|times| - 1];
    NonDecreasingSnoc(times, now);
    AfterReached(c, times);
    AfterSnoc(c, times, now);
    NextReached(c, After(c, times), at, now);
  }

  lemma RemainingOfDecide(c: Config, times: seq<int>, now: int)
    requires c.Valid() && NonDecreasing(times + [now])
    ensures Decide(c, times, now).remaining == Quota(c, After(c, times + [now]), now) >= 0
  {
    var at := BeforeAndAfter(c, times, now);
    RemainingIsQuota(c, After(c, times), at, now);
    QuotaDecides(c, After(c, times + [now]), now, now);
  }

  /** `remaining` is exact: of any number of further requests at the same instant, precisely the
    * first `remaining` are let through. */
  lemma RemainingIsExact(c: Config, times: seq<int>, now: int, k: nat)
    requires c.Valid() && NonDecreasing(times + [now])
    ensures Allows(c, times + [now] + Copies(now, k), now) <==> k < Decide(c, times, now).remaining
  {
    RemainingOfDecide(c, times, now);
    QuotaOfBurst(c, times + [now], now, k);
  }

  lemma {:induction false} QuotaOfBurst(c: Config, history: seq<int>, now: int, k: nat)
    requires c.Valid() && NonDecreasing(history) && history != [] && history[|history| - 1] == now
    ensures var s := After(c, history + Copies(now, k));
            && Reached(c, s, now)
            && Quota(c, s, now) == Max(0, Quota(c, After(c, history), now) - k)
            && (Admits(c, s, now) <==> Quota(c, s, now) > 0)
  {
    hide Admits, Next, Quota, Reached;
    if k == 0 {
      assert history + Copies(now, 0) == history;
      AfterReached(c, history);
      QuotaDecides(c, After(c, history), now, now);
    } else {
      QuotaOfBurst(c, history, now, k - 1);
      var before := history + Copies(now, k - 1);
      assert history + Copies(now, k) == before + [now];
      BurstSnoc(c, before, now);
    }
  }

  lemma BurstSnoc(c: Config, before: seq<int>, now: int)
    requires c.Valid() && Reached(c, After(c, before), now)
    ensures var (s, s') := (After(c, before), After(c, before + [now]));
            && Reached(c, s', now)
            && Quota(c, s', now) == Max(0, Quota(c, s, now) - 1)
            && (Admits(c, s', now) <==> Quota(c, s', now) > 0)
  {
    var s := After(c, before);
    AfterSnoc(c, before, now);
    QuotaDecides(c, s, now, now);
    QuotaAfter(c, s, now, now, now);
    NextReached(c, s, now, now);
    QuotaDecides(c, Next(c, s, now), now, now);
  }

  /** How many requests a key that has seen none lets in at once. */
  function BurstSize(c: Config): int {
    match c
    case FixedWindowConfig(limit, _) => limit
    case SlidingLogConfig(limit, _) => limit
    case TokenBucketConfig(capacity, _, _) => capacity
  }

  lemma FreshQuota(c: Config, now: int)
    requires c.Valid()
    ensures Quota(c, Fresh, now) == BurstSize(c) && (Admits(c, Fresh, now) <==> Quota(c, Fresh, now) > 0)
  {
    QuotaDecides(c, Fresh, now, now);
    if c.TokenBucketConfig? {
      DivIs(Full(c), c.WindowMs(), c.capacity);
    }
  }

  /** Of a burst on a fresh key, exactly the first `BurstSize` requests are let in. */
  lemma {:induction false} FreshBurst(c: Config, now: int, k: nat)
    requires c.Valid()
    ensures var s := After(c, Copies(now, k));
            && Reached(c, s, now) && Quota(c, s, now) == Max(0, BurstSize(c) - k)
            && (Admits(c, s, now) <==> Quota(c, s, now) > 0)
    ensures |Admitted(c, Copies(now, k))| == Min(k, BurstSize(c))
  {
    hide Admits, Next, Quota;
    if k == 0 {
      FreshQuota(c, now);
      assert Copies(now, 0) == [];
    } else {
      FreshBurst(c, now, k - 1);
      var before := Copies(now, k - 1);
      assert Copies(now, k) == before + [now];
      BurstSnoc(c, before, now);
      AfterSnoc(c, before, now);
    }
  }

  // ----- retry_after_ms -----

  lemma RetryFixed(c: Config, s: State, at: int, now: int, t: int)
    requires c.FixedWindowConfig? && c.Valid() && Fits(c, s) && Reached(c, s, at) && (s.Fresh? || at <= now) && now <= t
    requires !Admits(c, s, now)
    ensures Step(c, s, now).1.retryAfterMs > 0
    ensures Quota(c, Next(c, s, now), t) > 0 <==> t >= now + Step(c, s, now).1.retryAfterMs
  {
    var w := c.WindowMs();
    var start := WindowStart(now, w);
    WindowStartsAligned(now, w);
    SameWindow(start, t, w);
    assert Step(c, s, now).1.retryAfterMs == start + w - now;
    assert Next(c, s, now).fixed.windowStartMs == start;
  }

  lemma RetryLog(c: Config, s: State, at: int, now: int, t: int)
    requires c.SlidingLogConfig? && c.Valid() && Fits(c, s) && Reached(c, s, at) && (s.Fresh? || at <= now) && now <= t
    requires !Admits(c, s, now)
    ensures Step(c, s, now).1.retryAfterMs > 0
    ensures Quota(c, Next(c, s, now), t) > 0 <==> t >= now + Step(c, s, now).1.retryAfterMs
  {
    hide Admits, Next, Step, Reached, ActiveEvents, NonDecreasing;
    LogAnswer(c, s, now);
    NextAllRecent(c, s, at, now);
    LogStep(c, s, now);
    FullListReopens(Next(c, s, now).events, t - c.WindowMs());
  }

  lemma FullListReopens(events: seq<int>, cutoff: int)
    requires NonDecreasing(events) && events != []
    ensures |ActiveEvents(events, cutoff)| < |events| <==> events[0] <= cutoff
  {
    ActiveKeeps(events, cutoff);
  }

  lemma RetryBucket(c: Config, s: State, at: int, now: int, t: int)
    requires c.TokenBucketConfig? && c.Valid() && Fits(c, s) && Reached(c, s, at) && (s.Fresh? || at <= now) && now <= t
    requires !Admits(c, s, now)
    ensures Step(c, s, now).1.retryAfterMs > 0
    ensures Quota(c, Next(c, s, now), t) > 0 <==> t >= now + Step(c, s, now).1.retryAfterMs
  {
    BucketStep(c, s, now);
    FullHoldsOneRequest(c);
    AvailableInRange(c, s, at, now);
    var left := Available(c, s, now);
    BucketAnswer(c, s, now);
    var retry := Step(c, s, now).1.retryAfterMs;
    assert retry == CeilDiv(c.WindowMs() - left, c.rate);
    CeilDivLeast(c.WindowMs() - left, c.rate, t - now);
    CeilDivLeast(c.WindowMs() - left, c.rate, 0);
    AvailableInRange(c, Next(c, s, now), now, t);
    DivPositive(Available(c, Next(c, s, now), t), c.WindowMs());
  }

  lemma BucketAnswer(c: Config, s: State, now: int)
    requires c.TokenBucketConfig? && c.Valid() && Fits(c, s)
    ensures var (d, left) := (Step(c, s, now).1, Next(c, s, now).bucket.tokens);
            && d.resetAtMs == now + Max(0, CeilDiv(Full(c) - left, c.rate))
            && (!d.allowed ==> d.retryAfterMs == CeilDiv(Max(0, c.WindowMs() - left), c.rate))
  {
    StepHalves(c, s, now);
  }

  lemma RetryOfStep(c: Config, s: State, at: int, now: int, t: int)
    requires c.Valid() && Fits(c, s) && Reached(c, s, at) && (s.Fresh? || at <= now) && now <= t
    requires !Admits(c, s, now)
    ensures Step(c, s, now).1.retryAfterMs > 0
    ensures Quota(c, Next(c, s, now), t) > 0 <==> t >= now + Step(c, s, now).1.retryAfterMs
  {
    match c {
      case FixedWindowConfig(_, _) => RetryFixed(c, s, at, now, t);
      case SlidingLogConfig(_, _) => RetryLog(c, s, at, now, t);
      case TokenBucketConfig(_, _, _) => RetryBucket(c, s, at, now, t);
    }
  }

  /** Denied probes in between change nothing: the quota at a later instant is what the first denial
    * left of it, and every probe before that quota returns is denied as well. */
  lemma {:induction false} QuotaThroughProbes(c: Config, history: seq<int>, probes: seq<int>, t: int)
    requires c.Valid() && history != [] && NonDecreasing(history + probes + [t])
    requires forall p :: p in probes ==> Quota(c, After(c, history), p) <= 0
    ensures Quota(c, After(c, history + probes), t) == Quota(c, After(c, history), t)
    ensures Allows(c, history + probes, t) <==> Quota(c, After(c, history), t) > 0
  {
    hide Admits, Next, Quota, Reached;
    var all := history + probes;
    NonDecreasingSnoc(all, t);
    AfterReached(c, all);
    if probes == [] {
      assert all == history;
    } else {
      var earlier, p := probes[..|probes| - 1], probes[|probes| - 1];
      assert all == history + earlier + [p];
      assert p in probes && forall q :: q in earlier ==> q in probes;
      NonDecreasingSnoc(history + earlier, p);
      QuotaThroughProbes(c, history, earlier, p);
      NonDecreasingSnoc(history + earlier, t);
      QuotaThroughProbes(c, history, earlier, t);
      AfterReached(c, history + earlier);
      AfterSnoc(c, history + earlier, p);
      var last := (history + earlier)[|history + earlier| - 1];
      QuotaAfter(c, After(c, history + earlier), last, p, t);
    }
    QuotaDecides(c, After(c, all), all[|all| - 1], t);
  }

  lemma RetryOfDecide(c: Config, times: seq<int>, now: int, t: int)
    requires c.Valid() && NonDecreasing(times + [now]) && now <= t
    requires !Decide(c, times, now).allowed
    ensures Decide(c, times, now).retryAfterMs > 0
    ensures Quota(c, After(c, times + [now]), t) > 0 <==> t >= now + Decide(c, times, now).retryAfterMs
  {
    var at := BeforeAndAfter(c, times, now);
    RetryOfStep(c, After(c, times), at, now, t);
  }

  /** `retry_after_ms` is exact: after a denial, and any number of probes before the announced
    * instant, a request is let through precisely from that instant on. */
  lemma RetryAfterIsExact(c: Config, times: seq<int>, now: int, probes: seq<int>, t: int)
    requires c.Valid() && NonDecreasing(times + [now] + probes + [t])
    requires !Decide(c, times, now).allowed
    requires forall p :: p in probes ==> p < now + Decide(c, times, now).retryAfterMs
    ensures Decide(c, times, now).retryAfterMs > 0
    ensures Allows(c, times + [now] + probes, t) <==> t >= now + Decide(c, times, now).retryAfterMs
  {
    var history := times + [now];
    assert history + (probes + [t]) == history + probes + [t];
    PrefixNonDecreasing(history, probes + [t]);
    NotBefore(history, probes + [t]);
    forall p | p in probes
      ensures Quota(c, After(c, history), p) <= 0
    {
      assert p in probes + [t];
      RetryOfDecide(c, times, now, p);
    }
    assert t in probes + [t];
    RetryOfDecide(c, times, now, t);
    QuotaThroughProbes(c, history, probes, t);
  }

  lemma NotBefore(s: seq<int>, t: seq<int>)
    requires s != [] && NonDecreasing(s + t)
    ensures forall x :: x in t ==> x >= s[|s| - 1]
  {
    forall x | x in t ensures x >= s[|s| - 1] {
      var i :| 0 <= i < |t| && t[i] == x;
      NonDecreasingAt(s + t, |s| - 1, |s| + i);
    }
  }

  // ----- reset_at_ms -----

  /** None of the probes after `history` is let through. */
  ghost predicate Denied(c: Config, history: seq<int>, probes: seq<int>)
    requires c.Valid()
  {
    probes == [] || (
      var earlier, p := probes[..|probes| - 1], probes[|probes| - 1];
      Denied(c, history, earlier) && !Allows(c, history + earlier, p))
  }

  /** What is there at instant t: requests, or, of a bucket, tokens to the unit. */
  function Level(c: Config, s: State, t: int): int
    requires c.Valid() && Fits(c, s)
  {
    if c.TokenBucketConfig? then Available(c, s, t) else Quota(c, s, t)
  }

  lemma LevelAfterDenial(c: Config, s: State, at: int, p: int, t: int)
    requires c.Valid() && Fits(c, s) && Reached(c, s, at) && (s.Fresh? || at <= p) && p <= t && !Admits(c, s, p)
    ensures Level(c, Next(c, s, p), t) == Level(c, s, t)
  {
    hide Admits, Next;
    if c.TokenBucketConfig? {
      BucketStep(c, s, p);
      AvailableLater(c, s, at, p, t);
    } else {
      QuotaAfter(c, s, at, p, t);
    }
  }

  lemma {:induction false} LevelThroughDenials(c: Config, history: seq<int>, probes: seq<int>, t: int)
    requires c.Valid() && history != [] && NonDecreasing(history + probes + [t]) && Denied(c, history, probes)
    ensures Level(c, After(c, history + probes), t) == Level(c, After(c, history), t)
  {
    hide Admits, Next, Level, Reached, After;
    NonDecreasingSnoc(history + probes, t);
    if probes == [] {
      assert history + probes == history;
    } else {
      var earlier, p := probes[..|probes| - 1], probes[|probes| - 1];
      assert history + probes == history + earlier + [p];
      NonDecreasingSnoc(history + earlier, p);
      NonDecreasingSnoc(history + earlier, t);
      LevelThroughDenials(c, history, earlier, t);
      AfterReached(c, history + earlier);
      AfterSnoc(c, history + earlier, p);
      LevelAfterDenial(c, After(c, history + earlier), (history + earlier)[|history + earlier| - 1], p, t);
    }
  }

  /** The `Retry-After` header, in whole seconds, is always late enough, through any number of denied
    * probes. */
  lemma RetryHeaderSuffices(c: Config, times: seq<int>, now: int, probes: seq<int>, t: int)
    requires c.Valid() && NonDecreasing(times + [now] + probes + [t]) && !Decide(c, times, now).allowed
    requires Denied(c, times + [now], probes)
    requires t >= now + CeilDiv(Decide(c, times, now).retryAfterMs, 1000) * 1000
    ensures Allows(c, times + [now] + probes, t)
  {
    hide Admits, After, Quota, Step, Decide, Denied;
    var history := times + [now];
    assert history + (probes + [t]) == history + probes + [t];
    PrefixNonDecreasing(history, probes + [t]);
    NotBefore(history, probes + [t]);
    assert t in probes + [t];
    RetryOfDecide(c, times, now, t);
    AllowsThroughDenials(c, history, probes, t);
  }

  lemma AllowsThroughDenials(c: Config, history: seq<int>, probes: seq<int>, t: int)
    requires c.Valid() && history != [] && NonDecreasing(history + probes + [t]) && Denied(c, history, probes)
    ensures Allows(c, history + probes, t) <==> Quota(c, After(c, history), t) > 0
  {
    hide Admits, After, Quota, Denied, Level, Reached;
    LevelThroughDenials(c, history, probes, t);
    NonDecreasingSnoc(history + probes, t);
    AfterReached(c, history + probes);
    QuotaDecides(c, After(c, history + probes), (history + probes)[|history + probes| - 1], t);
    LevelIsQuota(c, After(c, history + probes), After(c, history), t);
  }

  lemma LevelIsQuota(c: Config, s: State, s': State, t: int)
    requires c.Valid() && Fits(c, s) && Fits(c, s') && Level(c, s, t) == Level(c, s', t)
    ensures Quota(c, s, t) == Quota(c, s', t)
  {
  }

  /** `reset_at_ms` is exact: with nothing more let in, and any number of denied probes, then and
    * not a millisecond earlier the fixed window has its whole limit back, the sliding log has more
    * room than at first, and the bucket is full. */
  lemma ResetIsExact(c: Config, times: seq<int>, now: int, probes: seq<int>, t: int)
    requires c.Valid() && NonDecreasing(times + [now] + probes + [t]) && Denied(c, times + [now], probes)
    ensures var (first, s) := (After(c, times + [now]), After(c, times + [now] + probes));
            var reset := Decide(c, times, now).resetAtMs;
            match c
            case FixedWindowConfig(limit, _) => Quota(c, s, t) == limit <==> t >= reset
            case SlidingLogConfig(_, _) => Quota(c, s, t) > Quota(c, first, now) <==> t >= reset
            case TokenBucketConfig(_, _, _) => Available(c, s, t) == Full(c) <==> t >= reset
  {
    hide Admits, Next, Quota, Available, Step;
    var history := times + [now];
    assert history + (probes + [t]) == history + probes + [t];
    PrefixNonDecreasing(history, probes + [t]);
    NotBefore(history, probes + [t]);
    assert t in probes + [t];
    LevelThroughDenials(c, history, probes, t);
    ResetAlone(c, times, now, t);
  }

  lemma ResetAlone(c: Config, times: seq<int>, now: int, t: int)
    requires c.Valid() && NonDecreasing(times + [now]) && t >= now
    ensures var (s, reset) := (After(c, times + [now]), Decide(c, times, now).resetAtMs);
            match c
            case FixedWindowConfig(limit, _) => Quota(c, s, t) == limit <==> t >= reset
            case SlidingLogConfig(_, _) => Quota(c, s, t) > Quota(c, s, now) <==> t >= reset
            case TokenBucketConfig(_, _, _) => Available(c, s, t) == Full(c) <==> t >= reset
  {
    var at := BeforeAndAfter(c, times, now);
    match c {
      case FixedWindowConfig(_, _) => ResetFixed(c, After(c, times), at, now, t);
      case SlidingLogConfig(_, _) => ResetLog(c, After(c, times), at, now, t);
      case TokenBucketConfig(_, _, _) => ResetBucket(c, After(c, times), at, now, t);
    }
  }

  lemma ResetFixed(c: Config, s: State, at: int, now: int, t: int)
    requires c.FixedWindowConfig? && c.Valid() && Fits(c, s) && Reached(c, s, at) && (s.Fresh? || at <= now) && now <= t
    ensures Quota(c, Next(c, s, now), t) == c.limit <==> t >= Step(c, s, now).1.resetAtMs
  {
    var w := c.WindowMs();
    var start := WindowStart(now, w);
    WindowStartsAligned(now, w);
    SameWindow(start, t, w);
    assert Step(c, s, now).1.resetAtMs == start + w;
    assert Next(c, s, now).fixed.windowStartMs == start && Next(c, s, now).fixed.count >= 1;
  }

  lemma ResetLog(c: Config, s: State, at: int, now: int, t: int)
    requires c.SlidingLogConfig? && c.Valid() && Fits(c, s) && Reached(c, s, at) && (s.Fresh? || at <= now) && now <= t
    ensures Quota(c, Next(c, s, now), t) > Quota(c, Next(c, s, now), now) <==> t >= Step(c, s, now).1.resetAtMs
  {
    LogAnswer(c, s, now);
    NextAllRecent(c, s, at, now);
    ActiveKeeps(Next(c, s, now).events, t - c.WindowMs());
  }

  lemma ResetBucket(c: Config, s: State, at: int, now: int, t: int)
    requires c.TokenBucketConfig? && c.Valid() && Fits(c, s) && Reached(c, s, at) && (s.Fresh? || at <= now) && now <= t
    ensures Available(c, Next(c, s, now), t) == Full(c) <==> t >= Step(c, s, now).1.resetAtMs
  {
    BucketAnswer(c, s, now);
    NextReached(c, s, at, now);
    var left := Next(c, s, now).bucket.tokens;
    CeilDivLeast(Full(c) - left, c.rate, t - now);
    CeilDivLeast(Full(c) - left, c.rate, 0);
    MulMono(0, t - now, c.rate);
  }
}
