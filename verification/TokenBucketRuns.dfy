/** What the token bucket guarantees over whole runs. */
module TokenBucketRuns {
  import opened Arith
  import opened Limiters

  function Full(c: Config): int
    requires c.TokenBucketConfig?
  {
    c.capacity * c.WindowMs()
  }

  lemma FullHoldsOneRequest(c: Config)
    requires c.TokenBucketConfig? && c.Valid()
    ensures Full(c) >= c.WindowMs() > 0
  {
    MulMono(1, c.capacity, c.WindowMs());
  }

  /** What a request at `now` finds in the bucket. */
  function Available(c: Config, s: State, now: int): int
    requires c.TokenBucketConfig? && Fits(c, s)
  {
    TokenBucketAvailable(now, if s.Fresh? then None else Some(s.bucket), Full(c), c.rate)
  }

  function Paid(c: Config, pays: bool): int {
    if pays then c.WindowMs() else 0
  }

  lemma BucketStep(c: Config, s: State, now: int)
    requires c.TokenBucketConfig? && c.Valid() && Fits(c, s)
    ensures Admits(c, s, now) <==> Available(c, s, now) >= c.WindowMs()
    ensures Next(c, s, now) ==
            BucketState(TokenBucket(Available(c, s, now) - Paid(c, Admits(c, s, now)), now))
  {
  }

  function Tokens(c: Config, times: seq<int>): int
    requires c.TokenBucketConfig? && c.Valid() && times != []
  {
    After(c, times).bucket.tokens
  }

  lemma TokensSnoc(c: Config, before: seq<int>, now: int)
    requires c.TokenBucketConfig? && c.Valid()
    ensures Tokens(c, before + [now]) ==
            Available(c, After(c, before), now) - Paid(c, Allows(c, before, now))
    ensures Allows(c, before, now) <==> Available(c, After(c, before), now) >= c.WindowMs()
    ensures After(c, before + [now]).bucket.lastRefillMs == now
  {
    AfterSnoc(c, before, now);
    BucketStep(c, After(c, before), now);
  }

  lemma {:induction false} BucketStateAfter(c: Config, times: seq<int>)
    requires c.TokenBucketConfig? && c.Valid() && times != []
    ensures After(c, times).bucket.lastRefillMs == times[|times| - 1]
    ensures 0 <= Tokens(c, times) <= Full(c)
  {
    var before, now := times[..|times| - 1], times[|times| - 1];
    assert times == before + [now];
    TokensSnoc(c, before, now);
    FullHoldsOneRequest(c);
    if before != [] {
      BucketStateAfter(c, before);
      MulMono(0, Max(0, now - before[|before| - 1]), c.rate);
    }
  }

  /** What the admitted requests of the run `times`, from its request number j on, add up to. */
  function SpentFrom(c: Config, times: seq<int>, j: nat): int
    requires c.Valid() && j <= |times|
  {
    (|Admitted(c, times)| - |Admitted(c, times[..j])|) * c.WindowMs()
  }

  /** The bucket level if it had been full when request j arrived and never overflowed since. */
  function LevelFrom(c: Config, times: seq<int>, j: nat): int
    requires c.TokenBucketConfig? && c.Valid() && j < |times|
  {
    Full(c) + (times[|times| - 1] - times[j]) * c.rate - SpentFrom(c, times, j)
  }

  lemma Distribute(a: int, b: int, n: int)
    ensures (a + b) * n == a * n + b * n
  {
  }

  lemma SpentMore(a: int, b: int, pays: bool, n: int)
    ensures (a + (if pays then 1 else 0) - b) * n == (a - b) * n + (if pays then n else 0)
  {
  }

  lemma AdmittedSizes(c: Config, before: seq<int>, now: int, j: nat)
    requires c.Valid() && j <= |before|
    ensures |Admitted(c, before + [now])| == |Admitted(c, before)| + (if Allows(c, before, now) then 1 else 0)
    ensures Admitted(c, (before + [now])[..j]) == Admitted(c, before[..j])
  {
    AfterSnoc(c, before, now);
    assert (before + [now])[..j] == before[..j];
  }

  lemma SpentFromSnoc(c: Config, before: seq<int>, now: int, j: nat)
    requires c.Valid() && j <= |before|
    ensures SpentFrom(c, before + [now], j) == SpentFrom(c, before, j) + Paid(c, Allows(c, before, now))
  {
    AdmittedSizes(c, before, now, j);
    var (n, m) := (|Admitted(c, before)|, |Admitted(c, before[..j])|);
    SpentMore(n, m, Allows(c, before, now), c.WindowMs());
    assert SpentFrom(c, before, j) == (n - m) * c.WindowMs();
  }

  lemma SpentFromEnd(c: Config, times: seq<int>)
    requires c.Valid()
    ensures SpentFrom(c, times, |times|) == 0
  {
    assert times[..|times|] == times;
  }

  lemma LevelFromSnoc(c: Config, before: seq<int>, now: int, j: nat)
    requires c.TokenBucketConfig? && c.Valid() && j < |before|
    ensures LevelFrom(c, before + [now], j) ==
            LevelFrom(c, before, j) + (now - before[|before| - 1]) * c.rate - Paid(c, Allows(c, before, now))
  {
    SpentFromSnoc(c, before, now, j);
    Distribute(now - before[|before| - 1], before[|before| - 1] - before[j], c.rate);
  }

  lemma LevelFromLast(c: Config, before: seq<int>, now: int)
    requires c.TokenBucketConfig? && c.Valid()
    ensures LevelFrom(c, before + [now], |before|) == Full(c) - Paid(c, Allows(c, before, now))
  {
    assert (now - now) * c.rate == 0;
    SpentFromSnoc(c, before, now, |before|);
    SpentFromEnd(c, before);
  }

  /** `best` attains the least level over the run's requests, and that level is the bucket's. */
  ghost predicate Least(c: Config, times: seq<int>, best: nat)
    requires c.TokenBucketConfig? && c.Valid() && best < |times|
  {
    && Tokens(c, times) == LevelFrom(c, times, best)
    && forall j: nat :: j < |times| ==> Tokens(c, times) <= LevelFrom(c, times, j)
  }

  /** Min-plus form of the bucket: its level is the least, over all earlier requests j, of the
    * level it would have had by starting full at j. */
  lemma {:induction false} MinPlus(c: Config, times: seq<int>) returns (best: nat)
    requires c.TokenBucketConfig? && c.Valid() && NonDecreasing(times) && times != []
    ensures best < |times| && Least(c, times, best)
  {
    var before, now := times[..|times| - 1], times[|times| - 1];
    assert times == before + [now];
    NonDecreasingSnoc(before, now);
    if before == [] {
      TokensSnoc(c, before, now);
      LevelFromLast(c, before, now);
      best := 0;
    } else {
      var earlier := MinPlus(c, before);
      best := MinPlusSnoc(c, before, now, earlier);
    }
  }

  lemma MinPlusSnoc(c: Config, before: seq<int>, now: int, earlier: nat) returns (best: nat)
    requires c.TokenBucketConfig? && c.Valid() && earlier < |before| && Least(c, before, earlier)
    requires before[|before| - 1] <= now
    ensures best <= |before| && Least(c, before + [now], best)
  {
    var last, cost := before[|before| - 1], Paid(c, Allows(c, before, now));
    var refill := (now - last) * c.rate;
    TokensSnoc(c, before, now);
    BucketStateAfter(c, before);
    assert Tokens(c, before + [now]) == Min(Full(c), Tokens(c, before) + refill) - cost;
    LevelFromLast(c, before, now);
    forall j: nat | j < |before|
      ensures LevelFrom(c, before + [now], j) == LevelFrom(c, before, j) + refill - cost
    {
      LevelFromSnoc(c, before, now, j);
    }
    best := if Full(c) <= Tokens(c, before) + refill then |before| else earlier;
  }

  /** Admitting a request at `now` would overdraw the interval that starts with request j. */
  ghost predicate Overdraws(c: Config, times: seq<int>, now: int, j: nat)
    requires c.TokenBucketConfig? && c.Valid() && j < |times|
  {
    SpentFrom(c, times, j) + c.WindowMs() > Full(c) + (now - times[j]) * c.rate
  }

  lemma AvailableAt(c: Config, times: seq<int>, now: int)
    requires c.TokenBucketConfig? && c.Valid() && times != [] && times[|times| - 1] <= now
    ensures Available(c, After(c, times), now) ==
            Min(Full(c), Tokens(c, times) + (now - times[|times| - 1]) * c.rate)
  {
    BucketStateAfter(c, times);
  }

  lemma OverdrawsByLevel(c: Config, times: seq<int>, now: int, j: nat)
    requires c.TokenBucketConfig? && c.Valid() && j < |times|
    ensures Overdraws(c, times, now, j) <==>
            LevelFrom(c, times, j) + (now - times[|times| - 1]) * c.rate < c.WindowMs()
  {
    Distribute(now - times[|times| - 1], times[|times| - 1] - times[j], c.rate);
  }

  /** A request is turned away exactly when letting it in would make some interval that ends now
    * exceed the burst capacity plus what is refilled over its length. */
  lemma DeniedExactlyWhenOverdrawn(c: Config, times: seq<int>, now: int)
    requires c.TokenBucketConfig? && c.Valid() && NonDecreasing(times + [now])
    ensures !Decide(c, times, now).allowed <==> exists j: nat :: j < |times| && Overdraws(c, times, now, j)
  {
    FullHoldsOneRequest(c);
    TokensSnoc(c, times, now);
    if times != [] {
      NonDecreasingSnoc(times, now);
      AvailableAt(c, times, now);
      var best := MinPlus(c, times);
      OverdrawsByLevel(c, times, now, best);
      if j: nat :| j < |times| && Overdraws(c, times, now, j) {
        OverdrawsByLevel(c, times, now, j);
      }
    }
  }

  /** Conformance: over any stretch of time, admissions cost at most a full bucket plus the refill. */
  lemma {:induction false} IntervalBound(c: Config, times: seq<int>, lo: int, hi: int)
    requires c.TokenBucketConfig? && c.Valid() && NonDecreasing(times) && lo < hi
    ensures CountIn(Admitted(c, times), lo, hi) * c.WindowMs() <= Full(c) + (hi - 1 - lo) * c.rate
    ensures times != [] && lo <= times[|times| - 1] < hi ==>
              CountIn(Admitted(c, times), lo, hi) * c.WindowMs() + Tokens(c, times)
              <= Full(c) + (times[|times| - 1] - lo) * c.rate
  {
    FullHoldsOneRequest(c);
    MulMono(0, hi - 1 - lo, c.rate);
    if times != [] {
      var before, now := times[..|times| - 1], times[|times| - 1];
      assert times == before + [now];
      NonDecreasingSnoc(before, now);
      IntervalBound(c, before, lo, hi);
      if lo <= now < hi {
        if before == [] || before[|before| - 1] < lo {
          NoneAdmittedFrom(c, before, lo, hi);
        }
        IntervalBoundSnoc(c, before, now, lo, hi);
        MulMono(now - lo, hi - 1 - lo, c.rate);
        BucketStateAfter(c, times);
      } else {
        AdmittedCountSnoc(c, before, now, lo, hi);
      }
    }
  }

  lemma NoneAdmittedFrom(c: Config, before: seq<int>, lo: int, hi: int)
    requires c.Valid() && NonDecreasing(before) && (before != [] ==> before[|before| - 1] < lo)
    ensures CountIn(Admitted(c, before), lo, hi) == 0
  {
    AdmittedFrom(c, before);
    if before != [] {
      AllUpToLast(before);
    }
    CountInNone(Admitted(c, before), lo, hi);
  }

  lemma IntervalBoundSnoc(c: Config, before: seq<int>, now: int, lo: int, hi: int)
    requires c.TokenBucketConfig? && c.Valid() && lo <= now < hi
    requires before != [] ==> before[|before| - 1] <= now
    requires before == [] || before[|before| - 1] < lo ==> CountIn(Admitted(c, before), lo, hi) == 0
    requires before != [] && lo <= before[|before| - 1] ==>
               CountIn(Admitted(c, before), lo, hi) * c.WindowMs() + Tokens(c, before)
               <= Full(c) + (before[|before| - 1] - lo) * c.rate
    ensures CountIn(Admitted(c, before + [now]), lo, hi) * c.WindowMs() + Tokens(c, before + [now])
            <= Full(c) + (now - lo) * c.rate
  {
    hide CountIn, Admitted, Admits, After, Tokens;
    AdmittedCountSnoc(c, before, now, lo, hi);
    TokensSnoc(c, before, now);
    MulMono(0, now - lo, c.rate);
    var n := CountIn(Admitted(c, before), lo, hi);
    var available := Available(c, After(c, before), now);
    if before != [] && lo <= before[|before| - 1] {
      AvailableAt(c, before, now);
      Distribute(now - before[|before| - 1], before[|before| - 1] - lo, c.rate);
    }
    assert n * c.WindowMs() + available <= Full(c) + (now - lo) * c.rate;
    PayOnce(n, c.WindowMs(), Allows(c, before, now), available);
  }

  lemma PayOnce(n: int, cost: int, pays: bool, available: int)
    ensures (n + if pays then 1 else 0) * cost + (available - if pays then cost else 0) == n * cost + available
  {
  }
}
