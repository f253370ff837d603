/** The in-memory token bucket under a clock that may step backwards: it takes over every time it is
  * given, even an earlier one, and then refills the same span again. */
module MemoryClock {
  import opened Arith
  import opened Limiters
  import opened TokenBucketRuns
  import opened BucketClock

  /** All requests let in cost no more than a full bucket and what the clock refills by its progress,
    * over all runs that never step back by more than `back`. */
  ghost predicate MemoryBounded(c: Config, back: int)
    requires c.Valid() && c.TokenBucketConfig?
  {
    forall times: seq<int> :: times != [] && Tolerated(times[0], times, back) ==> Bounded(c, times)
  }

  predicate Bounded(c: Config, times: seq<int>)
    requires c.Valid() && c.TokenBucketConfig? && times != []
  {
    |Admitted(c, times)| * c.WindowMs() <= Full(c) + (Latest(times[0], times) - times[0]) * c.rate
  }

  // ----- clocks that do not step back -----

  lemma {:induction false} NoStepBack(from: int, times: seq<int>)
    requires Tolerated(from, times, 0) && (times != [] ==> times[0] >= from)
    ensures NonDecreasing(times) && Latest(from, times) == if times == [] then from else times[|times| - 1]
  {
    if times != [] {
      var earlier, now := times[..|times| - 1], times[|times| - 1];
      assert times == earlier + [now];
      NoStepBack(from, earlier);
      ClockSnoc(from, earlier, now, 0);
      NonDecreasingSnoc(earlier, now);
    }
  }

  lemma {:induction false} CountAll(s: seq<int>, lo: int, hi: int)
    requires forall x :: x in s ==> lo <= x < hi
    ensures CountIn(s, lo, hi) == |s|
  {
    if s != [] {
      var t := s[..|s| - 1];
      assert s[|s| - 1] in s && forall x :: x in t ==> x in s;
      CountAll(t, lo, hi);
    }
  }

  lemma BoundedInOrder(c: Config, times: seq<int>)
    requires c.Valid() && c.TokenBucketConfig? && times != [] && Tolerated(times[0], times, 0)
    ensures Bounded(c, times)
  {
    hide Admitted, Full, NonDecreasing, Tolerated, Latest, CountIn;
    var (first, last) := (times[0], times[|times| - 1]);
    NoStepBack(first, times);
    NonDecreasingAt(times, 0, |times| - 1);
    AdmittedFrom(c, times);
    forall x | x in Admitted(c, times) ensures first <= x < last + 1 {
      var i :| 0 <= i < |times| && times[i] == x;
      NonDecreasingAt(times, 0, i);
      NonDecreasingAt(times, i, |times| - 1);
    }
    CountAll(Admitted(c, times), first, last + 1);
    IntervalBound(c, times, first, last + 1);
  }

  // ----- clocks that do -----

  lemma TakeLast(c: Config, s: State, now: int, left: nat)
    requires c.Valid() && c.TokenBucketConfig? && left < c.capacity
    requires if left == c.capacity - 1 then s.Fresh? else s == BucketState(TokenBucket((left + 1) * c.WindowMs(), now))
    ensures Admits(c, s, now) && Next(c, s, now) == BucketState(TokenBucket(left * c.WindowMs(), now))
  {
    MulMono(left + 1, c.capacity, c.WindowMs());
    MulMono(0, left, c.WindowMs());
    Distribute(left, 1, c.WindowMs());
    assert (now - now) * c.rate == 0;
  }

  lemma {:induction false} BurstDrains(c: Config, now: int, k: nat)
    requires c.Valid() && c.TokenBucketConfig? && 1 <= k <= c.capacity
    ensures After(c, Copies(now, k)) == BucketState(TokenBucket((c.capacity - k) * c.WindowMs(), now))
    ensures |Admitted(c, Copies(now, k))| == k
  {
    hide Admits, Next;
    var before := Copies(now, k - 1);
    assert Copies(now, k) == before + [now];
    AfterSnoc(c, before, now);
    if k == 1 {
      assert before == [];
    } else {
      BurstDrains(c, now, k - 1);
    }
    TakeLast(c, After(c, before), now, c.capacity - k);
  }

  /** The bucket is emptied at `now`; then the clock goes a millisecond back and forth, j times. */
  function Seesaw(c: Config, now: int, j: nat): (times: seq<int>)
    requires c.Valid() && c.TokenBucketConfig?
    ensures times != []
  {
    if j == 0 then Copies(now, c.capacity) else Seesaw(c, now, j - 1) + [now - 1] + [now]
  }

  /** One millisecond back and forth on a bucket that holds too little for a request: it holds one
    * millisecond's refill more, or lets one in if that is enough. */
  lemma OneSwing(c: Config, now: int, tokens: int)
    requires c.Valid() && c.TokenBucketConfig? && 0 <= tokens < c.WindowMs()
    ensures var back := Next(c, BucketState(TokenBucket(tokens, now)), now - 1);
            && !Admits(c, BucketState(TokenBucket(tokens, now)), now - 1)
            && (Admits(c, back, now) <==> tokens + c.rate >= c.WindowMs())
            && (tokens + c.rate < c.WindowMs() ==> Next(c, back, now) == BucketState(TokenBucket(tokens + c.rate, now)))
  {
    FullHoldsOneRequest(c);
    BucketStep(c, BucketState(TokenBucket(tokens, now)), now - 1);
    BucketStep(c, BucketState(TokenBucket(tokens, now - 1)), now);
  }

  lemma SeesawSnoc(c: Config, now: int, j: nat)
    requires c.Valid() && c.TokenBucketConfig?
    ensures var (before, s) := (Seesaw(c, now, j), After(c, Seesaw(c, now, j)));
            && After(c, Seesaw(c, now, j + 1)) == Next(c, Next(c, s, now - 1), now)
            && |Admitted(c, Seesaw(c, now, j + 1))| ==
               |Admitted(c, before)| + (if Admits(c, s, now - 1) then 1 else 0)
               + (if Admits(c, Next(c, s, now - 1), now) then 1 else 0)
  {
    hide Admits, Next;
    AfterSnoc(c, Seesaw(c, now, j), now - 1);
    AfterSnoc(c, Seesaw(c, now, j) + [now - 1], now);
  }

  lemma SeesawStart(c: Config, now: int)
    requires c.Valid() && c.TokenBucketConfig?
    ensures After(c, Seesaw(c, now, 0)) == BucketState(TokenBucket(0, now))
    ensures |Admitted(c, Seesaw(c, now, 0))| == c.capacity
  {
    hide Admits, Next, After, Admitted;
    BurstDrains(c, now, c.capacity);
  }

  lemma {:induction false} SeesawFills(c: Config, now: int, j: nat)
    requires c.Valid() && c.TokenBucketConfig? && j * c.rate < c.WindowMs()
    ensures After(c, Seesaw(c, now, j)) == BucketState(TokenBucket(j * c.rate, now))
    ensures |Admitted(c, Seesaw(c, now, j))| == c.capacity
  {
    hide Admits, Next, Seesaw, After, Admitted;
    if j == 0 {
      SeesawStart(c, now);
    } else {
      Distribute(j - 1, 1, c.rate);
      MulMono(0, j - 1, c.rate);
      SeesawFills(c, now, j - 1);
      SeesawSnoc(c, now, j - 1);
      OneSwing(c, now, (j - 1) * c.rate);
    }
  }

  lemma {:induction false} SeesawClock(c: Config, now: int, j: nat, back: int)
    requires c.Valid() && c.TokenBucketConfig? && back >= 1
    ensures Tolerated(now, Seesaw(c, now, j), back) && Latest(now, Seesaw(c, now, j)) == now
    ensures Seesaw(c, now, j)[0] == now
  {
    if j == 0 {
      CopiesClock(now, c.capacity, back);
    } else {
      SeesawClock(c, now, j - 1, back);
      ClockSnoc(now, Seesaw(c, now, j - 1), now - 1, back);
      ClockSnoc(now, Seesaw(c, now, j - 1) + [now - 1], now, back);
    }
  }

  lemma {:induction false} CopiesClock(now: int, k: nat, back: int)
    requires back >= 0
    ensures Tolerated(now, Copies(now, k), back) && Latest(now, Copies(now, k)) == now
  {
    if k > 0 {
      assert Copies(now, k) == Copies(now, k - 1) + [now];
      CopiesClock(now, k - 1, back);
      ClockSnoc(now, Copies(now, k - 1), now, back);
    }
  }

  /** For every policy: steps of one millisecond, back and forth often enough, let in one request more
    * than a full bucket holds, while the clock makes no progress. */
  lemma InMemoryRefillsAgain(c: Config, now: int, back: int) returns (times: seq<int>)
    requires c.Valid() && c.TokenBucketConfig? && back >= 1
    ensures times != [] && times[0] == now && Latest(now, times) == now && Tolerated(now, times, back)
    ensures |Admitted(c, times)| == c.capacity + 1
  {
    hide Admits, Next, Tolerated, Latest;
    CeilDivLeast(c.WindowMs(), c.rate, 0);
    var j := CeilDiv(c.WindowMs(), c.rate) - 1;
    times := Seesaw(c, now, j + 1);
    SeesawFills(c, now, j);
    SeesawSnoc(c, now, j);
    MulMono(0, j, c.rate);
    Distribute(j, 1, c.rate);
    OneSwing(c, now, j * c.rate);
    SeesawClock(c, now, j + 1, back);
  }

  /** The bound on admissions holds of the in-memory bucket exactly on clocks that never step back. */
  lemma MemoryBoundedExactly(c: Config, back: int)
    requires c.Valid() && c.TokenBucketConfig? && back >= 0
    ensures MemoryBounded(c, back) <==> back == 0
  {
    hide Admitted, Tolerated, Latest;
    if back == 0 {
      forall times: seq<int> | times != [] && Tolerated(times[0], times, back)
        ensures Bounded(c, times)
      {
        BoundedInOrder(c, times);
      }
    } else {
      var times := InMemoryRefillsAgain(c, 0, back);
      assert Tolerated(times[0], times, back);
      OneTooMany(c);
    }
  }

  lemma OneTooMany(c: Config)
    requires c.Valid() && c.TokenBucketConfig?
    ensures (c.capacity + 1) * c.WindowMs() == Full(c) + c.WindowMs()
  {
    Distribute(c.capacity, 1, c.WindowMs());
  }
}
