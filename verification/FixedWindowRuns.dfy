/** What the fixed window guarantees over whole runs. */
module FixedWindowRuns {
  import opened Arith
  import opened Limiters

  /** `start` begins an aligned window of this configuration. */
  predicate Aligned(c: Config, start: int)
    requires c.FixedWindowConfig? && c.Valid()
  {
    WindowStart(start, c.WindowMs()) == start
  }

  function InWindow(c: Config, times: seq<int>, start: int): nat {
    CountIn(times, start, start + c.WindowMs())
  }

  lemma FixedStepCounts(c: Config, s: State, now: int, seen: nat)
    requires c.FixedWindowConfig? && c.Valid() && Fits(c, s)
    requires s.Fresh? || s.fixed.windowStartMs != WindowStart(now, c.WindowMs()) ==> seen == 0
    requires s.FixedState? && s.fixed.windowStartMs == WindowStart(now, c.WindowMs()) ==>
               s.fixed.count == Min(c.limit, seen)
    ensures Next(c, s, now) == FixedState(FixedWindow(WindowStart(now, c.WindowMs()), Min(c.limit, seen + 1)))
    ensures Admits(c, s, now) <==> seen < c.limit
  {
  }

  lemma EarlierWindow(last: int, now: int, windowMs: int)
    requires windowMs > 0 && last <= now && WindowStart(last, windowMs) != WindowStart(now, windowMs)
    ensures last < WindowStart(now, windowMs)
  {
    WindowStartsAligned(now, windowMs);
    SameWindow(WindowStart(now, windowMs), last, windowMs);
  }

  lemma CountAfterLast(s: seq<int>, lo: int, hi: int)
    requires NonDecreasing(s) && (s != [] ==> s[|s| - 1] < lo)
    ensures CountIn(s, lo, hi) == 0
  {
    if s != [] {
      AllUpToLast(s);
    }
    CountInNone(s, lo, hi);
  }

  /** Requests of an earlier window are not counted in the window of `now`. */
  lemma OnlyThisWindow(c: Config, before: seq<int>, now: int)
    requires c.FixedWindowConfig? && c.Valid() && NonDecreasing(before + [now])
    requires before != [] ==> WindowStart(before[|before| - 1], c.WindowMs()) != WindowStart(now, c.WindowMs())
    ensures InWindow(c, before, WindowStart(now, c.WindowMs())) == 0
  {
    NonDecreasingSnoc(before, now);
    if before != [] {
      EarlierWindow(before[|before| - 1], now, c.WindowMs());
    }
    CountAfterLast(before, WindowStart(now, c.WindowMs()), WindowStart(now, c.WindowMs()) + c.WindowMs());
  }

  /** The stored counter is the number of requests of the current window, cut off at the limit. */
  lemma {:induction false} FixedStateAfter(c: Config, times: seq<int>)
    requires c.FixedWindowConfig? && c.Valid() && NonDecreasing(times) && times != []
    ensures var start := WindowStart(times[|times| - 1], c.WindowMs());
            After(c, times) == FixedState(FixedWindow(start, Min(c.limit, InWindow(c, times, start))))
    decreases |times|, 0
  {
    var before, now := times[..|times| - 1], times[|times| - 1];
    assert times == before + [now];
    NonDecreasingSnoc(before, now);
    SeenBefore(c, before, now);
    var start := WindowStart(now, c.WindowMs());
    CountInSnoc(before, now, start, start + c.WindowMs());
    FixedStepCounts(c, After(c, before), now, InWindow(c, before, start));
  }

  lemma {:induction false} SeenBefore(c: Config, before: seq<int>, now: int)
    requires c.FixedWindowConfig? && c.Valid() && NonDecreasing(before + [now])
    ensures var start, s := WindowStart(now, c.WindowMs()), After(c, before);
            && (s.Fresh? || s.fixed.windowStartMs != start ==> InWindow(c, before, start) == 0)
            && (s.FixedState? && s.fixed.windowStartMs == start ==>
                  s.fixed.count == Min(c.limit, InWindow(c, before, start)))
    decreases |before|, 1
  {
    NonDecreasingSnoc(before, now);
    if before != [] {
      FixedStateAfter(c, before);
    }
    if before == [] || WindowStart(before[|before| - 1], c.WindowMs()) != WindowStart(now, c.WindowMs()) {
      OnlyThisWindow(c, before, now);
    }
  }

  /** Each aligned window lets through exactly the first `limit` of its requests. */
  lemma {:induction false} AdmittedPerWindow(c: Config, times: seq<int>, start: int)
    requires c.FixedWindowConfig? && c.Valid() && NonDecreasing(times) && Aligned(c, start)
    ensures InWindow(c, Admitted(c, times), start) == Min(c.limit, InWindow(c, times, start))
  {
    if times != [] {
      var before, now := times[..|times| - 1], times[|times| - 1];
      assert times == before + [now];
      NonDecreasingSnoc(before, now);
      AdmittedPerWindow(c, before, start);
      AdmittedPerWindowSnoc(c, before, now, start);
    }
  }

  lemma AdmittedPerWindowSnoc(c: Config, before: seq<int>, now: int, start: int)
    requires c.FixedWindowConfig? && c.Valid() && NonDecreasing(before + [now]) && Aligned(c, start)
    requires InWindow(c, Admitted(c, before), start) == Min(c.limit, InWindow(c, before, start))
    ensures InWindow(c, Admitted(c, before + [now]), start) == Min(c.limit, InWindow(c, before + [now], start))
  {
    var w := c.WindowMs();
    AllowedWhileBelowLimit(c, before, now);
    SameWindow(start, now, w);
    CountInSnoc(before, now, start, start + w);
    AdmittedCountSnoc(c, before, now, start, start + w);
  }

  /** A request is let through exactly when its window has had fewer than `limit` requests. */
  lemma AllowedWhileBelowLimit(c: Config, before: seq<int>, now: int)
    requires c.FixedWindowConfig? && c.Valid() && NonDecreasing(before + [now])
    ensures Allows(c, before, now) <==>
            InWindow(c, before, WindowStart(now, c.WindowMs())) < c.limit
  {
    SeenBefore(c, before, now);
    FixedStepCounts(c, After(c, before), now, InWindow(c, before, WindowStart(now, c.WindowMs())));
  }

  /** Any interval as long as a window, aligned or not, lets through at most twice the limit. */
  lemma AnyIntervalTwiceTheLimit(c: Config, times: seq<int>, from: int)
    requires c.FixedWindowConfig? && c.Valid() && NonDecreasing(times)
    ensures CountIn(Admitted(c, times), from, from + c.WindowMs()) <= 2 * c.limit
  {
    var w := c.WindowMs();
    var start := WindowStart(from, w);
    var admitted := Admitted(c, times);
    WindowStartsAligned(from, w);
    AdmittedPerWindow(c, times, start);
    AdmittedPerWindow(c, times, start + w);
    CountInWiden(admitted, from, from + w, start, start + w + w);
    CountInSplit(admitted, start, start + w, start + w + w);
  }

  lemma {:induction false} CountCopies(x: int, n: nat, lo: int, hi: int)
    ensures CountIn(Copies(x, n), lo, hi) == if lo <= x < hi then n else 0
  {
    if n > 0 {
      assert Copies(x, n)[..n - 1] == Copies(x, n - 1);
      CountCopies(x, n - 1, lo, hi);
    }
  }

  lemma {:induction false} CountConcat(s: seq<int>, t: seq<int>, lo: int, hi: int)
    ensures CountIn(s + t, lo, hi) == CountIn(s, lo, hi) + CountIn(t, lo, hi)
  {
    if t == [] {
      assert s + t == s;
    } else {
      assert (s + t)[..|s + t| - 1] == s + t[..|t| - 1];
      CountConcat(s, t[..|t| - 1], lo, hi);
    }
  }

  lemma {:induction false} CopiesInOrder(x: int, m: nat, y: int, n: nat)
    requires x <= y
    ensures NonDecreasing(Copies(x, m) + Copies(y, n))
    decreases m + n
  {
    var s := Copies(x, m) + Copies(y, n);
    if n > 0 {
      CopiesInOrder(x, m, y, n - 1);
      assert s[..|s| - 1] == Copies(x, m) + Copies(y, n - 1);
    } else if m > 0 {
      CopiesInOrder(x, m - 1, y, 0);
      assert s[..|s| - 1] == Copies(x, m - 1) + Copies(y, 0);
    }
  }

  /** The bound of twice the limit is reached: a full burst on each side of a window boundary. */
  lemma BurstAcrossBoundary(c: Config) returns (times: seq<int>, from: int)
    requires c.FixedWindowConfig? && c.Valid()
    ensures NonDecreasing(times)
    ensures CountIn(Admitted(c, times), from, from + c.WindowMs()) == 2 * c.limit
  {
    var w, n := c.WindowMs(), c.limit;
    times := Copies(w - 1, n) + Copies(w, n);
    from := w - 1;
    CopiesInOrder(w - 1, n, w, n);
    BurstWindow(c, times, 0);
    BurstWindow(c, times, w);
    AdmittedFrom(c, times);
    OnlyAtBoundary(Admitted(c, times), w);
  }

  lemma BurstWindow(c: Config, times: seq<int>, start: int)
    requires c.FixedWindowConfig? && c.Valid() && (start == 0 || start == c.WindowMs())
    requires times == Copies(c.WindowMs() - 1, c.limit) + Copies(c.WindowMs(), c.limit)
    ensures InWindow(c, Admitted(c, times), start) == c.limit
  {
    var w, n := c.WindowMs(), c.limit;
    assert WindowStart(0, w) == 0;
    WindowStartsAligned(0, w);
    CopiesInOrder(w - 1, n, w, n);
    AdmittedPerWindow(c, times, start);
    CountConcat(Copies(w - 1, n), Copies(w, n), start, start + w);
    CountCopies(w - 1, n, start, start + w);
    CountCopies(w, n, start, start + w);
  }

  lemma OnlyAtBoundary(s: seq<int>, w: int)
    requires w > 1 && forall x :: x in s ==> x == w - 1 || x == w
    ensures CountIn(s, w - 1, w - 1 + w) == CountIn(s, 0, w) + CountIn(s, w, w + w)
  {
    CountInNone(s, 0, w - 1);
    CountInNone(s, w - 1 + w, w + w);
    CountInSplit(s, 0, w, w + w);
    CountInSplit(s, 0, w - 1, w + w);
    CountInSplit(s, w - 1, w - 1 + w, w + w);
  }
}
