/** What the sliding window log guarantees over whole runs. */
module SlidingLogRuns {
  import opened Arith
  import opened Limiters

  lemma ActiveSnoc(s: seq<int>, x: int, cutoff: int)
    ensures ActiveEvents(s + [x], cutoff) ==
            if x > cutoff then ActiveEvents(s, cutoff) + [x] else ActiveEvents(s, cutoff)
  {
    assert (s + [x])[..|s|] == s;
  }

  lemma {:induction false} ActiveOfActive(s: seq<int>, cutoff: int, later: int)
    requires cutoff <= later
    ensures ActiveEvents(ActiveEvents(s, cutoff), later) == ActiveEvents(s, later)
  {
    if s != [] {
      var t, x := s[..|s| - 1], s[|s| - 1];
      assert s == t + [x];
      ActiveOfActive(t, cutoff, later);
      ActiveSnoc(t, x, cutoff);
      ActiveSnoc(t, x, later);
      ActiveSnoc(ActiveEvents(t, cutoff), x, later);
    }
  }

  lemma {:induction false} ActiveCount(s: seq<int>, cutoff: int, hi: int)
    requires forall x :: x in s ==> x < hi
    ensures |ActiveEvents(s, cutoff)| == CountIn(s, cutoff + 1, hi)
  {
    if s != [] {
      var t, x := s[..|s| - 1], s[|s| - 1];
      assert s == t + [x];
      assert forall y :: y in t ==> y in s;
      assert x in s;
      ActiveCount(t, cutoff, hi);
      ActiveSnoc(t, x, cutoff);
      CountInSnoc(t, x, cutoff + 1, hi);
    }
  }

  /** Everything above the cutoff stays, in order; a list that starts at or below it gets shorter. */
  lemma {:induction false} ActiveKeeps(s: seq<int>, cutoff: int)
    requires NonDecreasing(s)
    ensures var active := ActiveEvents(s, cutoff);
            && NonDecreasing(active)
            && |active| <= |s|
            && (forall x :: x in active ==> x in s && x > cutoff)
            && (s == [] || s[0] > cutoff ==> active == s)
            && (s != [] && s[0] <= cutoff ==> |active| < |s|)
  {
    hide NonDecreasing, ActiveEvents;
    if s == [] {
      NoneActive(cutoff);
    } else {
      var t, x := s[..|s| - 1], s[|s| - 1];
      assert s == t + [x];
      NonDecreasingSnoc(t, x);
      ActiveKeeps(t, cutoff);
      ActiveSnoc(t, x, cutoff);
      NonDecreasingSnoc(ActiveEvents(t, cutoff), x);
      LastActive(t, x, cutoff);
      if s[0] > cutoff {
        NonDecreasingAt(s, 0, |s| - 1);
      }
    }
  }

  lemma NoneActive(cutoff: int)
    ensures ActiveEvents([], cutoff) == [] && NonDecreasing([])
  {
  }

  lemma LastActive(t: seq<int>, x: int, cutoff: int)
    requires NonDecreasing(t + [x]) && forall y :: y in ActiveEvents(t, cutoff) ==> y in t
    ensures ActiveEvents(t, cutoff) != [] ==> ActiveEvents(t, cutoff)[|ActiveEvents(t, cutoff)| - 1] <= x
  {
    hide NonDecreasing, ActiveEvents;
    var active := ActiveEvents(t, cutoff);
    if active != [] {
      var last := active[|active| - 1];
      assert last in active;
      assert last in t;
      var k :| 0 <= k < |t| && t[k] == last;
      NonDecreasingAt(t + [x], k, |t|);
    }
  }

  lemma AdmittedEither(c: Config, times: seq<int>, now: int)
    requires c.Valid()
    ensures Admitted(c, times + [now]) == Admitted(c, times) || Admitted(c, times + [now]) == Admitted(c, times) + [now]
  {
    AfterSnoc(c, times, now);
  }

  lemma NoneAdmitted(c: Config)
    requires c.Valid()
    ensures Admitted(c, []) == [] && NonDecreasing([])
  {
  }

  lemma {:induction false} AdmittedInOrder(c: Config, times: seq<int>)
    requires c.Valid() && NonDecreasing(times)
    ensures NonDecreasing(Admitted(c, times))
    ensures Admitted(c, times) != [] ==>
              times != [] && Admitted(c, times)[|Admitted(c, times)| - 1] <= times[|times| - 1]
  {
    hide Admits, Next, After, Admitted, NonDecreasing;
    if times == [] {
      NoneAdmitted(c);
    } else {
      var before, now := times[..|times| - 1], times[|times| - 1];
      assert times == before + [now];
      NonDecreasingSnoc(before, now);
      AdmittedInOrder(c, before);
      AdmittedEither(c, before, now);
      EitherInOrder(Admitted(c, before), Admitted(c, times), if before == [] then now else before[|before| - 1], now);
    }
  }

  lemma EitherInOrder(s: seq<int>, t: seq<int>, last: int, now: int)
    requires NonDecreasing(s) && (s != [] ==> s[|s| - 1] <= last) && last <= now
    requires t == s || t == s + [now]
    ensures NonDecreasing(t) && (t != [] ==> t[|t| - 1] <= now)
  {
    NonDecreasingSnoc(s, now);
  }

  /** In order, and nothing after `now`. */
  predicate History(s: seq<int>, now: int) {
    NonDecreasing(s) && (s != [] ==> s[|s| - 1] <= now)
  }

  lemma AdmittedUpTo(c: Config, times: seq<int>, now: int)
    requires c.Valid() && NonDecreasing(times + [now])
    ensures History(Admitted(c, times), now)
  {
    NonDecreasingSnoc(times, now);
    AdmittedInOrder(c, times);
  }

  /** Of a history, the active part is what falls into the window that ends now. */
  lemma ActiveOfHistory(s: seq<int>, width: int, now: int)
    requires History(s, now)
    ensures |ActiveEvents(s, now - width)| == CountIn(s, now - width + 1, now + 1)
  {
    if s != [] {
      AllUpToLast(s);
    }
    ActiveCount(s, now - width, now + 1);
  }

  /** The events that state `s` holds of the window ending at `now`. */
  function Recent(c: Config, s: State, now: int): seq<int>
    requires c.SlidingLogConfig? && Fits(c, s)
  {
    ActiveEvents(if s.Fresh? then [] else s.events, now - c.WindowMs())
  }

  lemma LogStep(c: Config, s: State, now: int)
    requires c.SlidingLogConfig? && c.Valid() && Fits(c, s)
    ensures var recent := Recent(c, s, now);
            && (Admits(c, s, now) <==> |recent| < c.limit)
            && Next(c, s, now).events == if Admits(c, s, now) then recent + [now] else recent
  {
  }

  lemma LogStepAdmitted(c: Config, s: State, now: int, admitted: seq<int>)
    requires c.SlidingLogConfig? && c.Valid() && Fits(c, s)
    requires Recent(c, s, now) == ActiveEvents(admitted, now - c.WindowMs())
    ensures Admits(c, s, now) ==>
              Next(c, s, now).events == ActiveEvents(admitted + [now], now - c.WindowMs())
    ensures !Admits(c, s, now) ==>
              Next(c, s, now).events == ActiveEvents(admitted, now - c.WindowMs())
  {
    LogStep(c, s, now);
    ActiveSnoc(admitted, now, now - c.WindowMs());
  }

  lemma RecentLater(c: Config, s: State, admitted: seq<int>, last: int, now: int)
    requires c.SlidingLogConfig? && s.LogState? && last <= now
    requires s.events == ActiveEvents(admitted, last - c.WindowMs())
    ensures Recent(c, s, now) == ActiveEvents(admitted, now - c.WindowMs())
  {
    ActiveOfActive(admitted, last - c.WindowMs(), now - c.WindowMs());
  }

  /** The stored events, as far as they still matter at `now`, are the admissions of that window. */
  lemma {:induction false} RecentAdmissions(c: Config, times: seq<int>, now: int)
    requires c.SlidingLogConfig? && c.Valid() && NonDecreasing(times + [now])
    ensures Recent(c, After(c, times), now) == ActiveEvents(Admitted(c, times), now - c.WindowMs())
    decreases |times|, 1
  {
    if times != [] {
      NonDecreasingSnoc(times, now);
      LogStateAfter(c, times);
      RecentLater(c, After(c, times), Admitted(c, times), times[|times| - 1], now);
    }
  }

  /** The stored list is the admitted history, restricted to the window that ends now. */
  lemma {:induction false} LogStateAfter(c: Config, times: seq<int>)
    requires c.SlidingLogConfig? && c.Valid() && NonDecreasing(times) && times != []
    ensures After(c, times).events == ActiveEvents(Admitted(c, times), times[|times| - 1] - c.WindowMs())
    decreases |times|, 0
  {
    hide Admits, Next, Admitted, After, ActiveEvents, NonDecreasing;
    var before, now := times[..|times| - 1], times[|times| - 1];
    assert times == before + [now];
    RecentAdmissions(c, before, now);
    AfterSnoc(c, before, now);
    LogStepAdmitted(c, After(c, before), now, Admitted(c, before));
  }

  /** What the window that ends at `now` already holds. */
  function HeldAt(c: Config, times: seq<int>, now: int): nat
    requires c.Valid()
  {
    CountIn(Admitted(c, times), now - c.WindowMs() + 1, now + 1)
  }

  /** A request is turned away exactly when the window that ends with it already holds `limit`
    * admissions. */
  lemma DeniedExactlyWhenWindowFull(c: Config, times: seq<int>, now: int)
    requires c.SlidingLogConfig? && c.Valid() && NonDecreasing(times + [now])
    ensures Decide(c, times, now).allowed <==> HeldAt(c, times, now) < c.limit
  {
    HeldIsRecent(c, times, now);
    LogStep(c, After(c, times), now);
    DecideAllows(c, times, now);
  }

  lemma DecideAllows(c: Config, times: seq<int>, now: int)
    requires c.Valid()
    ensures Decide(c, times, now).allowed <==> Admits(c, After(c, times), now)
  {
  }

  lemma HeldIsRecent(c: Config, times: seq<int>, now: int)
    requires c.SlidingLogConfig? && c.Valid() && NonDecreasing(times + [now])
    ensures HeldAt(c, times, now) == |Recent(c, After(c, times), now)|
  {
    hide Admits, Next;
    RecentAdmissions(c, times, now);
    AdmittedUpTo(c, times, now);
    ActiveOfHistory(Admitted(c, times), c.WindowMs(), now);
  }

  /** No interval of one window length, wherever it starts, holds more than `limit` admissions. */
  lemma {:induction false} EveryIntervalWithinLimit(c: Config, times: seq<int>, from: int)
    requires c.SlidingLogConfig? && c.Valid() && NonDecreasing(times)
    ensures CountIn(Admitted(c, times), from, from + c.WindowMs()) <= c.limit
  {
    if times != [] {
      var before, now := times[..|times| - 1], times[|times| - 1];
      assert times == before + [now];
      NonDecreasingSnoc(before, now);
      EveryIntervalWithinLimit(c, before, from);
      WithinLimitSnoc(c, before, now, from);
    }
  }

  lemma WithinLimitSnoc(c: Config, before: seq<int>, now: int, from: int)
    requires c.SlidingLogConfig? && c.Valid() && NonDecreasing(before + [now])
    requires CountIn(Admitted(c, before), from, from + c.WindowMs()) <= c.limit
    ensures CountIn(Admitted(c, before + [now]), from, from + c.WindowMs()) <= c.limit
  {
    hide CountIn, Admitted, Admits, After, NonDecreasing, Decide;
    AdmittedCountSnoc(c, before, now, from, from + c.WindowMs());
    if from <= now < from + c.WindowMs() {
      DeniedExactlyWhenWindowFull(c, before, now);
      HeldCovers(c, before, now, from);
    }
  }

  lemma HeldCovers(c: Config, before: seq<int>, now: int, from: int)
    requires c.SlidingLogConfig? && c.Valid() && NonDecreasing(before + [now])
    requires from <= now < from + c.WindowMs()
    ensures CountIn(Admitted(c, before), from, from + c.WindowMs()) <= HeldAt(c, before, now)
  {
    hide Admits, Next;
    AdmittedUpTo(c, before, now);
    CountEndingAt(Admitted(c, before), from, c.WindowMs(), now);
  }

  lemma CountEndingAt(s: seq<int>, from: int, width: int, now: int)
    requires from <= now < from + width && History(s, now)
    ensures CountIn(s, from, from + width) <= CountIn(s, now - width + 1, now + 1)
  {
    if s != [] {
      AllUpToLast(s);
    }
    CountInSplit(s, from, now + 1, from + width);
    CountInNone(s, now + 1, from + width);
    CountInWiden(s, from, now + 1, now - width + 1, now + 1);
  }
}
