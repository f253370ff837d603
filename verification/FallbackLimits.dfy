/** How much the fallback limiter lets in of a sliding log whose events it may forget: almost twice
  * the limit in a window, and no more. */
module FallbackLimits {
  import opened Arith
  import opened Limiters
  import opened FixedWindowRuns
  import opened SlidingLogRuns
  import opened Answers
  import opened Keyed
  import opened Fallback
  import opened FallbackRuns

  // ----- the log that is stored, and those that were dropped -----

  /** What a key was let in: `past` under logs that have been dropped, `current` under the latest one,
    * which at its last call, `lastMs`, held `events`. */
  datatype Trace = Trace(past: seq<int>, current: seq<int>, events: seq<int>, lastMs: int)

  /** The dropped logs have left less than `limit` behind in the window in which the latest began. */
  ghost predicate PastOk(c: Config, t: Trace)
    requires c.SlidingLogConfig? && t.current != []
  {
    && History(t.past, t.current[0])
    && CountIn(t.past, t.current[0] - c.WindowMs() + 1, t.current[0] + 1) <= c.limit - 1
  }

  ghost predicate CurrentOk(c: Config, t: Trace)
    requires c.SlidingLogConfig?
  {
    && t.current != [] && History(t.current, t.lastMs)
    && t.events == ActiveEvents(t.current, t.lastMs - c.WindowMs())
    && t.events != [] && |t.events| <= c.limit && t.current[0] <= t.events[0] <= t.lastMs
  }

  /** The latest log is still stored, or was dropped when its oldest event had left the window. */
  ghost predicate StoredOrDropped(store: Store, c: Config, key: string, t: Trace, now: int)
    requires c.SlidingLogConfig? && t.events != []
  {
    && t.lastMs <= now
    && if Kept(store, c, key).Some? then
         Kept(store, c, key) == Some(LogState(t.events)) && t.events[0] + c.WindowMs() <= ExpiryIn(store, c, key)
       else t.events[0] + c.WindowMs() <= now
  }

  ghost predicate Traced(store: Store, c: Config, key: string, all: seq<int>, t: Trace, now: int)
    requires c.SlidingLogConfig?
  {
    if t.current == [] then all == [] && Kept(store, c, key).None?
    else
      && all == t.past + t.current && CurrentOk(c, t) && PastOk(c, t)
      && StoredOrDropped(store, c, key, t, now)
  }

  /** What is let in within the window that ends at `now`. */
  function Within(c: Config, s: seq<int>, now: int): nat {
    CountIn(s, now - c.WindowMs() + 1, now + 1)
  }

  lemma HistoryLater(s: seq<int>, now: int, later: int)
    requires History(s, now) && now <= later
    ensures History(s, later)
  {
  }

  lemma HistorySnoc(s: seq<int>, last: int, now: int)
    requires History(s, last) && last <= now
    ensures History(s + [now], now)
  {
    NonDecreasingSnoc(s, now);
  }

  lemma {:induction false} HistoryConcat(s: seq<int>, t: seq<int>, now: int)
    requires t != [] && History(s, t[0]) && History(t, now)
    ensures History(s + t, now)
  {
    if |t| == 1 {
      assert s + t == s + [t[0]];
      HistorySnoc(s, t[0], t[0]);
    } else {
      var (u, x) := (t[..|t| - 1], t[|t| - 1]);
      assert t == u + [x];
      NonDecreasingSnoc(u, x);
      HistoryConcat(s, u, x);
      assert s + t == s + u + [x];
      NonDecreasingSnoc(s + u, x);
    }
  }

  /** Nothing of a history that ended a window ago counts any more. */
  lemma OldHistory(c: Config, s: seq<int>, last: int, now: int)
    requires c.SlidingLogConfig? && History(s, last) && last <= now - c.WindowMs()
    ensures Within(c, s, now) == 0
  {
    if s != [] {
      AllUpToLast(s);
    }
    CountInNone(s, now - c.WindowMs() + 1, now + 1);
  }

  /** Of a history that has ended, later windows hold no more. */
  lemma EndedHistory(c: Config, s: seq<int>, last: int, now: int)
    requires c.SlidingLogConfig? && c.Valid() && History(s, last) && last <= now
    ensures Within(c, s, now) <= Within(c, s, last)
  {
    var w := c.WindowMs();
    if s != [] {
      AllUpToLast(s);
    }
    if now - w + 1 <= last + 1 {
      CountInSplit(s, now - w + 1, last + 1, now + 1);
      CountInNone(s, last + 1, now + 1);
      CountInWiden(s, now - w + 1, last + 1, last - w + 1, last + 1);
    } else {
      CountInNone(s, now - w + 1, now + 1);
    }
  }

  // ----- a call for the key -----

  /** The log was dropped: the new one begins with what is left of all before it. */
  lemma AfterDrop(c: Config, t: Trace, now: int)
    requires c.SlidingLogConfig? && c.Valid() && CurrentOk(c, t) && PastOk(c, t)
    requires t.lastMs <= now && t.events[0] + c.WindowMs() <= now
    ensures Within(c, t.past + t.current, now) <= c.limit - 1 && History(t.past + t.current, now)
  {
    hide NonDecreasing, CountIn, ActiveEvents;
    var w := c.WindowMs();
    HistoryConcat(t.past, t.current, t.lastMs);
    HistoryLater(t.past + t.current, t.lastMs, now);
    CountConcat(t.past, t.current, now - w + 1, now + 1);
    OldHistory(c, t.past, t.current[0], now);
    HistoryLater(t.current, t.lastMs, now);
    ActiveOfHistory(t.current, w, now);
    ActiveOfActive(t.current, t.lastMs - w, now - w);
    ActiveKeeps(t.current, t.lastMs - w);
    ActiveKeeps(t.events, now - w);
  }

  /** The log is there: what counts now is what it still holds, and less than `limit` before it. */
  lemma WhileKept(c: Config, t: Trace, now: int)
    requires c.SlidingLogConfig? && c.Valid() && CurrentOk(c, t) && PastOk(c, t) && t.lastMs <= now
    ensures History(t.past + t.current, now)
    ensures ActiveEvents(t.events, now - c.WindowMs()) == ActiveEvents(t.current, now - c.WindowMs())
    ensures Within(c, t.past + t.current, now) <= c.limit - 1 + |ActiveEvents(t.events, now - c.WindowMs())|
  {
    hide NonDecreasing, CountIn, ActiveEvents;
    var w := c.WindowMs();
    HistoryConcat(t.past, t.current, t.lastMs);
    HistoryLater(t.past + t.current, t.lastMs, now);
    HistoryLater(t.current, t.lastMs, now);
    CountConcat(t.past, t.current, now - w + 1, now + 1);
    EndedHistory(c, t.past, t.current[0], now);
    ActiveOfHistory(t.current, w, now);
    ActiveOfActive(t.current, t.lastMs - w, now - w);
  }

  /** The trace after a call at `now` that finds `held` stored. */
  function NextTrace(c: Config, t: Trace, held: bool, now: int): Trace
    requires c.SlidingLogConfig? && c.Valid()
  {
    var s := if held then LogState(t.events) else Fresh;
    var admits := Admits(c, s, now);
    var events := Next(c, s, now).events;
    if held then Trace(t.past, if admits then t.current + [now] else t.current, events, now)
    else Trace(t.past + t.current, [now], events, now)
  }

  lemma KeptCall(c: Config, t: Trace, now: int)
    requires c.SlidingLogConfig? && c.Valid() && CurrentOk(c, t) && PastOk(c, t) && t.lastMs <= now
    ensures var u := NextTrace(c, t, true, now);
            CurrentOk(c, u) && PastOk(c, u) && u.lastMs == now
  {
    hide Admits, Next, NonDecreasing, CountIn, ActiveEvents;
    KeptList(c, t, now);
    HistorySnoc(t.current, t.lastMs, now);
    HistoryLater(t.current, t.lastMs, now);
    ReachedEvents(c, t);
    NextAllRecent(c, LogState(t.events), t.lastMs, now);
    FirstOfActive(if Admits(c, LogState(t.events), now) then t.current + [now] else t.current, now - c.WindowMs());
  }

  /** The list that the call leaves is the active part of what the log has let in. */
  lemma KeptList(c: Config, t: Trace, now: int)
    requires c.SlidingLogConfig? && c.Valid() && CurrentOk(c, t) && t.lastMs <= now
    ensures var s := LogState(t.events);
            Next(c, s, now).events ==
            ActiveEvents(if Admits(c, s, now) then t.current + [now] else t.current, now - c.WindowMs())
  {
    hide Admits, Next, NonDecreasing, ActiveEvents;
    LogStep(c, LogState(t.events), now);
    ActiveOfActive(t.current, t.lastMs - c.WindowMs(), now - c.WindowMs());
    ActiveSnoc(t.current, now, now - c.WindowMs());
  }

  lemma FirstOfActive(s: seq<int>, cutoff: int)
    requires NonDecreasing(s) && ActiveEvents(s, cutoff) != []
    ensures s != [] && s[0] <= ActiveEvents(s, cutoff)[0]
  {
    ActiveKeeps(s, cutoff);
    var x := ActiveEvents(s, cutoff)[0];
    assert x in s;
    var i :| 0 <= i < |s| && s[i] == x;
    NonDecreasingAt(s, 0, i);
  }

  lemma ReachedEvents(c: Config, t: Trace)
    requires c.SlidingLogConfig? && c.Valid() && CurrentOk(c, t)
    ensures Reached(c, LogState(t.events), t.lastMs)
  {
    hide ActiveEvents, NonDecreasing;
    ActiveKeeps(t.current, t.lastMs - c.WindowMs());
    AllUpToLast(t.current);
    assert t.events[|t.events| - 1] in t.events;
  }

  lemma FreshCall(c: Config, t: Trace, now: int)
    requires c.SlidingLogConfig? && c.Valid()
    requires t.current == [] ==> t.past == []
    requires t.current != [] ==>
               CurrentOk(c, t) && PastOk(c, t) && t.lastMs <= now && t.events[0] + c.WindowMs() <= now
    ensures var u := NextTrace(c, t, false, now);
            CurrentOk(c, u) && PastOk(c, u) && u.lastMs == now && Admits(c, Fresh, now)
  {
    hide Admits, Next, NonDecreasing, CountIn, Step;
    if t.current == [] {
      assert t.past + t.current == [];
      NothingYet(c, now);
    } else {
      AfterDrop(c, t, now);
    }
    LoneEvent(c, now);
    StepHalves(c, Fresh, now);
    LogStep(c, Fresh, now);
    LoneCurrent(c, now);
  }

  lemma NothingYet(c: Config, now: int)
    requires c.SlidingLogConfig? && c.Valid()
    ensures Within(c, [], now) == 0 && History([], now)
  {
  }

  lemma LoneCurrent(c: Config, now: int)
    requires c.SlidingLogConfig? && c.Valid()
    ensures History([now], now) && ActiveEvents([now], now - c.WindowMs()) == [now]
  {
    ActiveSnoc([], now, now - c.WindowMs());
    assert [] + [now] == [now];
  }

  /** How much counts when a call lets one more in. */
  lemma RoomBefore(c: Config, t: Trace, held: bool, now: int)
    requires c.SlidingLogConfig? && c.Valid()
    requires t.current == [] ==> t.past == [] && !held
    requires t.current != [] ==> CurrentOk(c, t) && PastOk(c, t) && t.lastMs <= now
    requires !held && t.current != [] ==> t.events[0] + c.WindowMs() <= now
    requires held ==> Admits(c, LogState(t.events), now)
    ensures History(t.past + t.current, now) && Within(c, t.past + t.current, now) <= 2 * c.limit - 2
  {
    hide Admits, NonDecreasing, CountIn, ActiveEvents;
    if t.current == [] {
      assert t.past + t.current == [];
      NothingYet(c, now);
    } else if held {
      WhileKept(c, t, now);
      LogStep(c, LogState(t.events), now);
    } else {
      AfterDrop(c, t, now);
    }
  }

  // ----- whole runs -----

  lemma OwnCallTraced(ttlMs: int, store: Store, c: Config, key: string, all: seq<int>, t: Trace, now: int)
    returns (u: Trace)
    requires c.SlidingLogConfig? && c.Valid() && Traced(store, c, key, all, t, now)
    requires t.current == [] ==> t.past == []
    ensures var (next, d) := Fallback.Apply(ttlMs, store, c, key, now);
            && u.current != []
            && Traced(next, c, key, if d.allowed then all + [now] else all, u, now)
            && (d.allowed ==> History(all, now) && Within(c, all, now) <= 2 * c.limit - 2)
  {
    hide Admits, Next, Step, ExpiryOf, CurrentOk, PastOk;
    var live := Evicted(store, now);
    var kept := Kept(live, c, key);
    ApplyOnKey(ttlMs, live, c, key, now);
    u := NextTrace(c, t, kept.Some?, now);
    var s := if kept.Some? then LogState(t.events) else Fresh;
    StepHalves(c, s, now);
    LogAnswer(c, s, now);
    if t.current != [] {
      CurrentEvents(c, t);
    }
    LiveIsStored(store, c, key, t, now);
    if kept.Some? {
      KeptCall(c, t, now);
      TraceGrows(t.past, t.current, now);
    } else {
      FreshCall(c, t, now);
    }
    if Admits(c, s, now) {
      RoomBefore(c, t, kept.Some?, now);
    }
    ExpiryCovers(ttlMs, c, s, now);
    CurrentEvents(c, u);
  }

  lemma LiveIsStored(store: Store, c: Config, key: string, t: Trace, now: int)
    requires c.SlidingLogConfig? && (t.current != [] ==> t.events != [] && StoredOrDropped(store, c, key, t, now))
    requires t.current == [] ==> Kept(store, c, key).None?
    ensures var kept := Kept(Evicted(store, now), c, key);
            && (kept.Some? ==> t.current != [] && kept == Some(LogState(t.events)))
            && (kept.None? && t.current != [] ==> t.events[0] + c.WindowMs() <= now)
  {
  }

  lemma TraceGrows(past: seq<int>, current: seq<int>, now: int)
    ensures past + (current + [now]) == past + current + [now]
  {
  }

  lemma CurrentEvents(c: Config, t: Trace)
    requires c.SlidingLogConfig? && CurrentOk(c, t)
    ensures t.current != [] && t.events != []
  {
  }

  lemma ExpiryCovers(ttlMs: int, c: Config, s: State, now: int)
    requires c.SlidingLogConfig? && c.Valid() && Fits(c, s)
    ensures ExpiryOf(c, ttlMs, Step(c, s, now).0, Step(c, s, now).1, now) >= Step(c, s, now).1.resetAtMs
  {
  }

  lemma TracedLater(store: Store, c: Config, key: string, all: seq<int>, t: Trace, now: int, later: int)
    requires c.SlidingLogConfig? && Traced(store, c, key, all, t, now) && now <= later
    ensures Traced(store, c, key, all, t, later)
  {
    hide CurrentOk, PastOk;
    if t.current != [] {
      CurrentEvents(c, t);
    }
  }

  /** A call for another key can only drop what has expired. */
  lemma OtherCallTraced(
    ttlMs: int, store: Store, c: Config, key: string, all: seq<int>, t: Trace, c': Config, key': string, now: int)
    requires c.SlidingLogConfig? && c'.Valid() && key != key' && Traced(store, c, key, all, t, now)
    ensures Traced(Fallback.Apply(ttlMs, store, c', key', now).0, c, key, all, t, now)
  {
    hide CurrentOk, PastOk, ApplyLive;
    if t.current != [] {
      CurrentEvents(c, t);
    }
    ApplyOffKey(ttlMs, Evicted(store, now), c', key', now, c, key);
    EvictedExpiry(store, c, key, now);
  }

  lemma EvictedExpiry(store: Store, c: Config, key: string, now: int)
    requires c.SlidingLogConfig?
    ensures var (kept, live) := (Kept(store, c, key), Kept(Evicted(store, now), c, key));
            if live.Some? then
              live == kept && ExpiryIn(Evicted(store, now), c, key) == ExpiryIn(store, c, key)
            else kept.Some? ==> ExpiryIn(store, c, key) <= now
  {
  }

  lemma {:induction false} TracedRun(ttlMs: int, configs: Configs, calls: seq<Call>, key: string, now: int)
    returns (t: Trace)
    requires AllValid(configs) && configs(key).SlidingLogConfig? && InOrder(calls)
    requires calls != [] ==> calls[|calls| - 1].nowMs <= now
    ensures Traced(StoreAfter(ttlMs, configs, calls), configs(key), key, LetInBy(ttlMs, configs, calls, key), t, now)
    ensures t.current == [] ==> t.past == []
  {
    hide Traced, StoreAfter, LetInBy, InOrder, Config.Valid;
    if calls == [] {
      t := Trace([], [], [], now);
      NothingTraced(ttlMs, configs, key, t, now);
    } else {
      var before, call := calls[..|calls| - 1], calls[|calls| - 1];
      assert calls == before + [call];
      InOrderSnoc(before, call);
      var s := TracedRun(ttlMs, configs, before, key, call.nowMs);
      t := TracedSnoc(ttlMs, configs, before, call, key, s);
      TracedLater(StoreAfter(ttlMs, configs, calls), configs(key), key, LetInBy(ttlMs, configs, calls, key), t,
                  call.nowMs, now);
    }
  }

  lemma TracedSnoc(ttlMs: int, configs: Configs, before: seq<Call>, call: Call, key: string, s: Trace)
    returns (t: Trace)
    requires AllValid(configs) && configs(key).SlidingLogConfig? && (s.current == [] ==> s.past == [])
    requires Traced(StoreAfter(ttlMs, configs, before), configs(key), key, LetInBy(ttlMs, configs, before, key), s,
                    call.nowMs)
    ensures Traced(StoreAfter(ttlMs, configs, before + [call]), configs(key), key,
                   LetInBy(ttlMs, configs, before + [call], key), t, call.nowMs)
    ensures t.current == [] ==> t.past == []
  {
    hide Traced, LetInBy, ApplyLive;
    LetInSnoc(ttlMs, configs, before, call, key);
    StoreSnoc(ttlMs, configs, before, call);
    var (store, all) := (StoreAfter(ttlMs, configs, before), LetInBy(ttlMs, configs, before, key));
    if call.key == key {
      t := OwnCallTraced(ttlMs, store, configs(key), key, all, s, call.nowMs);
    } else {
      t := s;
      OtherCallTraced(ttlMs, store, configs(key), key, all, s, configs(call.key), call.key, call.nowMs);
    }
  }

  lemma NothingTraced(ttlMs: int, configs: Configs, key: string, t: Trace, now: int)
    requires AllValid(configs) && configs(key).SlidingLogConfig? && t.current == []
    ensures Traced(StoreAfter(ttlMs, configs, []), configs(key), key, LetInBy(ttlMs, configs, [], key), t, now)
  {
  }

  lemma NothingStored(c: Config, key: string)
    ensures Kept(EmptyStore, c, key).None?
  {
  }

  /** Over any interleaving of keys, whatever the time to live: no interval of one window length lets
    * in more than 2 * limit - 1 requests of a sliding log. */
  lemma {:induction false} AlmostTwiceTheLimit(ttlMs: int, configs: Configs, calls: seq<Call>, key: string, from: int)
    requires AllValid(configs) && configs(key).SlidingLogConfig? && InOrder(calls)
    ensures LetInDuring(ttlMs, configs, calls, key, from) <= 2 * configs(key).limit - 1
  {
    hide Traced, Given, LetInBy, CountIn, StoreAfter, InOrder;
    if calls == [] {
      NothingLetIn(ttlMs, configs, key);
      assert CountIn([], from, from + configs(key).WindowMs()) == 0 by { CountNothing(from, configs(key).WindowMs()); }
    } else {
      var before, call := calls[..|calls| - 1], calls[|calls| - 1];
      assert calls == before + [call];
      InOrderSnoc(before, call);
      AlmostTwiceTheLimit(ttlMs, configs, before, key, from);
      AlmostTwiceSnoc(ttlMs, configs, before, call, key, from);
    }
  }

  lemma CountNothing(from: int, width: int)
    ensures CountIn([], from, from + width) == 0
  {
  }

  lemma AlmostTwiceSnoc(ttlMs: int, configs: Configs, before: seq<Call>, call: Call, key: string, from: int)
    requires AllValid(configs) && configs(key).SlidingLogConfig? && InOrder(before)
    requires before != [] ==> before[|before| - 1].nowMs <= call.nowMs
    requires LetInDuring(ttlMs, configs, before, key, from) <= 2 * configs(key).limit - 1
    ensures LetInDuring(ttlMs, configs, before + [call], key, from) <= 2 * configs(key).limit - 1
  {
    hide Traced, Given, LetInBy, CountIn, StoreAfter, InOrder;
    LetInSnoc(ttlMs, configs, before, call, key);
    if call.key == key && Given(ttlMs, configs, before, call).allowed {
      var t := TracedRun(ttlMs, configs, before, key, call.nowMs);
      CallWithin(ttlMs, configs, before, call, t, from);
    }
  }

  lemma CallWithin(ttlMs: int, configs: Configs, before: seq<Call>, call: Call, t: Trace, from: int)
    requires AllValid(configs) && configs(call.key).SlidingLogConfig? && (t.current == [] ==> t.past == [])
    requires Traced(StoreAfter(ttlMs, configs, before), configs(call.key), call.key,
                    LetInBy(ttlMs, configs, before, call.key), t, call.nowMs)
    requires Given(ttlMs, configs, before, call).allowed
    requires var c := configs(call.key);
             CountIn(LetInBy(ttlMs, configs, before, call.key), from, from + c.WindowMs()) <= 2 * c.limit - 1
    ensures var c := configs(call.key);
            CountIn(LetInBy(ttlMs, configs, before, call.key) + [call.nowMs], from, from + c.WindowMs())
            <= 2 * c.limit - 1
  {
    hide Fallback.Apply, Traced, CountIn, NonDecreasing;
    var (c, now, all) := (configs(call.key), call.nowMs, LetInBy(ttlMs, configs, before, call.key));
    var u := OwnCallTraced(ttlMs, StoreAfter(ttlMs, configs, before), c, call.key, all, t, now);
    CountInSnoc(all, now, from, from + c.WindowMs());
    if from <= now < from + c.WindowMs() {
      CountEndingAt(all, from, c.WindowMs(), now);
    }
  }

  // ----- the worst case is reached -----

  /** k calls for a key at one instant. */
  function CallsAt(key: string, now: int, k: nat): (calls: seq<Call>)
    ensures |calls| == k && forall i :: 0 <= i < k ==> calls[i] == Call(key, now)
  {
    seq(k, _ => Call(key, now))
  }

  /** The store holds a log of `events` for the key, until `expiresAt`. */
  ghost predicate Holding(
    ttlMs: int, configs: Configs, calls: seq<Call>, key: string, events: seq<int>, expiresAt: int)
    requires AllValid(configs)
  {
    var store := StoreAfter(ttlMs, configs, calls);
    && Kept(store, configs(key), key) == Some(LogState(events)) && ExpiryIn(store, configs(key), key) == expiresAt
  }

  /** A log with room, all of whose events count, lets a call in and is stored again. */
  lemma OneMore(ttlMs: int, configs: Configs, calls: seq<Call>, key: string, events: seq<int>, expiresAt: int, now: int)
    requires AllValid(configs) && configs(key).SlidingLogConfig?
    requires Holding(ttlMs, configs, calls, key, events, expiresAt)
    requires events != [] && NonDecreasing(events) && events[|events| - 1] <= now && |events| < configs(key).limit
    requires now - configs(key).WindowMs() < events[0] && now < expiresAt
    ensures var next := calls + [Call(key, now)];
            && Holding(ttlMs, configs, next, key, events + [now],
                       Max(events[0] + configs(key).WindowMs(), now + ttlMs))
            && LetInBy(ttlMs, configs, next, key) == LetInBy(ttlMs, configs, calls, key) + [now]
  {
    hide ApplyLive, Step, NonDecreasing, Evicted, LetInBy, StoreAfter, Kept;
    var (c, store) := (configs(key), StoreAfter(ttlMs, configs, calls));
    StoreSnoc(ttlMs, configs, calls, Call(key, now));
    LetInSnoc(ttlMs, configs, calls, Call(key, now), key);
    EvictedExpiry(store, c, key, now);
    ApplyOnKey(ttlMs, Evicted(store, now), c, key, now);
    RoomStep(c, events, now);
  }

  lemma RoomStep(c: Config, events: seq<int>, now: int)
    requires c.SlidingLogConfig? && c.Valid() && |events| < c.limit
    requires events != [] && NonDecreasing(events) && now - c.WindowMs() < events[0]
    ensures var (next, d) := Step(c, LogState(events), now);
            next == LogState(events + [now]) && d.allowed && d.resetAtMs == events[0] + c.WindowMs()
  {
    hide Step, Next, Admits, ActiveEvents, NonDecreasing;
    ActiveKeeps(events, now - c.WindowMs());
    LogStep(c, LogState(events), now);
    StepHalves(c, LogState(events), now);
    LogAnswer(c, LogState(events), now);
  }

  /** A key whose log has expired, or that never had one, starts a new log. */
  lemma NewLog(ttlMs: int, configs: Configs, calls: seq<Call>, key: string, now: int)
    requires AllValid(configs) && configs(key).SlidingLogConfig? && ttlMs >= 0
    requires var store := StoreAfter(ttlMs, configs, calls);
             Kept(store, configs(key), key).Some? ==> ExpiryIn(store, configs(key), key) <= now
    ensures var next := calls + [Call(key, now)];
            && Holding(ttlMs, configs, next, key, [now], Max(now + configs(key).WindowMs(), now + ttlMs))
            && LetInBy(ttlMs, configs, next, key) == LetInBy(ttlMs, configs, calls, key) + [now]
  {
    hide ApplyLive, Step, Next, Admits;
    var (c, store) := (configs(key), StoreAfter(ttlMs, configs, calls));
    StoreSnoc(ttlMs, configs, calls, Call(key, now));
    LetInSnoc(ttlMs, configs, calls, Call(key, now), key);
    EvictedExpiry(store, c, key, now);
    ApplyOnKey(ttlMs, Evicted(store, now), c, key, now);
    LoneEvent(c, now);
    StepHalves(c, Fresh, now);
    LoneAdmitted(c, now);
  }

  lemma LoneAdmitted(c: Config, now: int)
    requires c.SlidingLogConfig? && c.Valid()
    ensures Admits(c, Fresh, now)
  {
    LogStep(c, Fresh, now);
  }

  lemma {:induction false} FillUp(
    ttlMs: int, configs: Configs, calls: seq<Call>, key: string, events: seq<int>, expiresAt: int, now: int, k: nat)
    requires AllValid(configs) && configs(key).SlidingLogConfig?
    requires Holding(ttlMs, configs, calls, key, events, expiresAt)
    requires events != [] && NonDecreasing(events) && events[|events| - 1] <= now && |events| + k <= configs(key).limit
    requires now - configs(key).WindowMs() < events[0] && now < expiresAt
    ensures var next := calls + CallsAt(key, now, k);
            && Holding(ttlMs, configs, next, key, events + Copies(now, k),
                       if k == 0 then expiresAt else Max(events[0] + configs(key).WindowMs(), now + ttlMs))
            && LetInBy(ttlMs, configs, next, key) == LetInBy(ttlMs, configs, calls, key) + Copies(now, k)
    ensures NonDecreasing(events + Copies(now, k)) && (events + Copies(now, k))[|events| + k - 1] <= now
  {
    hide Holding, NonDecreasing, LetInBy;
    if k == 0 {
      assert calls + CallsAt(key, now, 0) == calls && events + Copies(now, 0) == events;
      assert LetInBy(ttlMs, configs, calls, key) + Copies(now, 0) == LetInBy(ttlMs, configs, calls, key);
    } else {
      FillUp(ttlMs, configs, calls, key, events, expiresAt, now, k - 1);
      var (earlier, held) := (calls + CallsAt(key, now, k - 1), events + Copies(now, k - 1));
      OneMore(ttlMs, configs, earlier, key, held,
              if k == 1 then expiresAt else Max(events[0] + configs(key).WindowMs(), now + ttlMs), now);
      CallsAtSnoc(calls, key, now, k);
      CopiesSnoc(events, now, k);
      CopiesSnoc(LetInBy(ttlMs, configs, calls, key), now, k);
      NonDecreasingSnoc(held, now);
    }
  }

  lemma CallsAtSnoc(calls: seq<Call>, key: string, now: int, k: nat)
    requires k > 0
    ensures calls + CallsAt(key, now, k) == calls + CallsAt(key, now, k - 1) + [Call(key, now)]
  {
  }

  lemma CopiesSnoc(s: seq<int>, now: int, k: nat)
    requires k > 0
    ensures s + Copies(now, k) == s + Copies(now, k - 1) + [now]
  {
  }

  lemma {:induction false} CallsAtInOrder(calls: seq<Call>, key: string, now: int, k: nat)
    requires InOrder(calls) && (calls != [] ==> calls[|calls| - 1].nowMs <= now)
    ensures InOrder(calls + CallsAt(key, now, k))
  {
    if k == 0 {
      assert calls + CallsAt(key, now, 0) == calls;
    } else {
      CallsAtInOrder(calls, key, now, k - 1);
      CallsAtSnoc(calls, key, now, k);
      InOrderSnoc(calls + CallsAt(key, now, k - 1), Call(key, now));
    }
  }

  /** What is let in within the window length that begins at `from`. */
  function LetInDuring(ttlMs: int, configs: Configs, calls: seq<Call>, key: string, from: int): nat
    requires AllValid(configs)
  {
    CountIn(LetInBy(ttlMs, configs, calls, key), from, from + configs(key).WindowMs())
  }

  /** One call, then limit - 1 a millisecond later: the log expires with its first event. */
  lemma FirstLog(ttlMs: int, configs: Configs, key: string) returns (calls: seq<Call>)
    requires AllValid(configs) && ttlMs >= 0 && ttlMs % 1000 == 0 && !EvictionSafe(configs(key), ttlMs)
    ensures var (w, n) := (configs(key).WindowMs(), configs(key).limit);
            && calls == [Call(key, 1)] + CallsAt(key, 2, n - 1)
            && Holding(ttlMs, configs, calls, key, [1] + Copies(2, n - 1), w + 1)
            && LetInBy(ttlMs, configs, calls, key) == [] + [1] + Copies(2, n - 1)
  {
    hide Holding, LetInBy, NonDecreasing, StoreAfter;
    var first := Call(key, 1);
    assert [] + [first] == [first];
    NothingHeld(ttlMs, configs, key);
    NewLog(ttlMs, configs, [], key, 1);
    LoneInOrder([1]);
    FillUp(ttlMs, configs, [first], key, [1], configs(key).WindowMs() + 1, 2, configs(key).limit - 1);
    calls := [first] + CallsAt(key, 2, configs(key).limit - 1);
    NothingLetIn(ttlMs, configs, key);
  }

  lemma NothingHeld(ttlMs: int, configs: Configs, key: string)
    requires AllValid(configs)
    ensures Kept(StoreAfter(ttlMs, configs, []), configs(key), key).None?
  {
  }

  /** When it has expired, `limit` more at that instant. */
  lemma SecondLog(ttlMs: int, configs: Configs, early: seq<Call>, key: string, events: seq<int>, now: int)
    returns (calls: seq<Call>)
    requires AllValid(configs) && configs(key).SlidingLogConfig? && ttlMs >= 0
    requires Holding(ttlMs, configs, early, key, events, now)
    ensures var n := configs(key).limit;
            && calls == early + [Call(key, now)] + CallsAt(key, now, n - 1)
            && LetInBy(ttlMs, configs, calls, key) ==
               LetInBy(ttlMs, configs, early, key) + [now] + Copies(now, n - 1)
  {
    hide Holding, LetInBy, NonDecreasing, StoreAfter;
    var (w, n) := (configs(key).WindowMs(), configs(key).limit);
    ExpiresThen(ttlMs, configs, early, key, events, now);
    NewLog(ttlMs, configs, early, key, now);
    LoneInOrder([now]);
    FillUp(ttlMs, configs, early + [Call(key, now)], key, [now], Max(now + w, now + ttlMs), now, n - 1);
    calls := early + [Call(key, now)] + CallsAt(key, now, n - 1);
  }

  /** For every unsafe sliding log: a run that lets in 2 * limit - 1 requests within one window. */
  lemma UnsafeLogExceeds(ttlMs: int, configs: Configs, key: string) returns (calls: seq<Call>)
    requires AllValid(configs) && ttlMs >= 0 && ttlMs % 1000 == 0 && !EvictionSafe(configs(key), ttlMs)
    ensures InOrder(calls) && (forall call :: call in calls ==> call.key == key)
    ensures LetInDuring(ttlMs, configs, calls, key, 2) == 2 * configs(key).limit - 1
  {
    hide Holding, LetInBy, NonDecreasing, InOrder, CountIn, StoreAfter;
    var (w, n) := (configs(key).WindowMs(), configs(key).limit);
    var early := FirstLog(ttlMs, configs, key);
    calls := SecondLog(ttlMs, configs, early, key, [1] + Copies(2, n - 1), w + 1);
    CountLetIn(n, w);
    ThreeBursts(key, w, n);
  }

  lemma NothingLetIn(ttlMs: int, configs: Configs, key: string)
    requires AllValid(configs)
    ensures LetInBy(ttlMs, configs, [], key) == []
  {
  }

  lemma ExpiresThen(
    ttlMs: int, configs: Configs, calls: seq<Call>, key: string, events: seq<int>, expiresAt: int)
    requires AllValid(configs) && Holding(ttlMs, configs, calls, key, events, expiresAt)
    ensures Kept(StoreAfter(ttlMs, configs, calls), configs(key), key).Some?
    ensures ExpiryIn(StoreAfter(ttlMs, configs, calls), configs(key), key) == expiresAt
  {
  }

  lemma LoneInOrder(s: seq<int>)
    requires |s| == 1
    ensures NonDecreasing(s)
  {
  }

  lemma CountLetIn(n: nat, w: int)
    requires n >= 2 && w >= 1000
    ensures CountIn([] + [1] + Copies(2, n - 1) + [w + 1] + Copies(w + 1, n - 1), 2, 2 + w) == 2 * n - 1
  {
    var s := [] + [1] + Copies(2, n - 1);
    CountInSnoc([], 1, 2, 2 + w);
    CountConcat([] + [1], Copies(2, n - 1), 2, 2 + w);
    CountCopies(2, n - 1, 2, 2 + w);
    CountInSnoc(s, w + 1, 2, 2 + w);
    CountConcat(s + [w + 1], Copies(w + 1, n - 1), 2, 2 + w);
    CountCopies(w + 1, n - 1, 2, 2 + w);
  }

  lemma ThreeBursts(key: string, w: int, n: nat)
    requires n >= 1 && w >= 1
    ensures var calls := [Call(key, 1)] + CallsAt(key, 2, n - 1) + [Call(key, w + 1)] + CallsAt(key, w + 1, n - 1);
            InOrder(calls) && forall call :: call in calls ==> call.key == key
  {
    var early := [Call(key, 1)] + CallsAt(key, 2, n - 1);
    CallsAtInOrder([Call(key, 1)], key, 2, n - 1);
    InOrderSnoc(early, Call(key, w + 1));
    CallsAtInOrder(early + [Call(key, w + 1)], key, w + 1, n - 1);
  }

  /** Whatever runs, no interval of one window length lets in more than the limit. */
  ghost predicate WithinLimit(ttlMs: int, configs: Configs, key: string)
    requires AllValid(configs) && configs(key).SlidingLogConfig?
  {
    forall calls, from :: InOrder(calls) ==> LetInDuring(ttlMs, configs, calls, key, from) <= configs(key).limit
  }

  /** The fallback limiter keeps a sliding log's limit exactly when its eviction is safe: a limit of
    * one, or a window no longer than the time to live. */
  lemma LimitKeptExactlyWhenSafe(ttlMs: int, configs: Configs, key: string)
    requires AllValid(configs) && configs(key).SlidingLogConfig? && ttlMs >= 0 && ttlMs % 1000 == 0
    ensures WithinLimit(ttlMs, configs, key) <==> EvictionSafe(configs(key), ttlMs)
  {
    hide LetInBy, Admits, Next, CountIn;
    if EvictionSafe(configs(key), ttlMs) {
      forall calls, from | InOrder(calls)
        ensures LetInDuring(ttlMs, configs, calls, key, from) <= configs(key).limit
      {
        LetInWhenSafe(ttlMs, configs, calls, key);
        TimesInOrder(calls, key);
        EveryIntervalWithinLimit(configs(key), TimesOf(calls, key), from);
      }
    } else {
      var calls := UnsafeLogExceeds(ttlMs, configs, key);
      assert LetInDuring(ttlMs, configs, calls, key, 2) > configs(key).limit;
    }
  }
}
