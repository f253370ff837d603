/** Eviction and other keys make no difference to the answers of the fallback limiter, except for
  * sliding logs whose window outlasts the state's time to live. */
module FallbackRuns {
  import opened Arith
  import opened Limiters
  import opened SlidingLogRuns
  import opened TokenBucketRuns
  import opened Answers
  import opened Keyed
  import opened Fallback

  /** What the store holds for `key`, as a limiter state. */
  function Kept(store: Store, c: Config, key: string): (kept: Option<State>)
    ensures kept.Some? ==> Fits(c, kept.value) && !kept.value.Fresh?
  {
    match c
    case FixedWindowConfig(_, _) =>
      if key in store.fixedWindows then Some(FixedState(store.fixedWindows[key].value)) else None
    case SlidingLogConfig(_, _) =>
      if key in store.slidingWindows then Some(LogState(store.slidingWindows[key].value)) else None
    case TokenBucketConfig(_, _, _) =>
      if key in store.tokenBuckets then Some(BucketState(store.tokenBuckets[key].value)) else None
  }

  function ExpiryIn(store: Store, c: Config, key: string): int
    requires Kept(store, c, key).Some?
  {
    match c
    case FixedWindowConfig(_, _) => store.fixedWindows[key].expiresAtMs
    case SlidingLogConfig(_, _) => store.slidingWindows[key].expiresAtMs
    case TokenBucketConfig(_, _, _) => store.tokenBuckets[key].expiresAtMs
  }

  function StoreAfter(ttlMs: int, configs: Configs, calls: seq<Call>): Store
    requires AllValid(configs)
  {
    if calls == [] then EmptyStore
    else
      var call := calls[|calls| - 1];
      Apply(ttlMs, StoreAfter(ttlMs, configs, calls[..|calls| - 1]), configs(call.key), call.key, call.nowMs).0
  }

  /** What the limiter answers to `call` after `calls`. */
  function Given(ttlMs: int, configs: Configs, calls: seq<Call>, call: Call): Computation
    requires AllValid(configs)
  {
    Apply(ttlMs, StoreAfter(ttlMs, configs, calls), configs(call.key), call.key, call.nowMs).1
  }

  predicate EvictionSafe(c: Config, ttlMs: int) {
    c.SlidingLogConfig? ==> c.limit == 1 || c.WindowMs() <= ttlMs
  }

  // ----- one call -----

  lemma ApplyOnKey(ttlMs: int, live: Store, c: Config, key: string, now: int)
    requires c.Valid()
    ensures var s := if Kept(live, c, key).Some? then Kept(live, c, key).value else Fresh;
            var (store, d) := ApplyLive(ttlMs, live, c, key, now);
            && d == Step(c, s, now).1
            && Kept(store, c, key) == Some(Step(c, s, now).0)
            && ExpiryIn(store, c, key) == ExpiryOf(c, ttlMs, Step(c, s, now).0, d, now)
  {
  }

  lemma ApplyOffKey(ttlMs: int, live: Store, c: Config, key: string, now: int, c': Config, other: string)
    requires c.Valid() && other != key
    ensures var store := ApplyLive(ttlMs, live, c, key, now).0;
            && Kept(store, c', other) == Kept(live, c', other)
            && (Kept(store, c', other).Some? ==> ExpiryIn(store, c', other) == ExpiryIn(live, c', other))
  {
  }

  ghost predicate Holds(store: Store, c: Config, ref: State, key: string, now: int)
    requires c.Valid() && Fits(c, ref)
  {
    var kept := Kept(store, c, key);
    Keeps(c, ref, kept, if kept.Some? then ExpiryIn(store, c, key) else 0, now)
  }

  lemma EvictedHolds(store: Store, c: Config, ref: State, key: string, now: int)
    requires c.Valid() && Fits(c, ref) && Holds(store, c, ref, key, now)
    ensures Holds(Evicted(store, now), c, ref, key, now)
  {
    if Kept(store, c, key).Some? && ExpiryIn(store, c, key) <= now {
      IdleLater(c, ref, ExpiryIn(store, c, key), now);
    }
  }

  lemma HoldsLater(store: Store, c: Config, ref: State, key: string, now: int, later: int)
    requires c.Valid() && Fits(c, ref) && Holds(store, c, ref, key, now) && now <= later
    ensures Holds(store, c, ref, key, later)
  {
    if Kept(store, c, key).None? {
      IdleLater(c, ref, now, later);
    }
  }

  lemma ExpiresIdle(ttlMs: int, c: Config, s: State, at: int, now: int)
    requires c.Valid() && Fits(c, s) && Reached(c, s, at) && (s.Fresh? || at <= now)
    requires ttlMs >= 0 && EvictionSafe(c, ttlMs)
    ensures Idle(c, Next(c, s, now), ExpiryOf(c, ttlMs, Next(c, s, now), Step(c, s, now).1, now))
  {
    var expiresAt := ExpiryOf(c, ttlMs, Next(c, s, now), Step(c, s, now).1, now);
    match c {
      case FixedWindowConfig(_, _) =>
        FixedIdleAtReset(c, s, at, now);
        IdleLater(c, Next(c, s, now), Step(c, s, now).1.resetAtMs, expiresAt);
      case SlidingLogConfig(_, _) =>
        LogIdle(c, s, at, now, expiresAt);
      case TokenBucketConfig(_, _, _) =>
        BucketIdleWhenFull(c, s, at, now, expiresAt);
    }
  }

  /** A call for the key itself is answered as if nothing had ever been evicted. */
  lemma OwnCall(ttlMs: int, store: Store, c: Config, ref: State, at: int, key: string, now: int)
    requires c.Valid() && Fits(c, ref) && Reached(c, ref, at) && (ref.Fresh? || at <= now)
    requires ttlMs >= 0 && EvictionSafe(c, ttlMs) && Holds(store, c, ref, key, now)
    ensures Apply(ttlMs, store, c, key, now).1 == Step(c, ref, now).1
    ensures Holds(Apply(ttlMs, store, c, key, now).0, c, Next(c, ref, now), key, now)
  {
    var live := Evicted(store, now);
    EvictedHolds(store, c, ref, key, now);
    ApplyOnKey(ttlMs, live, c, key, now);
    var kept := Kept(live, c, key);
    KeepsAnswers(c, ref, kept, if kept.Some? then ExpiryIn(live, c, key) else 0, now);
    StepHalves(c, ref, now);
    ExpiresIdle(ttlMs, c, ref, at, now);
  }

  /** A call for another key leaves this one's state alone, up to eviction. */
  lemma OtherCall(ttlMs: int, store: Store, c: Config, ref: State, key: string, c': Config, key': string, now: int)
    requires c.Valid() && c'.Valid() && key != key' && Fits(c, ref) && Holds(store, c, ref, key, now)
    ensures Holds(Apply(ttlMs, store, c', key', now).0, c, ref, key, now)
  {
    EvictedHolds(store, c, ref, key, now);
    ApplyOffKey(ttlMs, Evicted(store, now), c', key', now, c, key);
  }

  // ----- whole runs -----

  lemma {:induction false} RunHolds(ttlMs: int, configs: Configs, calls: seq<Call>, key: string, now: int)
    requires AllValid(configs) && InOrder(calls) && (calls != [] ==> calls[|calls| - 1].nowMs <= now)
    requires ttlMs >= 0 && EvictionSafe(configs(key), ttlMs)
    ensures Holds(StoreAfter(ttlMs, configs, calls), configs(key), StateOf(configs, calls, key), key, now)
  {
    if calls != [] {
      var before, call := calls[..|calls| - 1], calls[|calls| - 1];
      assert calls == before + [call];
      InOrderSnoc(before, call);
      RunHolds(ttlMs, configs, before, key, call.nowMs);
      RunHoldsSnoc(ttlMs, configs, before, call, key);
      HoldsLater(StoreAfter(ttlMs, configs, calls), configs(key), StateOf(configs, calls, key), key, call.nowMs, now);
    }
  }

  lemma RunHoldsSnoc(ttlMs: int, configs: Configs, before: seq<Call>, call: Call, key: string)
    requires AllValid(configs) && InOrder(before + [call]) && ttlMs >= 0 && EvictionSafe(configs(key), ttlMs)
    requires Holds(StoreAfter(ttlMs, configs, before), configs(key), StateOf(configs, before, key), key, call.nowMs)
    ensures Holds(StoreAfter(ttlMs, configs, before + [call]), configs(key),
                  StateOf(configs, before + [call], key), key, call.nowMs)
  {
    assert (before + [call])[..|before|] == before;
    StateOfSnoc(configs, before, call, key);
    var store := StoreAfter(ttlMs, configs, before);
    if call.key == key {
      var at := KeyReached(configs, before, call);
      OwnCall(ttlMs, store, configs(key), StateOf(configs, before, key), at, key, call.nowMs);
    } else {
      OtherCall(ttlMs, store, configs(key), StateOf(configs, before, key), key, configs(call.key), call.key,
                call.nowMs);
    }
  }

  lemma KeyReached(configs: Configs, before: seq<Call>, call: Call) returns (at: int)
    requires AllValid(configs) && InOrder(before + [call])
    ensures var s := StateOf(configs, before, call.key);
            Reached(configs(call.key), s, at) && (s.Fresh? || at <= call.nowMs)
  {
    NextInOrder(before, call);
    at := BeforeAndAfter(configs(call.key), TimesOf(before, call.key), call.nowMs);
  }

  /** Over any interleaving of any keys and algorithms, each answer is the one due from its key's
    * own calls, with nothing evicted; only the key's own configuration has to be safe. */
  lemma EvictionTransparent(ttlMs: int, configs: Configs, calls: seq<Call>, call: Call)
    requires AllValid(configs) && InOrder(calls + [call]) && ttlMs >= 0 && EvictionSafe(configs(call.key), ttlMs)
    ensures Given(ttlMs, configs, calls, call) == Due(configs, calls, call)
  {
    InOrderSnoc(calls, call);
    RunHolds(ttlMs, configs, calls, call.key, call.nowMs);
    var at := KeyReached(configs, calls, call);
    OwnCall(ttlMs, StoreAfter(ttlMs, configs, calls), configs(call.key), StateOf(configs, calls, call.key), at,
            call.key, call.nowMs);
  }

  /** When the limiter let calls for `key` in. */
  function LetInBy(ttlMs: int, configs: Configs, calls: seq<Call>, key: string): (times: seq<int>)
    requires AllValid(configs)
  {
    if calls == [] then []
    else
      var before, call := calls[..|calls| - 1], calls[|calls| - 1];
      var earlier := LetInBy(ttlMs, configs, before, key);
      if call.key == key && Given(ttlMs, configs, before, call).allowed then earlier + [call.nowMs] else earlier
  }

  lemma LetInSnoc(ttlMs: int, configs: Configs, calls: seq<Call>, call: Call, key: string)
    requires AllValid(configs)
    ensures LetInBy(ttlMs, configs, calls + [call], key) ==
            if call.key == key && Given(ttlMs, configs, calls, call).allowed
            then LetInBy(ttlMs, configs, calls, key) + [call.nowMs] else LetInBy(ttlMs, configs, calls, key)
  {
    hide Given;
    assert (calls + [call])[..|calls|] == calls;
  }

  lemma NobodyLetIn(ttlMs: int, configs: Configs, key: string)
    requires AllValid(configs)
    ensures LetInBy(ttlMs, configs, [], key) == [] && Admitted(configs(key), TimesOf([], key)) == []
  {
  }

  /** If its configuration is safe, what a key is let in by the store is what the algorithm alone
    * admits. */
  lemma {:induction false} LetInWhenSafe(ttlMs: int, configs: Configs, calls: seq<Call>, key: string)
    requires AllValid(configs) && InOrder(calls) && ttlMs >= 0 && EvictionSafe(configs(key), ttlMs)
    ensures LetInBy(ttlMs, configs, calls, key) == Admitted(configs(key), TimesOf(calls, key))
  {
    hide Given, Admits, Next, EvictionSafe, LetInBy, TimesOf, Admitted, After, InOrder;
    if calls == [] {
      NobodyLetIn(ttlMs, configs, key);
    } else {
      var before, call := calls[..|calls| - 1], calls[|calls| - 1];
      assert calls == before + [call];
      InOrderSnoc(before, call);
      LetInWhenSafe(ttlMs, configs, before, key);
      LetInSnoc(ttlMs, configs, before, call, key);
      TimesOfSnoc(before, call, key);
      if call.key == key {
        EvictionTransparent(ttlMs, configs, before, call);
        AfterSnoc(configs(key), TimesOf(before, key), call.nowMs);
      }
    }
  }

  // ----- the exact condition -----

  ghost predicate Transparent(ttlMs: int, configs: Configs)
    requires AllValid(configs)
  {
    forall calls, call :: InOrder(calls + [call]) ==> Given(ttlMs, configs, calls, call) == Due(configs, calls, call)
  }

  /** A state that is evicted while its second event still counts: the log forgets that event. */
  lemma ForgottenEvent(ttlMs: int, configs: Configs, key: string) returns (calls: seq<Call>, call: Call)
    requires AllValid(configs) && ttlMs >= 0 && ttlMs % 1000 == 0 && !EvictionSafe(configs(key), ttlMs)
    ensures InOrder(calls + [call]) && call.key == key
    ensures Given(ttlMs, configs, calls, call).remaining == Due(configs, calls, call).remaining + 1
  {
    var c := configs(key);
    var w := c.WindowMs();
    var first, second := Call(key, 1), Call(key, 2);
    call := Call(key, w + 1);
    calls := [first] + [second];
    InOrderSnoc([first], second);
    InOrderSnoc(calls, call);
    TwoEventsStored(ttlMs, configs, key);
    var store := StoreAfter(ttlMs, configs, calls);
    ApplyOnKey(ttlMs, Evicted(store, w + 1), c, key, w + 1);
    LoneEvent(c, w + 1);
    TwoEventsDue(configs, key);
  }

  lemma LoneEvent(c: Config, now: int)
    requires c.SlidingLogConfig? && c.Valid()
    ensures Step(c, Fresh, now).1.remaining == c.limit - 1
    ensures Step(c, Fresh, now).0 == LogState([now]) && Step(c, Fresh, now).1.resetAtMs == now + c.WindowMs()
  {
    assert [] + [now] == [now];
  }

  lemma SecondEvent(c: Config)
    requires c.SlidingLogConfig? && c.Valid() && c.limit >= 2
    ensures Step(c, LogState([1]), 2).0 == LogState([1, 2])
    ensures Step(c, LogState([1]), 2).1.resetAtMs == 1 + c.WindowMs()
  {
    ActiveSnoc([], 1, 2 - c.WindowMs());
    assert [] + [1] == [1] && [1] + [2] == [1, 2];
  }

  lemma StoreSnoc(ttlMs: int, configs: Configs, calls: seq<Call>, call: Call)
    requires AllValid(configs)
    ensures StoreAfter(ttlMs, configs, calls + [call]) ==
            ApplyLive(ttlMs, Evicted(StoreAfter(ttlMs, configs, calls), call.nowMs), configs(call.key),
                      call.key, call.nowMs).0
  {
    assert (calls + [call])[..|calls|] == calls;
  }

  lemma TwoEventsStored(ttlMs: int, configs: Configs, key: string)
    requires AllValid(configs) && ttlMs >= 0 && ttlMs % 1000 == 0 && !EvictionSafe(configs(key), ttlMs)
    ensures var c := configs(key);
            var store := StoreAfter(ttlMs, configs, [Call(key, 1)] + [Call(key, 2)]);
            Kept(store, c, key).Some? && ExpiryIn(store, c, key) == c.WindowMs() + 1
  {
    var c := configs(key);
    hide ApplyLive, Step;
    var first, second := Call(key, 1), Call(key, 2);
    assert [] + [first] == [first];
    StoreSnoc(ttlMs, configs, [], first);
    ApplyOnKey(ttlMs, Evicted(EmptyStore, 1), c, key, 1);
    LoneEvent(c, 1);
    StoreSnoc(ttlMs, configs, [first], second);
    SecondEventStored(ttlMs, c, StoreAfter(ttlMs, configs, [first]), key);
  }

  lemma SecondEventStored(ttlMs: int, c: Config, store: Store, key: string)
    requires c.Valid() && ttlMs >= 0 && ttlMs % 1000 == 0 && !EvictionSafe(c, ttlMs)
    requires Kept(store, c, key) == Some(LogState([1])) && ExpiryIn(store, c, key) == c.WindowMs() + 1
    ensures var next := ApplyLive(ttlMs, Evicted(store, 2), c, key, 2).0;
            Kept(next, c, key).Some? && ExpiryIn(next, c, key) == c.WindowMs() + 1
  {
    ApplyOnKey(ttlMs, Evicted(store, 2), c, key, 2);
    SecondEvent(c);
  }

  lemma TwoEventsDue(configs: Configs, key: string)
    requires AllValid(configs) && configs(key).SlidingLogConfig? && configs(key).limit >= 2
    ensures var c := configs(key);
            Due(configs, [Call(key, 1)] + [Call(key, 2)], Call(key, c.WindowMs() + 1)).remaining == c.limit - 2
  {
    TwoTimes(key);
    TwoEventsState(configs(key));
    ThirdEvent(configs(key));
  }

  lemma TwoTimes(key: string)
    ensures TimesOf([Call(key, 1)] + [Call(key, 2)], key) == [] + [1] + [2]
  {
    assert [] + [Call(key, 1)] == [Call(key, 1)];
    TimesOfSnoc([], Call(key, 1), key);
    TimesOfSnoc([Call(key, 1)], Call(key, 2), key);
  }

  lemma TwoEventsState(c: Config)
    requires c.SlidingLogConfig? && c.Valid() && c.limit >= 2
    ensures After(c, [] + [1] + [2]) == LogState([1, 2])
  {
    AfterSnoc(c, [], 1);
    AfterSnoc(c, [] + [1], 2);
    LoneEvent(c, 1);
    StepHalves(c, Fresh, 1);
    SecondEvent(c);
    StepHalves(c, LogState([1]), 2);
  }

  lemma ThirdEvent(c: Config)
    requires c.SlidingLogConfig? && c.Valid() && c.limit >= 2
    ensures Step(c, LogState([1, 2]), c.WindowMs() + 1).1.remaining == c.limit - 2
  {
    ActiveSnoc([], 1, 1);
    ActiveSnoc([] + [1], 2, 1);
    assert [] + [1] + [2] == [1, 2];
    assert |ActiveEvents([1, 2], 1)| == 1;
  }

  /** Eviction never shows, on any run whatever, exactly when each sliding log either admits one
    * request per window or has a window no longer than the time to live. */
  lemma TransparentExactlyWhenSafe(ttlMs: int, configs: Configs)
    requires AllValid(configs) && ttlMs >= 0 && ttlMs % 1000 == 0
    ensures Transparent(ttlMs, configs) <==> forall key :: EvictionSafe(configs(key), ttlMs)
  {
    if forall key :: EvictionSafe(configs(key), ttlMs) {
      forall calls, call | InOrder(calls + [call])
        ensures Given(ttlMs, configs, calls, call) == Due(configs, calls, call)
      {
        EvictionTransparent(ttlMs, configs, calls, call);
      }
    } else {
      var key :| !EvictionSafe(configs(key), ttlMs);
      var calls, call := ForgottenEvent(ttlMs, configs, key);
    }
  }

  // ----- what an answer remembers, safe or not -----

  function StateOrFresh(kept: Option<State>): State {
    if kept.Some? then kept.value else Fresh
  }

  /** What the store holds for `key` is due to the calls from the m-th on. */
  ghost predicate RemembersFrom(ttlMs: int, configs: Configs, calls: seq<Call>, key: string, m: nat)
    requires AllValid(configs) && m <= |calls|
  {
    StateOrFresh(Kept(StoreAfter(ttlMs, configs, calls), configs(key), key)) == StateOf(configs, calls[m..], key)
  }

  lemma EvictedOrKept(store: Store, c: Config, key: string, now: int)
    ensures Kept(Evicted(store, now), c, key) == Kept(store, c, key) || Kept(Evicted(store, now), c, key) == None
  {
  }

  lemma RemembersSnoc(ttlMs: int, configs: Configs, before: seq<Call>, call: Call, key: string, m: nat)
    requires AllValid(configs) && m <= |before|
    requires StateOrFresh(Kept(Evicted(StoreAfter(ttlMs, configs, before), call.nowMs), configs(key), key)) ==
             StateOf(configs, before[m..], key)
    ensures RemembersFrom(ttlMs, configs, before + [call], key, m)
  {
    hide Evicted, Kept;
    assert (before + [call])[..|before|] == before;
    assert (before + [call])[m..] == before[m..] + [call];
    var live := Evicted(StoreAfter(ttlMs, configs, before), call.nowMs);
    StateOfSnoc(configs, before[m..], call, key);
    if call.key == key {
      ApplyOnKey(ttlMs, live, configs(key), key, call.nowMs);
      StepHalves(configs(key), StateOrFresh(Kept(live, configs(key), key)), call.nowMs);
    } else {
      ApplyOffKey(ttlMs, live, configs(call.key), call.key, call.nowMs, configs(key), key);
    }
  }

  lemma {:induction false} Remembers(ttlMs: int, configs: Configs, calls: seq<Call>, key: string) returns (m: nat)
    requires AllValid(configs)
    ensures m <= |calls| && RemembersFrom(ttlMs, configs, calls, key, m)
  {
    hide Evicted, Kept;
    if calls == [] {
      m := 0;
      NothingKept(configs(key), key);
    } else {
      var before, call := calls[..|calls| - 1], calls[|calls| - 1];
      assert calls == before + [call];
      m := Remembers(ttlMs, configs, before, key);
      m := SinceForgotten(ttlMs, configs, before, key, call.nowMs, m);
      RemembersSnoc(ttlMs, configs, before, call, key, m);
    }
  }

  lemma NothingKept(c: Config, key: string)
    ensures Kept(EmptyStore, c, key) == None
  {
  }

  /** Either the state is still there at `now`, or the memory starts anew. */
  lemma SinceForgotten(ttlMs: int, configs: Configs, calls: seq<Call>, key: string, now: int, m: nat)
    returns (m': nat)
    requires AllValid(configs) && m <= |calls| && RemembersFrom(ttlMs, configs, calls, key, m)
    ensures m' <= |calls|
    ensures StateOrFresh(Kept(Evicted(StoreAfter(ttlMs, configs, calls), now), configs(key), key)) ==
            StateOf(configs, calls[m'..], key)
  {
    hide Evicted, Kept;
    var store := StoreAfter(ttlMs, configs, calls);
    EvictedOrKept(store, configs(key), key, now);
    m' := if Kept(Evicted(store, now), configs(key), key) == Kept(store, configs(key), key) then m else |calls|;
  }

  /** For any configuration: each answer is the one due from the key's calls since its state was last
    * forgotten; and, if the configuration is safe, from all of them. */
  lemma DueSinceForgotten(ttlMs: int, configs: Configs, calls: seq<Call>, call: Call) returns (m: nat)
    requires AllValid(configs) && InOrder(calls + [call]) && ttlMs >= 0
    ensures m <= |calls| && Given(ttlMs, configs, calls, call) == Due(configs, calls[m..], call)
    ensures EvictionSafe(configs(call.key), ttlMs) ==> m == 0
  {
    hide Evicted, Kept;
    if EvictionSafe(configs(call.key), ttlMs) {
      m := 0;
      assert calls[0..] == calls;
      EvictionTransparent(ttlMs, configs, calls, call);
    } else {
      m := Remembers(ttlMs, configs, calls, call.key);
      m := SinceForgotten(ttlMs, configs, calls, call.key, call.nowMs, m);
      ApplyOnKey(ttlMs, Evicted(StoreAfter(ttlMs, configs, calls), call.nowMs), configs(call.key), call.key,
                 call.nowMs);
    }
  }
}
