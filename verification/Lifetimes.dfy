/** How long states live: neither the fallback limiter nor Redis keeps the state of a key for longer
  * than a bounded time after its last request, and the limiter never drops one that is recent. */
module Lifetimes {
  import opened Arith
  import opened Limiters
  import opened SlidingLogRuns
  import opened TokenBucketRuns
  import opened Answers
  import opened Keyed
  import opened Fallback
  import opened FallbackRuns
  import opened RedisScripts
  import opened ScriptRuns

  function Last(times: seq<int>): int
    requires times != []
  {
    times[|times| - 1]
  }

  // ----- the fallback limiter -----

  /** The longest that a state is kept after a request. */
  function Longest(c: Config, ttlMs: int): int
    requires c.Valid()
  {
    match c
    case FixedWindowConfig(_, seconds) => Max(seconds * 1000, ttlMs)
    case SlidingLogConfig(_, seconds) => Max(seconds * 1000, ttlMs)
    case TokenBucketConfig(capacity, rate, seconds) => CeilDiv(capacity * (seconds * 1000), rate) + ttlMs
  }

  lemma FixedExpiry(c: Config, ttlMs: int, s: State, now: int)
    requires c.FixedWindowConfig? && c.Valid() && Fits(c, s) && ttlMs >= 1000
    ensures now + ttlMs <= ExpiryOf(c, ttlMs, Next(c, s, now), Step(c, s, now).1, now) <= now + Longest(c, ttlMs)
  {
  }

  lemma LogExpiry(c: Config, ttlMs: int, s: State, at: int, now: int)
    requires c.SlidingLogConfig? && c.Valid() && Fits(c, s) && Reached(c, s, at) && (s.Fresh? || at <= now)
    requires ttlMs >= 1000
    ensures now + ttlMs <= ExpiryOf(c, ttlMs, Next(c, s, now), Step(c, s, now).1, now) <= now + Longest(c, ttlMs)
  {
    hide Step, Next, ActiveEvents, Recent;
    LogAnswer(c, s, now);
    NextReached(c, s, at, now);
    var events := Next(c, s, now).events;
    AllUpToLast(events);
    assert events != [] ==> events[0] in events;
  }

  lemma BucketExpiry(c: Config, ttlMs: int, s: State, at: int, now: int)
    requires c.TokenBucketConfig? && c.Valid() && Fits(c, s) && Reached(c, s, at) && (s.Fresh? || at <= now)
    requires ttlMs >= 1000
    ensures now + ttlMs <= ExpiryOf(c, ttlMs, Next(c, s, now), Step(c, s, now).1, now) <= now + Longest(c, ttlMs)
  {
    hide Step, Next;
    NextReached(c, s, at, now);
    var left := Next(c, s, now).bucket.tokens;
    CeilDivLeast(Full(c) - left, c.rate, CeilDiv(Full(c), c.rate));
    CeilDivLeast(Full(c) - left, c.rate, -1);
    assert -1 * c.rate < 0;
  }

  lemma ExpiryInRange(c: Config, ttlMs: int, s: State, at: int, now: int)
    requires c.Valid() && Fits(c, s) && Reached(c, s, at) && (s.Fresh? || at <= now) && ttlMs >= 1000
    ensures now + ttlMs <= ExpiryOf(c, ttlMs, Next(c, s, now), Step(c, s, now).1, now) <= now + Longest(c, ttlMs)
  {
    hide Step, Next, Longest, ExpiryOf;
    match c {
      case FixedWindowConfig(_, _) => FixedExpiry(c, ttlMs, s, now);
      case SlidingLogConfig(_, _) => LogExpiry(c, ttlMs, s, at, now);
      case TokenBucketConfig(_, _, _) => BucketExpiry(c, ttlMs, s, at, now);
    }
  }

  /** What holds of a key's state: it expires within those bounds after the key's last call; and if it
    * is gone, its time had come. */
  ghost predicate Lives(ttlMs: int, configs: Configs, calls: seq<Call>, store: Store, key: string, now: int)
    requires AllValid(configs)
  {
    var (c, times) := (configs(key), TimesOf(calls, key));
    && (Kept(store, c, key).Some? ==>
          times != [] && Last(times) + ttlMs <= ExpiryIn(store, c, key) <= Last(times) + Longest(c, ttlMs))
    && (Kept(store, c, key).None? && times != [] ==> Last(times) + ttlMs <= now)
  }

  lemma LivesEvicted(ttlMs: int, configs: Configs, calls: seq<Call>, store: Store, key: string, now: int, later: int)
    requires AllValid(configs) && Lives(ttlMs, configs, calls, store, key, now) && now <= later
    ensures Lives(ttlMs, configs, calls, Evicted(store, later), key, later)
    ensures Kept(Evicted(store, later), configs(key), key).Some? ==>
              ExpiryIn(Evicted(store, later), configs(key), key) > later
  {
    hide TimesOf, Longest;
  }

  lemma OwnReached(ttlMs: int, configs: Configs, before: seq<Call>, call: Call) returns (at: int)
    requires AllValid(configs) && InOrder(before + [call])
    ensures var s := StateOrFresh(Kept(Evicted(StoreAfter(ttlMs, configs, before), call.nowMs),
                                       configs(call.key), call.key));
            && Fits(configs(call.key), s)
            && Reached(configs(call.key), s, at) && (s.Fresh? || at <= call.nowMs)
  {
    hide TimesOf, Evicted, Kept, Reached, StoreAfter, InOrder, RemembersFrom;
    var m := Remembers(ttlMs, configs, before, call.key);
    m := SinceForgotten(ttlMs, configs, before, call.key, call.nowMs, m);
    SuffixInOrder(before + [call], m);
    assert (before + [call])[m..] == before[m..] + [call];
    at := KeyReached(configs, before[m..], call);
  }

  lemma OwnExpiry(ttlMs: int, configs: Configs, before: seq<Call>, call: Call)
    requires AllValid(configs) && InOrder(before + [call]) && ttlMs >= 1000
    ensures var (c, store) := (configs(call.key), StoreAfter(ttlMs, configs, before + [call]));
            && Kept(store, c, call.key).Some?
            && call.nowMs + ttlMs <= ExpiryIn(store, c, call.key) <= call.nowMs + Longest(c, ttlMs)
  {
    hide Longest, Evicted, Kept, ExpiryIn, ApplyLive, ExpiryOf, Reached, InOrder, Step, Next;
    var (c, key, now) := (configs(call.key), call.key, call.nowMs);
    assert (before + [call])[..|before|] == before;
    var live := Evicted(StoreAfter(ttlMs, configs, before), now);
    var at := OwnReached(ttlMs, configs, before, call);
    var s := StateOrFresh(Kept(live, c, key));
    ApplyOnKey(ttlMs, live, c, key, now);
    StepHalves(c, s, now);
    ExpiryInRange(c, ttlMs, s, at, now);
  }

  lemma LivesOwn(ttlMs: int, configs: Configs, before: seq<Call>, call: Call)
    requires AllValid(configs) && InOrder(before + [call]) && ttlMs >= 1000
    ensures Lives(ttlMs, configs, before + [call], StoreAfter(ttlMs, configs, before + [call]), call.key, call.nowMs)
  {
    hide TimesOf, Longest, StoreAfter, Kept, ExpiryIn, InOrder;
    TimesOfSnoc(before, call, call.key);
    OwnExpiry(ttlMs, configs, before, call);
  }

  lemma LivesOther(ttlMs: int, configs: Configs, before: seq<Call>, call: Call, key: string, last: int)
    requires AllValid(configs) && call.key != key && last <= call.nowMs
    requires Lives(ttlMs, configs, before, StoreAfter(ttlMs, configs, before), key, last)
    ensures Lives(ttlMs, configs, before + [call], StoreAfter(ttlMs, configs, before + [call]), key, call.nowMs)
  {
    hide TimesOf, Longest, Evicted, Kept, ExpiryIn, ApplyLive;
    assert (before + [call])[..|before|] == before;
    TimesOfSnoc(before, call, key);
    var store := StoreAfter(ttlMs, configs, before);
    LivesEvicted(ttlMs, configs, before, store, key, last, call.nowMs);
    ApplyOffKey(ttlMs, Evicted(store, call.nowMs), configs(call.key), call.key, call.nowMs, configs(key), key);
  }

  lemma {:induction false} RunLives(ttlMs: int, configs: Configs, calls: seq<Call>, key: string)
    requires AllValid(configs) && InOrder(calls) && ttlMs >= 1000 && calls != []
    ensures Lives(ttlMs, configs, calls, StoreAfter(ttlMs, configs, calls), key, calls[|calls| - 1].nowMs)
  {
    hide Lives, StoreAfter, InOrder;
    var before, call := calls[..|calls| - 1], calls[|calls| - 1];
    assert calls == before + [call];
    InOrderSnoc(before, call);
    if call.key == key {
      LivesOwn(ttlMs, configs, before, call);
    } else if before == [] {
      NothingLives(ttlMs, configs, key, call.nowMs);
      LivesOther(ttlMs, configs, before, call, key, call.nowMs);
    } else {
      RunLives(ttlMs, configs, before, key);
      LivesOther(ttlMs, configs, before, call, key, before[|before| - 1].nowMs);
    }
  }

  lemma NothingLives(ttlMs: int, configs: Configs, key: string, now: int)
    requires AllValid(configs)
    ensures Lives(ttlMs, configs, [], StoreAfter(ttlMs, configs, []), key, now)
  {
    NothingKept(configs(key), key);
  }

  /** The limiter's memory is bounded, and not forgetful: over every run, and after the eviction that a
    * call at `now` begins with, a state is there only if its key was called within the last
    * `Longest` milliseconds; and always if it was called within the time to live. */
  lemma HeldWhileRecent(ttlMs: int, configs: Configs, calls: seq<Call>, key: string, now: int)
    requires AllValid(configs) && InOrder(calls) && ttlMs >= 1000
    requires calls != [] ==> calls[|calls| - 1].nowMs <= now
    ensures var (times, held) := (TimesOf(calls, key),
                                  Kept(Evicted(StoreAfter(ttlMs, configs, calls), now), configs(key), key).Some?);
            && (held ==> times != [] && now < Last(times) + Longest(configs(key), ttlMs))
            && (times != [] && now < Last(times) + ttlMs ==> held)
  {
    hide TimesOf, Longest, Evicted, StoreAfter, Kept, ExpiryIn;
    var store := StoreAfter(ttlMs, configs, calls);
    if calls == [] {
      NothingLives(ttlMs, configs, key, now);
      LivesEvicted(ttlMs, configs, calls, store, key, now, now);
    } else {
      RunLives(ttlMs, configs, calls, key);
      LivesEvicted(ttlMs, configs, calls, store, key, calls[|calls| - 1].nowMs, now);
    }
  }

  // ----- Redis -----

  /** How long after the last evaluation for its key a Redis key can live. */
  function LongestInRedis(c: Config): int
    requires c.Valid()
  {
    match c
    case FixedWindowConfig(_, seconds) => seconds * 1000 + 1000
    case SlidingLogConfig(_, seconds) => seconds * 1000 + 1000
    case TokenBucketConfig(capacity, rate, seconds) =>
      CeilDiv(capacity * (seconds * 1000), rate) + seconds * 1000
  }

  /** What a key stores is of use for a while: a counter until its window ends, an event until it leaves
    * the window, a bucket until it is full. The key lives longer than that by the margin that the
    * scripts add, a second or, for buckets, a window; and no longer than `LongestInRedis`. */
  ghost predicate Expiring(c: Config, k: StoreKey, slot: Slot, last: int)
    requires c.Valid()
  {
    && slot.expiresAtMs <= last + LongestInRedis(c)
    && match slot.value
       case Counter(_) =>
         c.FixedWindowConfig? && k.Windowed? && k.windowStart + c.WindowMs() + 1000 <= slot.expiresAtMs
       case SortedSet(entries) =>
         c.SlidingLogConfig? && forall e :: e in entries ==> e.score + c.WindowMs() + 1000 <= slot.expiresAtMs
       case Hash(_, lastRefillMs) =>
         c.TokenBucketConfig? && lastRefillMs <= last
         && lastRefillMs + CeilDiv(c.capacity * c.WindowMs(), c.rate) + c.WindowMs() <= slot.expiresAtMs
  }

  lemma ExpiringLater(c: Config, k: StoreKey, slot: Slot, last: int, later: int)
    requires c.Valid() && Expiring(c, k, slot, last) && last <= later
    ensures Expiring(c, k, slot, later)
  {
  }

  ghost predicate Expires(configs: Configs, evals: seq<Eval>, k: StoreKey, slot: Slot)
    requires AllValid(configs)
  {
    var times := TimesOf(CallsOf(evals), k.key);
    times != [] && Expiring(configs(k.key), k, slot, Last(times))
  }

  ghost predicate AllExpire(configs: Configs, evals: seq<Eval>, space: Keyspace)
    requires AllValid(configs)
  {
    forall k :: k in space ==> Expires(configs, evals, k, space[k])
  }

  lemma {:induction false} MemberRemoved(entries: seq<Entry>, member: int)
    ensures forall e :: e in RemoveMember(entries, member) ==> e in entries
  {
    if entries != [] {
      MemberRemoved(entries[..|entries| - 1], member);
    }
  }

  lemma {:induction false} Inserted(entries: seq<Entry>, e: Entry)
    ensures forall x :: x in Insert(entries, e) ==> x == e || x in entries
  {
    if !(entries == [] || entries[|entries| - 1].score <= e.score) {
      Inserted(entries[..|entries| - 1], e);
    }
  }

  lemma Added(entries: seq<Entry>, e: Entry)
    ensures forall x :: x in Add(entries, e) ==> x == e || x in entries
  {
    MemberRemoved(entries, e.member);
    Inserted(RemoveMember(entries, e.member), e);
  }

  /** What one script run does to the expiry of the keys. */
  lemma ScriptExpiry(space: Keyspace, c: Config, key: string, member: int, now: int, k: StoreKey)
    requires c.Valid() && k in RunScript(space, c, key, member, now).0 && k.key == key
    requires k in space ==> Expiring(c, k, space[k], now)
    ensures Expiring(c, k, RunScript(space, c, key, member, now).0[k], now)
  {
    hide Expiring;
    match c {
      case FixedWindowConfig(_, _) => WindowExpiry(space, c, key, now, k);
      case SlidingLogConfig(_, _) => SetExpiry(space, c, key, member, now, k);
      case TokenBucketConfig(_, _, _) => HashExpiry(space, c, key, now, k);
    }
  }

  lemma WindowExpiry(space: Keyspace, c: Config, key: string, now: int, k: StoreKey)
    requires c.Valid() && c.FixedWindowConfig? && k.key == key
    requires k in space ==> Expiring(c, k, space[k], now)
    ensures var next := FixedWindowScript(space, key, c.limit, c.WindowMs(), now).0;
            k in next ==> Expiring(c, k, next[k], now)
  {
  }

  lemma SetExpiry(space: Keyspace, c: Config, key: string, member: int, now: int, k: StoreKey)
    requires c.Valid() && c.SlidingLogConfig? && k.key == key
    requires k in space ==> Expiring(c, k, space[k], now)
    ensures var next := SlidingWindowLogScript(space, key, c.limit, c.WindowMs(), member, now).0;
            k in next ==> Expiring(c, k, next[k], now)
  {
    hide RemoveUpTo, Add;
    var entries := if k in space && space[k].value.SortedSet? then space[k].value.entries else [];
    var kept := RemoveUpTo(entries, now - c.WindowMs());
    RemoveUpToSome(entries, now - c.WindowMs());
    Added(kept, Entry(now, member));
  }

  lemma HashExpiry(space: Keyspace, c: Config, key: string, now: int, k: StoreKey)
    requires c.Valid() && c.TokenBucketConfig? && k.key == key
    requires k in space ==> Expiring(c, k, space[k], now)
    ensures var next := TokenBucketScript(space, key, c.capacity, c.WindowMs(), c.rate, BucketTtl(c), now).0;
            k in next ==> Expiring(c, k, next[k], now)
  {
    hide Refill;
    CeilDivLeast(c.capacity * c.WindowMs(), c.rate, -1);
    MulMono(0, c.capacity, c.WindowMs());
    assert -1 * c.rate < 0;
  }

  lemma OtherKeysStay(space: Keyspace, c: Config, key: string, member: int, now: int, k: StoreKey)
    requires c.Valid() && k.key != key && k in RunScript(space, c, key, member, now).0
    ensures k in space && RunScript(space, c, key, member, now).0[k] == space[k]
  {
    hide RemoveUpTo, Add, CeilDiv;
  }

  lemma TimesGrow(configs: Configs, evals: seq<Eval>, e: Eval, key: string)
    requires AllValid(configs) && InOrder(CallsOf(evals) + [e.call])
    ensures var (times, later) := (TimesOf(CallsOf(evals), key), TimesOf(CallsOf(evals + [e]), key));
            && (e.call.key == key ==> later == times + [e.call.nowMs] && (times != [] ==> Last(times) <= e.call.nowMs))
            && (e.call.key != key ==> later == times)
  {
    hide InOrder, RunScript, SpaceAfter, NonDecreasing, Purge, CallsOf, TimesOf;
    EvalsSnoc(configs, evals, e);
    TimesOfSnoc(CallsOf(evals), e.call, key);
    if e.call.key == key {
      NextInOrder(CallsOf(evals), e.call);
      NonDecreasingSnoc(TimesOf(CallsOf(evals), key), e.call.nowMs);
    }
  }

  lemma EvalExpiresAt(configs: Configs, evals: seq<Eval>, e: Eval, space: Keyspace, k: StoreKey)
    requires AllValid(configs) && InOrder(CallsOf(evals) + [e.call]) && AllExpire(configs, evals, space)
    requires k in RunScript(space, configs(e.call.key), e.call.key, e.member, e.call.nowMs).0
    ensures Expires(configs, evals + [e], k,
                    RunScript(space, configs(e.call.key), e.call.key, e.member, e.call.nowMs).0[k])
  {
    hide RunScript, Expiring, InOrder, TimesOf, CallsOf;
    var (c, key, now) := (configs(e.call.key), e.call.key, e.call.nowMs);
    TimesGrow(configs, evals, e, k.key);
    assert k in space ==> Expires(configs, evals, k, space[k]);
    if k.key == key {
      if k in space {
        ExpiringLater(c, k, space[k], Last(TimesOf(CallsOf(evals), key)), now);
      }
      ScriptExpiry(space, c, key, e.member, now, k);
    } else {
      OtherKeysStay(space, c, key, e.member, now, k);
    }
  }

  lemma EvalExpires(configs: Configs, evals: seq<Eval>, e: Eval)
    requires AllValid(configs) && InOrder(CallsOf(evals) + [e.call])
    requires AllExpire(configs, evals, SpaceAfter(configs, evals))
    ensures AllExpire(configs, evals + [e], SpaceAfter(configs, evals + [e]))
  {
    hide RunScript, Expires, SpaceAfter, InOrder;
    EvalsSnoc(configs, evals, e);
    var space := SpaceAfter(configs, evals);
    var purged := Purge(space, e.victims, e.call.nowMs);
    assert forall k :: k in purged ==> k in space && purged[k] == space[k];
    var next := SpaceAfter(configs, evals + [e]);
    forall k | k in next ensures Expires(configs, evals + [e], k, next[k]) {
      EvalExpiresAt(configs, evals, e, purged, k);
    }
  }

  /** No script leaves a key behind for good, nor lets one expire while it matters: over every run, each
    * key in Redis outlives what it stores by a margin, and expires within a bounded time of the last
    * evaluation for it. */
  lemma {:induction false} EveryKeyExpires(configs: Configs, evals: seq<Eval>)
    requires AllValid(configs) && InOrder(CallsOf(evals))
    ensures AllExpire(configs, evals, SpaceAfter(configs, evals))
  {
    hide RunScript, Expires, InOrder;
    if evals != [] {
      var before, e := evals[..|evals| - 1], evals[|evals| - 1];
      assert evals == before + [e];
      EvalsSnoc(configs, before, e);
      InOrderSnoc(CallsOf(before), e.call);
      EveryKeyExpires(configs, before);
      EvalExpires(configs, before, e);
    }
  }
}
