/** The Redis scripts, with their counters that also count refusals, their key per window and
  * their expiring keys, answer every request as the in-memory algorithms do with no expiry. */
module ScriptRuns {
  import opened Arith
  import opened Limiters
  import opened FixedWindowRuns
  import opened SlidingLogRuns
  import opened TokenBucketRuns
  import opened Answers
  import opened Keyed
  import opened Fallback
  import opened RedisScripts

  /** One script evaluation: its call, the set member it would add, and the expired keys that the
    * server has dropped just before it. */
  datatype Eval = Eval(call: Call, member: int, victims: set<StoreKey>)

  function CallsOf(evals: seq<Eval>): (calls: seq<Call>) {
    if evals == [] then [] else CallsOf(evals[..|evals| - 1]) + [evals[|evals| - 1].call]
  }

  function Members(evals: seq<Eval>): set<int> {
    if evals == [] then {} else Members(evals[..|evals| - 1]) + {evals[|evals| - 1].member}
  }

  /** Times are not before the epoch, and set members are fresh UUIDs. */
  predicate Realistic(evals: seq<Eval>) {
    evals == [] || (
      var past, e := evals[..|evals| - 1], evals[|evals| - 1];
      Realistic(past) && e.call.nowMs >= 0 && e.member !in Members(past))
  }

  function SpaceAfter(configs: Configs, evals: seq<Eval>): Keyspace
    requires AllValid(configs)
  {
    if evals == [] then map[]
    else
      var e := evals[|evals| - 1];
      var space := Purge(SpaceAfter(configs, evals[..|evals| - 1]), e.victims, e.call.nowMs);
      RunScript(space, configs(e.call.key), e.call.key, e.member, e.call.nowMs).0
  }

  function Answered(configs: Configs, evals: seq<Eval>, e: Eval): Reply
    requires AllValid(configs)
  {
    var space := Purge(SpaceAfter(configs, evals), e.victims, e.call.nowMs);
    RunScript(space, configs(e.call.key), e.call.key, e.member, e.call.nowMs).1
  }

  /** The reply that says the same as computation d. */
  function ReplyOf(c: Config, d: Computation): Reply {
    Reply(d.allowed, HeaderLimit(c), d.remaining, d.resetAtMs, d.retryAfterMs)
  }

  lemma EvalsSnoc(configs: Configs, evals: seq<Eval>, e: Eval)
    requires AllValid(configs)
    ensures CallsOf(evals + [e]) == CallsOf(evals) + [e.call]
    ensures Realistic(evals + [e]) <==> Realistic(evals) && e.call.nowMs >= 0 && e.member !in Members(evals)
    ensures Members(evals + [e]) == Members(evals) + {e.member}
    ensures SpaceAfter(configs, evals + [e]) ==
            RunScript(Purge(SpaceAfter(configs, evals), e.victims, e.call.nowMs),
                      configs(e.call.key), e.call.key, e.member, e.call.nowMs).0
  {
    assert (evals + [e])[..|evals|] == evals;
  }

  // ----- sorted sets and lists -----

  lemma ScoresSnoc(entries: seq<Entry>, e: Entry)
    ensures Scores(entries + [e]) == Scores(entries) + [e.score]
  {
    assert (entries + [e])[..|entries|] == entries;
  }

  lemma {:induction false} ScoresSize(entries: seq<Entry>)
    ensures |Scores(entries)| == |entries|
    ensures entries != [] ==> Scores(entries)[0] == entries[0].score
    ensures entries != [] ==> Scores(entries)[|entries| - 1] == entries[|entries| - 1].score
  {
    if entries != [] {
      ScoresSize(entries[..|entries| - 1]);
    }
  }

  predicate FromEpoch(entries: seq<Entry>) {
    entries == [] || (FromEpoch(entries[..|entries| - 1]) && entries[|entries| - 1].score >= 0)
  }

  lemma {:induction false} RemoveUpToSome(entries: seq<Entry>, cutoff: int)
    ensures forall e :: e in RemoveUpTo(entries, cutoff) ==> e in entries
  {
    if entries != [] {
      RemoveUpToSome(entries[..|entries| - 1], cutoff);
    }
  }

  lemma {:induction false} RemoveUpToActive(entries: seq<Entry>, cutoff: int)
    requires FromEpoch(entries)
    ensures var kept := RemoveUpTo(entries, cutoff);
            && Scores(kept) == ActiveEvents(Scores(entries), cutoff)
            && FromEpoch(kept)
            && forall e :: e in kept ==> e in entries
  {
    RemoveUpToSome(entries, cutoff);
    if entries != [] {
      var before, last := entries[..|entries| - 1], entries[|entries| - 1];
      RemoveUpToActive(before, cutoff);
      ActiveSnoc(Scores(before), last.score, cutoff);
      ScoresSnoc(RemoveUpTo(before, cutoff), last);
      FromEpochSnoc(RemoveUpTo(before, cutoff), last);
    }
  }

  lemma FromEpochSnoc(entries: seq<Entry>, e: Entry)
    ensures FromEpoch(entries + [e]) <==> FromEpoch(entries) && e.score >= 0
  {
    assert (entries + [e])[..|entries|] == entries;
  }

  lemma {:induction false} NothingToRemove(entries: seq<Entry>, member: int)
    requires forall e :: e in entries ==> e.member != member
    ensures RemoveMember(entries, member) == entries
  {
    if entries != [] {
      var before, last := entries[..|entries| - 1], entries[|entries| - 1];
      assert entries == before + [last];
      NothingToRemove(before, member);
      assert last in entries;
    }
  }

  lemma AddLast(entries: seq<Entry>, e: Entry)
    requires forall x :: x in entries ==> x.member != e.member
    requires entries != [] ==> entries[|entries| - 1].score <= e.score
    ensures Add(entries, e) == entries + [e]
  {
    NothingToRemove(entries, e.member);
  }

  // ----- what the keyspace holds of one key -----

  /** The sorted set or hash of `key`, as a limiter state. */
  function Held(space: Keyspace, key: string): (held: Option<State>) {
    if Plain(key) !in space then None
    else match space[Plain(key)].value
         case Counter(_) => Some(Fresh)
         case SortedSet(entries) => Some(LogState(Scores(entries)))
         case Hash(tokens, lastRefillMs) => Some(BucketState(TokenBucket(tokens, lastRefillMs)))
  }

  ghost predicate HoldsPlain(space: Keyspace, c: Config, ref: State, key: string, known: set<int>, now: int)
    requires c.Valid() && Fits(c, ref)
  {
    && Keeps(c, ref, Held(space, key), if Plain(key) in space then space[Plain(key)].expiresAtMs else 0, now)
    && (Plain(key) in space && space[Plain(key)].value.SortedSet? ==>
          var entries := space[Plain(key)].value.entries;
          FromEpoch(entries) && forall e :: e in entries ==> e.member in known)
  }

  /** The counter of each window counts its requests, admitted or not, and outlives the window. */
  ghost predicate HoldsCounters(space: Keyspace, c: Config, times: seq<int>, key: string, now: int)
    requires c.Valid() && c.FixedWindowConfig?
  {
    forall start :: Aligned(c, start) ==>
      if Windowed(key, start) in space then
        var slot := space[Windowed(key, start)];
        && slot.value == Counter(InWindow(c, times, start)) && slot.value.n > 0
        && slot.expiresAtMs >= start + c.WindowMs()
      else
        InWindow(c, times, start) == 0 || start + c.WindowMs() <= now
  }

  ghost predicate HoldsKey(
    space: Keyspace, c: Config, times: seq<int>, key: string, known: set<int>, now: int)
    requires c.Valid()
  {
    if c.FixedWindowConfig? then HoldsCounters(space, c, times, key, now)
    else HoldsPlain(space, c, After(c, times), key, known, now)
  }

  // ----- one evaluation -----

  lemma PurgeHolds(space: Keyspace, c: Config, times: seq<int>, key: string, known: set<int>,
                   victims: set<StoreKey>, now: int)
    requires c.Valid() && HoldsKey(space, c, times, key, known, now)
    ensures HoldsKey(Purge(space, victims, now), c, times, key, known, now)
  {
    if !c.FixedWindowConfig? && Plain(key) in space && space[Plain(key)].expiresAtMs <= now {
      IdleLater(c, After(c, times), space[Plain(key)].expiresAtMs, now);
    }
  }

  lemma LaterHolds(space: Keyspace, c: Config, times: seq<int>, key: string, known: set<int>, now: int, later: int)
    requires c.Valid() && HoldsKey(space, c, times, key, known, now) && now <= later
    ensures HoldsKey(space, c, times, key, known, later)
  {
    if !c.FixedWindowConfig? && Plain(key) !in space {
      IdleLater(c, After(c, times), now, later);
    }
  }

  lemma OtherKey(space: Keyspace, c: Config, times: seq<int>, key: string, known: set<int>,
                 c': Config, key': string, member: int, now: int)
    requires c.Valid() && c'.Valid() && key != key' && HoldsKey(space, c, times, key, known, now)
    ensures HoldsKey(RunScript(space, c', key', member, now).0, c, times, key, known + {member}, now)
  {
    var next := RunScript(space, c', key', member, now).0;
    assert Plain(key) in next <==> Plain(key) in space;
    assert Plain(key) in space ==> next[Plain(key)] == space[Plain(key)];
    assert forall start :: Windowed(key, start) in next <==> Windowed(key, start) in space;
    assert forall start :: Windowed(key, start) in space ==> next[Windowed(key, start)] == space[Windowed(key, start)];
  }

  // ----- fixed window -----

  /** The reply to a request in a window that has seen `seen` others. */
  function WindowReply(c: Config, seen: int, now: int): Reply
    requires c.FixedWindowConfig? && c.Valid()
  {
    var reset := WindowStart(now, c.WindowMs()) + c.WindowMs();
    Reply(seen < c.limit, c.limit, Max(0, c.limit - (seen + 1)), reset, Max(0, reset - now))
  }

  lemma FixedAnswer(c: Config, s: State, now: int, seen: nat)
    requires c.FixedWindowConfig? && c.Valid() && Fits(c, s)
    requires s.Fresh? || s.fixed.windowStartMs != WindowStart(now, c.WindowMs()) ==> seen == 0
    requires s.FixedState? && s.fixed.windowStartMs == WindowStart(now, c.WindowMs()) ==>
               s.fixed.count == Min(c.limit, seen)
    ensures ReplyOf(c, Step(c, s, now).1) == WindowReply(c, seen, now)
  {
  }

  lemma CountedSoFar(space: Keyspace, c: Config, times: seq<int>, key: string, now: int)
    requires c.FixedWindowConfig? && c.Valid() && HoldsCounters(space, c, times, key, now)
    ensures var k := Windowed(key, WindowStart(now, c.WindowMs()));
            && (k in space ==> space[k].value.Counter?)
            && (if k in space then space[k].value.n else 0) == InWindow(c, times, WindowStart(now, c.WindowMs()))
  {
    WindowStartsAligned(now, c.WindowMs());
  }

  lemma FixedScriptReply(space: Keyspace, c: Config, key: string, member: int, now: int, seen: nat)
    requires c.FixedWindowConfig? && c.Valid()
    requires var k := Windowed(key, WindowStart(now, c.WindowMs()));
             if k in space then space[k].value == Counter(seen) else seen == 0
    ensures RunScript(space, c, key, member, now).1 == WindowReply(c, seen, now)
  {
  }

  lemma FixedReply(space: Keyspace, c: Config, times: seq<int>, key: string, member: int, now: int)
    requires c.FixedWindowConfig? && c.Valid() && NonDecreasing(times + [now])
    requires HoldsCounters(space, c, times, key, now)
    ensures RunScript(space, c, key, member, now).1 == ReplyOf(c, Decide(c, times, now))
  {
    var seen := InWindow(c, times, WindowStart(now, c.WindowMs()));
    CountedSoFar(space, c, times, key, now);
    FixedScriptReply(space, c, key, member, now, seen);
    DecideFixed(c, times, now);
  }

  lemma DecideFixed(c: Config, times: seq<int>, now: int)
    requires c.FixedWindowConfig? && c.Valid() && NonDecreasing(times + [now])
    ensures ReplyOf(c, Decide(c, times, now)) == WindowReply(c, InWindow(c, times, WindowStart(now, c.WindowMs())), now)
  {
    SeenBefore(c, times, now);
    FixedAnswer(c, After(c, times), now, InWindow(c, times, WindowStart(now, c.WindowMs())));
  }

  lemma CountOne(space: Keyspace, c: Config, times: seq<int>, key: string, member: int, now: int)
    requires c.FixedWindowConfig? && c.Valid() && HoldsCounters(space, c, times, key, now)
    ensures var (start, next) := (WindowStart(now, c.WindowMs()), RunScript(space, c, key, member, now).0);
            && Windowed(key, start) in next
            && next[Windowed(key, start)].value == Counter(InWindow(c, times, start) + 1)
            && next[Windowed(key, start)].expiresAtMs >= start + c.WindowMs()
            && next == space[Windowed(key, start) := next[Windowed(key, start)]]
  {
    CountedSoFar(space, c, times, key, now);
    WindowStartsAligned(now, c.WindowMs());
  }

  lemma FixedEval(space: Keyspace, c: Config, times: seq<int>, key: string, member: int, now: int)
    requires c.FixedWindowConfig? && c.Valid() && NonDecreasing(times + [now])
    requires HoldsCounters(space, c, times, key, now)
    ensures HoldsCounters(RunScript(space, c, key, member, now).0, c, times + [now], key, now)
  {
    CountOne(space, c, times, key, member, now);
    CountersAfter(space, RunScript(space, c, key, member, now).0, c, times, key, now);
  }

  lemma CountersAfter(space: Keyspace, next: Keyspace, c: Config, times: seq<int>, key: string, now: int)
    requires c.FixedWindowConfig? && c.Valid() && HoldsCounters(space, c, times, key, now)
    requires var k := Windowed(key, WindowStart(now, c.WindowMs()));
             && k in next && next == space[k := next[k]]
             && next[k].value == Counter(InWindow(c, times, k.windowStart) + 1)
             && next[k].expiresAtMs >= k.windowStart + c.WindowMs()
    ensures HoldsCounters(next, c, times + [now], key, now)
  {
    forall start | Aligned(c, start)
      ensures InWindow(c, times + [now], start) ==
              InWindow(c, times, start) + (if start == WindowStart(now, c.WindowMs()) then 1 else 0)
    {
      CountInSnoc(times, now, start, start + c.WindowMs());
      SameWindow(start, now, c.WindowMs());
    }
  }

  // ----- sliding window log -----

  function EntriesOf(space: Keyspace, key: string): seq<Entry> {
    if Plain(key) in space && space[Plain(key)].value.SortedSet? then space[Plain(key)].value.entries else []
  }

  /** What ZREMRANGEBYSCORE leaves is what the in-memory log regards as recent. */
  lemma KeptEntries(space: Keyspace, c: Config, ref: State, at: int, key: string, known: set<int>, now: int)
    requires c.SlidingLogConfig? && c.Valid() && Fits(c, ref) && Reached(c, ref, at) && (ref.Fresh? || at <= now)
    requires HoldsPlain(space, c, ref, key, known, now)
    ensures Plain(key) in space ==> space[Plain(key)].value.SortedSet?
    ensures var kept := RemoveUpTo(EntriesOf(space, key), now - c.WindowMs());
            && Scores(kept) == Recent(c, ref, now) && |kept| == |Recent(c, ref, now)|
            && FromEpoch(kept) && (forall e :: e in kept ==> e.member in known)
            && (kept != [] ==> kept[|kept| - 1].score <= now && kept[0].score == Recent(c, ref, now)[0])
  {
    hide RemoveUpTo, Scores, ActiveEvents, NonDecreasing, FromEpoch, Reached;
    RemoveUpToActive(EntriesOf(space, key), now - c.WindowMs());
    RecentHeld(space, c, ref, key, now);
    RecentInRange(c, ref, at, now);
    ScoresSize(RemoveUpTo(EntriesOf(space, key), now - c.WindowMs()));
  }

  lemma LogScriptAdmits(space: Keyspace, c: Config, key: string, member: int, now: int, kept: seq<Entry>,
                        entries: seq<Entry>)
    requires c.SlidingLogConfig? && c.Valid() && (Plain(key) in space ==> space[Plain(key)].value.SortedSet?)
    requires kept == RemoveUpTo(EntriesOf(space, key), now - c.WindowMs()) && |kept| < c.limit
    requires Add(kept, Entry(now, member)) == entries && |entries| == |kept| + 1
    ensures RunScript(space, c, key, member, now).0 ==
            space[Plain(key) := Slot(SortedSet(entries), now + c.WindowMs() + 1000)]
    ensures RunScript(space, c, key, member, now).1 == SetReply(c, true, entries, now)
  {
  }

  /** The reply of a script that leaves `entries`. */
  function SetReply(c: Config, allowed: bool, entries: seq<Entry>, now: int): Reply
    requires c.SlidingLogConfig? && entries != []
  {
    var reset := entries[0].score + c.WindowMs();
    Reply(allowed, c.limit, Max(0, c.limit - |entries|), reset, Max(0, reset - now))
  }

  lemma LogScriptRefuses(space: Keyspace, c: Config, key: string, member: int, now: int, kept: seq<Entry>)
    requires c.SlidingLogConfig? && c.Valid() && Plain(key) in space && space[Plain(key)].value.SortedSet?
    requires kept == RemoveUpTo(EntriesOf(space, key), now - c.WindowMs()) && |kept| >= c.limit
    ensures RunScript(space, c, key, member, now).0 ==
            space[Plain(key) := Slot(SortedSet(kept), space[Plain(key)].expiresAtMs)]
    ensures RunScript(space, c, key, member, now).1 == SetReply(c, false, kept, now)
  {
  }

  lemma LogAdmits(space: Keyspace, c: Config, ref: State, at: int, key: string, known: set<int>, member: int, now: int)
    requires c.SlidingLogConfig? && c.Valid() && Fits(c, ref) && Reached(c, ref, at) && (ref.Fresh? || at <= now)
    requires HoldsPlain(space, c, ref, key, known, now) && member !in known && now >= 0 && Admits(c, ref, now)
    ensures RunScript(space, c, key, member, now).1 == ReplyOf(c, Step(c, ref, now).1)
    ensures HoldsPlain(RunScript(space, c, key, member, now).0, c, Next(c, ref, now), key, known + {member}, now)
  {
    var entries := AdmittedEntries(space, c, ref, at, key, known, member, now);
    LogReply(c, ref, now, entries);
    LogIdle(c, ref, at, now, now + c.WindowMs() + 1000);
    HoldsSet(RunScript(space, c, key, member, now).0, c, Next(c, ref, now), key, known + {member}, now,
             entries, now + c.WindowMs() + 1000);
  }

  /** What an admitting run of the script writes and replies, and that it is the list of the
    * in-memory log. */
  lemma AdmittedEntries(
    space: Keyspace, c: Config, ref: State, at: int, key: string, known: set<int>, member: int, now: int)
    returns (entries: seq<Entry>)
    requires c.SlidingLogConfig? && c.Valid() && Fits(c, ref) && Reached(c, ref, at) && (ref.Fresh? || at <= now)
    requires HoldsPlain(space, c, ref, key, known, now) && member !in known && now >= 0 && Admits(c, ref, now)
    ensures 0 < |entries| <= c.limit && Next(c, ref, now) == LogState(Scores(entries))
    ensures FromEpoch(entries) && forall e :: e in entries ==> e.member in known + {member}
    ensures RunScript(space, c, key, member, now).0 ==
            space[Plain(key) := Slot(SortedSet(entries), now + c.WindowMs() + 1000)]
    ensures RunScript(space, c, key, member, now).1 == SetReply(c, true, entries, now)
  {
    var kept := RemoveUpTo(EntriesOf(space, key), now - c.WindowMs());
    KeptEntries(space, c, ref, at, key, known, now);
    entries := AdmittedSet(c, ref, known, member, now, kept);
    LogScriptAdmits(space, c, key, member, now, kept, entries);
  }

  lemma HoldsSet(space: Keyspace, c: Config, ref: State, key: string, known: set<int>, now: int,
                 entries: seq<Entry>, expiresAt: int)
    requires c.SlidingLogConfig? && c.Valid() && Fits(c, ref)
    requires Plain(key) in space && space[Plain(key)] == Slot(SortedSet(entries), expiresAt)
    requires ref == LogState(Scores(entries)) && Idle(c, ref, expiresAt)
    requires FromEpoch(entries) && forall e :: e in entries ==> e.member in known
    ensures HoldsPlain(space, c, ref, key, known, now)
  {
  }

  lemma AdmittedSet(c: Config, ref: State, known: set<int>, member: int, now: int, kept: seq<Entry>)
    returns (entries: seq<Entry>)
    requires c.SlidingLogConfig? && c.Valid() && Fits(c, ref) && member !in known && now >= 0 && Admits(c, ref, now)
    requires Scores(kept) == Recent(c, ref, now) && |kept| == |Recent(c, ref, now)| && FromEpoch(kept)
    requires forall e :: e in kept ==> e.member in known
    requires kept != [] ==> kept[|kept| - 1].score <= now
    ensures Add(kept, Entry(now, member)) == entries && |entries| == |kept| + 1 <= c.limit
    ensures Next(c, ref, now) == LogState(Scores(entries)) && FromEpoch(entries)
    ensures forall e :: e in entries ==> e.member in known + {member}
  {
    var e := Entry(now, member);
    AddLast(kept, e);
    ScoresSnoc(kept, e);
    FromEpochSnoc(kept, e);
    LogStep(c, ref, now);
    entries := kept + [e];
  }

  /** The in-memory answer, in terms of a set with the same scores as the list that it leaves. */
  lemma LogReply(c: Config, ref: State, now: int, entries: seq<Entry>)
    requires c.SlidingLogConfig? && c.Valid() && Fits(c, ref)
    requires entries != [] && |entries| <= c.limit && Next(c, ref, now).events == Scores(entries)
    ensures ReplyOf(c, Step(c, ref, now).1) == SetReply(c, Admits(c, ref, now), entries, now)
  {
    ScoresSize(entries);
    LogAnswer(c, ref, now);
    StepHalves(c, ref, now);
  }

  lemma LogRefuses(space: Keyspace, c: Config, ref: State, at: int, key: string, known: set<int>, member: int, now: int)
    requires c.SlidingLogConfig? && c.Valid() && Fits(c, ref) && Reached(c, ref, at) && (ref.Fresh? || at <= now)
    requires HoldsPlain(space, c, ref, key, known, now) && !Admits(c, ref, now)
    ensures RunScript(space, c, key, member, now).1 == ReplyOf(c, Step(c, ref, now).1)
    ensures HoldsPlain(RunScript(space, c, key, member, now).0, c, Next(c, ref, now), key, known + {member}, now)
  {
    var kept := RemoveUpTo(EntriesOf(space, key), now - c.WindowMs());
    KeptEntries(space, c, ref, at, key, known, now);
    RecentInRange(c, ref, at, now);
    LogStep(c, ref, now);
    StillExpires(space, c, ref, key, now);
    LogScriptRefuses(space, c, key, member, now, kept);
    LogReply(c, ref, now, kept);
  }

  /** A refused request leaves the expiry of the set as it was, and that stays late enough. */
  lemma StillExpires(space: Keyspace, c: Config, ref: State, key: string, now: int)
    requires c.SlidingLogConfig? && c.Valid() && Fits(c, ref) && !Admits(c, ref, now)
    requires Keeps(c, ref, Held(space, key), if Plain(key) in space then space[Plain(key)].expiresAtMs else 0, now)
    ensures Plain(key) in space && Idle(c, Next(c, ref, now), space[Plain(key)].expiresAtMs)
  {
    LogStep(c, ref, now);
    if Plain(key) in space {
      var expiresAt := space[Plain(key)].expiresAtMs;
      if expiresAt <= now {
        IdleLater(c, ref, expiresAt, now);
      } else {
        ActiveOfActive(ref.events, now - c.WindowMs(), expiresAt - c.WindowMs());
      }
    }
  }

  lemma RecentHeld(space: Keyspace, c: Config, ref: State, key: string, now: int)
    requires c.SlidingLogConfig? && c.Valid() && Fits(c, ref)
    requires Keeps(c, ref, Held(space, key), if Plain(key) in space then space[Plain(key)].expiresAtMs else 0, now)
    ensures Plain(key) in space ==> space[Plain(key)].value.SortedSet?
    ensures ActiveEvents(Scores(if Plain(key) in space then space[Plain(key)].value.entries else []),
                         now - c.WindowMs())
            == Recent(c, ref, now)
  {
  }

  // ----- token bucket -----

  lemma BucketEval(space: Keyspace, c: Config, ref: State, at: int, key: string, known: set<int>, member: int, now: int)
    requires c.TokenBucketConfig? && c.Valid() && Fits(c, ref) && Reached(c, ref, at) && (ref.Fresh? || at <= now)
    requires HoldsPlain(space, c, ref, key, known, now)
    ensures RunScript(space, c, key, member, now).1 == ReplyOf(c, Step(c, ref, now).1)
    ensures HoldsPlain(RunScript(space, c, key, member, now).0, c, Next(c, ref, now), key, known + {member}, now)
  {
    hide RunScript, Step, Next, Admits, BucketTtl, BucketRefilled, ReplyOf;
    var s := if Plain(key) in space then Held(space, key).value else Fresh;
    KeepsAnswers(c, ref, Held(space, key), if Plain(key) in space then space[Plain(key)].expiresAtMs else 0, now);
    StepHalves(c, s, now);
    StepHalves(c, ref, now);
    ScriptRefills(space, c, s, key, now);
    AvailableInRange(c, ref, at, now);
    BucketReply(space, c, s, key, member, now);
    NextReached(c, ref, at, now);
    TtlCovers(c, Next(c, ref, now).bucket.tokens);
    BucketIdleWhenFull(c, ref, at, now, now + BucketTtl(c));
  }

  lemma TtlCovers(c: Config, tokens: int)
    requires c.TokenBucketConfig? && c.Valid() && tokens >= 0
    ensures BucketTtl(c) >= CeilDiv(Full(c) - tokens, c.rate)
  {
    CeilDivLeast(Full(c) - tokens, c.rate, CeilDiv(Full(c), c.rate));
  }

  /** On a clock that has not gone back, the script refills as the in-memory bucket does. */
  lemma ScriptRefills(space: Keyspace, c: Config, s: State, key: string, now: int)
    requires c.TokenBucketConfig? && c.Valid() && Fits(c, s)
    requires if Plain(key) in space then Held(space, key) == Some(s) && s.BucketState? else s.Fresh?
    requires s.BucketState? ==> s.bucket.lastRefillMs <= now && s.bucket.tokens <= Full(c)
    ensures Plain(key) in space ==> space[Plain(key)].value.Hash?
    ensures BucketRefilled(BucketIn(space, key), Full(c), c.rate, now) == TokenBucket(Available(c, s, now), now)
  {
    assert (now - now) * c.rate == 0;
  }

  lemma BucketReply(space: Keyspace, c: Config, s: State, key: string, member: int, now: int)
    requires c.TokenBucketConfig? && c.Valid() && Fits(c, s)
    requires Plain(key) in space ==> space[Plain(key)].value.Hash?
    requires BucketRefilled(BucketIn(space, key), Full(c), c.rate, now) == TokenBucket(Available(c, s, now), now)
    requires 0 <= Available(c, s, now) <= Full(c)
    ensures RunScript(space, c, key, member, now).1 == ReplyOf(c, Step(c, s, now).1)
    ensures Next(c, s, now).BucketState?
    ensures RunScript(space, c, key, member, now).0 ==
            space[Plain(key) := Slot(Hash(Next(c, s, now).bucket.tokens, now), now + BucketTtl(c))]
  {
    hide BucketTtl, RunScript, Step, Next, Admits, Available, Full;
    var (available, left) := (Available(c, s, now), Next(c, s, now).bucket.tokens);
    BucketStep(c, s, now);
    StepHalves(c, s, now);
    BucketScript(space, c, key, member, now, available);
    BucketAnswered(c, s, now);
  }

  /** The reply of a bucket that `available` is found in. */
  function FoundReply(c: Config, available: int, now: int): Reply
    requires c.TokenBucketConfig? && c.Valid()
  {
    var allowed := available >= c.WindowMs();
    var left := if allowed then available - c.WindowMs() else available;
    Reply(allowed, c.capacity, left / c.WindowMs(), now + CeilDiv(Full(c) - left, c.rate),
          if allowed then 0 else CeilDiv(c.WindowMs() - available, c.rate))
  }

  lemma BucketScript(space: Keyspace, c: Config, key: string, member: int, now: int, available: int)
    requires c.TokenBucketConfig? && c.Valid() && (Plain(key) in space ==> space[Plain(key)].value.Hash?)
    requires BucketRefilled(BucketIn(space, key), Full(c), c.rate, now) == TokenBucket(available, now)
    ensures RunScript(space, c, key, member, now).1 == FoundReply(c, available, now)
    ensures RunScript(space, c, key, member, now).0 ==
            space[Plain(key) := Slot(Hash(available - Paid(c, available >= c.WindowMs()), now), now + BucketTtl(c))]
  {
    hide BucketRefilled, BucketIn, BucketTtl;
  }

  lemma BucketAnswered(c: Config, s: State, now: int)
    requires c.TokenBucketConfig? && c.Valid() && Fits(c, s) && 0 <= Available(c, s, now) <= Full(c)
    ensures ReplyOf(c, Step(c, s, now).1) == FoundReply(c, Available(c, s, now), now)
  {
    var available := Available(c, s, now);
    var left := if available >= c.WindowMs() then available - c.WindowMs() else available;
    DivPositive(left, c.WindowMs());
    CeilDivLeast(Full(c) - left, c.rate, 0);
  }

  // ----- one evaluation of any script -----

  lemma EvalHolds(space: Keyspace, c: Config, times: seq<int>, key: string, known: set<int>, member: int, now: int)
    requires c.Valid() && NonDecreasing(times + [now])
    requires HoldsKey(space, c, times, key, known, now) && member !in known && now >= 0
    ensures RunScript(space, c, key, member, now).1 == ReplyOf(c, Decide(c, times, now))
    ensures HoldsKey(RunScript(space, c, key, member, now).0, c, times + [now], key, known + {member}, now)
  {
    var at := BeforeAndAfter(c, times, now);
    match c {
      case FixedWindowConfig(_, _) =>
        FixedReply(space, c, times, key, member, now);
        FixedEval(space, c, times, key, member, now);
      case SlidingLogConfig(_, _) =>
        if Admits(c, After(c, times), now) {
          LogAdmits(space, c, After(c, times), at, key, known, member, now);
        } else {
          LogRefuses(space, c, After(c, times), at, key, known, member, now);
        }
      case TokenBucketConfig(_, _, _) =>
        BucketEval(space, c, After(c, times), at, key, known, member, now);
    }
  }

  // ----- whole runs -----

  lemma {:induction false} RunHoldsKey(configs: Configs, evals: seq<Eval>, key: string, now: int)
    requires AllValid(configs) && InOrder(CallsOf(evals)) && Realistic(evals)
    requires evals != [] ==> evals[|evals| - 1].call.nowMs <= now
    ensures HoldsKey(SpaceAfter(configs, evals), configs(key), TimesOf(CallsOf(evals), key), key, Members(evals), now)
  {
    if evals != [] {
      var before, e := evals[..|evals| - 1], evals[|evals| - 1];
      assert evals == before + [e];
      EvalsSnoc(configs, before, e);
      InOrderSnoc(CallsOf(before), e.call);
      LastCall(before);
      RunHoldsKey(configs, before, key, e.call.nowMs);
      RunHoldsKeySnoc(configs, before, e, key);
      LaterHolds(SpaceAfter(configs, evals), configs(key), TimesOf(CallsOf(evals), key), key, Members(evals),
                 e.call.nowMs, now);
    }
  }

  lemma LastCall(evals: seq<Eval>)
    ensures evals != [] ==>
              CallsOf(evals) != [] && CallsOf(evals)[|CallsOf(evals)| - 1] == evals[|evals| - 1].call
  {
  }

  lemma RunHoldsKeySnoc(configs: Configs, before: seq<Eval>, e: Eval, key: string)
    requires AllValid(configs) && InOrder(CallsOf(before + [e])) && Realistic(before + [e])
    requires HoldsKey(SpaceAfter(configs, before), configs(key), TimesOf(CallsOf(before), key), key,
                      Members(before), e.call.nowMs)
    ensures HoldsKey(SpaceAfter(configs, before + [e]), configs(key), TimesOf(CallsOf(before + [e]), key), key,
                     Members(before + [e]), e.call.nowMs)
  {
    EvalsSnoc(configs, before, e);
    var (space, times, now) := (SpaceAfter(configs, before), TimesOf(CallsOf(before), key), e.call.nowMs);
    PurgeHolds(space, configs(key), times, key, Members(before), e.victims, now);
    TimesOfSnoc(CallsOf(before), e.call, key);
    if e.call.key == key {
      NextInOrder(CallsOf(before), e.call);
      EvalHolds(Purge(space, e.victims, now), configs(key), times, key, Members(before), e.member, now);
    } else {
      OtherKey(Purge(space, e.victims, now), configs(key), times, key, Members(before),
               configs(e.call.key), e.call.key, e.member, now);
    }
  }

  /** On every run over any keys, and whatever expired keys the server drops and when, each script
    * replies what the in-memory algorithm computes from the key's own calls with no expiry. */
  lemma ScriptsMatchPython(configs: Configs, evals: seq<Eval>, e: Eval)
    requires AllValid(configs) && InOrder(CallsOf(evals + [e])) && Realistic(evals + [e])
    ensures Answered(configs, evals, e) == ReplyOf(configs(e.call.key), Due(configs, CallsOf(evals), e.call))
  {
    EvalsSnoc(configs, evals, e);
    InOrderSnoc(CallsOf(evals), e.call);
    LastCall(evals);
    var (key, now) := (e.call.key, e.call.nowMs);
    var times := TimesOf(CallsOf(evals), key);
    RunHoldsKey(configs, evals, key, now);
    PurgeHolds(SpaceAfter(configs, evals), configs(key), times, key, Members(evals), e.victims, now);
    NextInOrder(CallsOf(evals), e.call);
    EvalHolds(Purge(SpaceAfter(configs, evals), e.victims, now), configs(key), times, key, Members(evals),
              e.member, now);
  }
}
