/** Requests over many keys, what each key sees of them, and what every keyed store of limiter
  * states is measured against: the run of that key's requests alone, with nothing ever dropped. */
module Keyed {
  import opened Arith
  import opened Limiters
  import opened SlidingLogRuns
  import opened TokenBucketRuns
  import opened Answers

  datatype Call = Call(key: string, nowMs: int)

  /** A key names one policy version, and so one configuration. */
  type Configs = string -> Config

  ghost predicate AllValid(configs: Configs) {
    forall key :: configs(key).Valid()
  }

  /** The clock never goes back. */
  predicate InOrder(calls: seq<Call>) {
    |calls| <= 1 || (InOrder(calls[..|calls| - 1]) && calls[|calls| - 2].nowMs <= calls[|calls| - 1].nowMs)
  }

  /** The times of the calls for `key`. */
  function TimesOf(calls: seq<Call>, key: string): (times: seq<int>) {
    if calls == [] then []
    else
      var earlier := TimesOf(calls[..|calls| - 1], key);
      if calls[|calls| - 1].key == key then earlier + [calls[|calls| - 1].nowMs] else earlier
  }

  /** The state of `key` after `calls`, with no other key and no eviction. */
  function StateOf(configs: Configs, calls: seq<Call>, key: string): (s: State)
    requires configs(key).Valid()
    ensures Fits(configs(key), s)
  {
    After(configs(key), TimesOf(calls, key))
  }

  /** The answer due to `call` after `calls`. */
  function Due(configs: Configs, calls: seq<Call>, call: Call): Computation
    requires configs(call.key).Valid()
  {
    Decide(configs(call.key), TimesOf(calls, call.key), call.nowMs)
  }

  lemma TimesOfSnoc(calls: seq<Call>, call: Call, key: string)
    ensures TimesOf(calls + [call], key) ==
            if call.key == key then TimesOf(calls, key) + [call.nowMs] else TimesOf(calls, key)
  {
    assert (calls + [call])[..|calls|] == calls;
  }

  lemma InOrderSnoc(calls: seq<Call>, call: Call)
    ensures InOrder(calls + [call]) <==> InOrder(calls) && (calls != [] ==> calls[|calls| - 1].nowMs <= call.nowMs)
  {
    assert (calls + [call])[..|calls|] == calls;
  }

  lemma {:induction false} SuffixInOrder(calls: seq<Call>, m: nat)
    requires InOrder(calls) && m <= |calls|
    ensures InOrder(calls[m..])
  {
    hide InOrder;
    if m < |calls| {
      var n := |calls| - 1;
      assert calls == calls[..n] + [calls[n]];
      InOrderSnoc(calls[..n], calls[n]);
      SuffixInOrder(calls[..n], m);
      assert calls[m..] == calls[..n][m..] + [calls[n]];
      InOrderSnoc(calls[..n][m..], calls[n]);
    } else {
      assert calls[m..] == [];
      NoCallsInOrder();
    }
  }

  lemma NoCallsInOrder()
    ensures InOrder([])
  {
  }

  lemma {:induction false} TimesInOrder(calls: seq<Call>, key: string)
    requires InOrder(calls)
    ensures var times := TimesOf(calls, key);
            && NonDecreasing(times)
            && (times != [] ==> calls != [] && times[|times| - 1] <= calls[|calls| - 1].nowMs)
  {
    if calls != [] {
      var before, call := calls[..|calls| - 1], calls[|calls| - 1];
      assert calls == before + [call];
      InOrderSnoc(before, call);
      TimesInOrder(before, key);
      TimesOfSnoc(before, call, key);
      NonDecreasingSnoc(TimesOf(before, key), call.nowMs);
    }
  }

  /** The times of a key stay in order when another call for it arrives. */
  lemma NextInOrder(calls: seq<Call>, call: Call)
    requires InOrder(calls + [call])
    ensures NonDecreasing(TimesOf(calls, call.key) + [call.nowMs])
  {
    TimesInOrder(calls + [call], call.key);
    TimesOfSnoc(calls, call, call.key);
  }

  lemma StateOfSnoc(configs: Configs, calls: seq<Call>, call: Call, key: string)
    requires configs(key).Valid()
    ensures StateOf(configs, calls + [call], key) ==
            if call.key == key then Next(configs(key), StateOf(configs, calls, key), call.nowMs)
            else StateOf(configs, calls, key)
  {
    TimesOfSnoc(calls, call, key);
    AfterSnoc(configs(key), TimesOf(calls, key), call.nowMs);
  }

  // ----- states that may be forgotten -----

  /** From `at` on, nothing would change if state s were forgotten. */
  predicate Idle(c: Config, s: State, at: int)
    requires c.Valid() && Fits(c, s)
  {
    match s
    case Fresh => true
    case FixedState(f) => f.windowStartMs + c.WindowMs() <= at
    case LogState(_) => Recent(c, s, at) == []
    case BucketState(b) => b.lastRefillMs <= at && Available(c, s, at) == Full(c)
  }

  lemma IdleLater(c: Config, s: State, at: int, later: int)
    requires c.Valid() && Fits(c, s) && Idle(c, s, at) && at <= later
    ensures Idle(c, s, later)
  {
    match s {
      case Fresh =>
      case FixedState(_) =>
      case LogState(events) =>
        ActiveOfActive(events, at - c.WindowMs(), later - c.WindowMs());
      case BucketState(b) =>
        MulMono(at - b.lastRefillMs, later - b.lastRefillMs, c.rate);
    }
  }

  lemma IdleLikeFresh(c: Config, s: State, at: int)
    requires c.Valid() && Fits(c, s) && Idle(c, s, at)
    ensures Next(c, s, at) == Next(c, Fresh, at)
    ensures Step(c, s, at) == Step(c, Fresh, at)
  {
    match c {
      case FixedWindowConfig(_, _) =>
      case SlidingLogConfig(_, _) =>
        assert ActiveEvents([], at - c.WindowMs()) == [];
      case TokenBucketConfig(_, _, _) =>
        assert (at - at) * c.rate == 0;
    }
  }

  /** A store keeps the state of a key, or may have dropped it: then only if it no longer mattered. */
  ghost predicate Keeps(c: Config, ref: State, kept: Option<State>, expiresAt: int, now: int)
    requires c.Valid() && Fits(c, ref)
  {
    if kept.Some? then kept.value == ref && !ref.Fresh? && Idle(c, ref, expiresAt) else Idle(c, ref, now)
  }

  /** A request is answered as by the state that was never dropped. */
  lemma KeepsAnswers(c: Config, ref: State, kept: Option<State>, expiresAt: int, now: int)
    requires c.Valid() && Fits(c, ref) && Keeps(c, ref, kept, expiresAt, now)
    ensures var s := if kept.Some? then kept.value else Fresh;
            Fits(c, s) && Step(c, s, now) == Step(c, ref, now)
  {
    if kept.None? {
      IdleLikeFresh(c, ref, now);
    }
  }

  // ----- how long a state matters -----

  lemma FixedIdleAtReset(c: Config, s: State, at: int, now: int)
    requires c.FixedWindowConfig? && c.Valid() && Fits(c, s) && Reached(c, s, at) && (s.Fresh? || at <= now)
    ensures Idle(c, Next(c, s, now), Step(c, s, now).1.resetAtMs)
  {
  }

  /** The log is idle when its newest event has left the window, and, if it has room for one event
    * only, at its reset time. */
  lemma LogIdle(c: Config, s: State, at: int, now: int, expiresAt: int)
    requires c.SlidingLogConfig? && c.Valid() && Fits(c, s) && Reached(c, s, at) && (s.Fresh? || at <= now)
    requires expiresAt >= now + c.WindowMs() || (c.limit == 1 && expiresAt >= Step(c, s, now).1.resetAtMs)
    ensures Idle(c, Next(c, s, now), expiresAt)
  {
    LogAnswer(c, s, now);
    NextAllRecent(c, s, at, now);
    NextReached(c, s, at, now);
    AllPast(Next(c, s, now).events, expiresAt - c.WindowMs());
  }

  lemma {:induction false} AllPast(events: seq<int>, cutoff: int)
    requires NonDecreasing(events) && (events != [] ==> events[|events| - 1] <= cutoff)
    ensures ActiveEvents(events, cutoff) == []
  {
    if events != [] {
      if |events| > 1 {
        NonDecreasingAt(events, |events| - 2, |events| - 1);
      }
      AllPast(events[..|events| - 1], cutoff);
    }
  }

  lemma BucketIdleWhenFull(c: Config, s: State, at: int, now: int, expiresAt: int)
    requires c.TokenBucketConfig? && c.Valid() && Fits(c, s) && Reached(c, s, at) && (s.Fresh? || at <= now)
    requires expiresAt >= now + CeilDiv(Full(c) - Next(c, s, now).bucket.tokens, c.rate)
    ensures Idle(c, Next(c, s, now), expiresAt)
  {
    NextReached(c, s, at, now);
    CeilDivLeast(Full(c) - Next(c, s, now).bucket.tokens, c.rate, expiresAt - now);
    CeilDivLeast(Full(c) - Next(c, s, now).bucket.tokens, c.rate, 0);
    if expiresAt < now {
      MulMono(expiresAt - now, -1, c.rate);
    }
  }
}
