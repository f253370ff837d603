/** What many instances let through together, over every run of Distributed. */
module DistributedRuns {
  import opened Arith
  import opened Limiters
  import opened FixedWindowRuns
  import opened SlidingLogRuns
  import opened TokenBucketRuns
  import opened Keyed
  import opened Fallback
  import opened FallbackRuns
  import opened FallbackLimits
  import opened RedisScripts
  import opened ScriptRuns
  import opened RateLimiter
  import opened Distributed

  // ----- the servers follow their logs -----

  /** Redis is where its evaluations have brought it. */
  ghost predicate RedisLogged(p: Params, w: World)
    requires p.Valid()
  {
    && w.space == SpaceAfter(p.configs, w.evals)
    && InOrder(CallsOf(w.evals)) && Realistic(w.evals)
  }

  ghost predicate StoreLogged(p: Params, w: World, i: nat)
    requires p.Valid() && i < |w.stores| == |w.local|
  {
    w.stores[i] == StoreAfter(p.ttlMs, p.configs, w.local[i]) && InOrder(w.local[i])
  }

  ghost predicate Logged(p: Params, w: World)
    requires p.Valid()
  {
    && RedisLogged(p, w)
    && |w.stores| == |w.local| == p.instances
    && (forall i: nat :: i < p.instances ==> StoreLogged(p, w, i))
    && (forall id :: id in w.flights ==> w.flights[id].instance < p.instances)
  }

  lemma NotBeforeEpoch(evals: seq<Eval>)
    requires Realistic(evals)
    ensures LastTime(CallsOf(evals)) >= 0
  {
  }

  /** One script run in a logged world: what it replies is due to the request from the runs for its
    * key alone. */
  lemma TryRuns(p: Params, w: World, id: int, a: Attempt)
    requires p.Valid() && RedisLogged(p, w) && Enabled(p, w, Try(id, a)) && a.Ran?
    ensures var (key, e) := (w.flights[id].key, EvalOf(w.flights[id].key, a));
            && InOrder(CallsOf(w.evals + [e])) && Realistic(w.evals + [e])
            && RateLimiter.RunPolicy(w.space, p.configs(key), key, a).0 == SpaceAfter(p.configs, w.evals + [e])
            && Answered(p.configs, w.evals, e) == ReplyOf(p.configs(key), Due(p.configs, CallsOf(w.evals), e.call))
            && (LetsIn(w.space, p.configs(key), e) <==>
                  Allows(p.configs(key), TimesOf(CallsOf(w.evals), key), a.nowMs))
  {
    hide RunScript, Admits, Decide;
    var e := EvalOf(w.flights[id].key, a);
    EvalsSnoc(p.configs, w.evals, e);
    InOrderSnoc(CallsOf(w.evals), e.call);
    NotBeforeEpoch(w.evals);
    ScriptsMatchPython(p.configs, w.evals, e);
  }

  /** The decision that an attempt brings: one exactly when the reply arrives, and then the one due. */
  lemma TryDecides(p: Params, w: World, id: int, a: Attempt)
    requires p.Valid() && RedisLogged(p, w) && Enabled(p, w, Try(id, a))
    ensures var key := w.flights[id].key;
            RateLimiter.RunPolicy(w.space, p.configs(key), key, a).1 ==
            if a.Ran? && a.delivered then
              Some(ParseCommonDecision(
                ReplyOf(p.configs(key), Due(p.configs, CallsOf(w.evals), Call(key, a.nowMs)))))
            else None
  {
    hide RunScript, Admits, Decide;
    if a.Ran? {
      TryRuns(p, w, id, a);
    }
  }

  lemma TryRedisLogged(p: Params, w: World, id: int, a: Attempt)
    requires p.Valid() && RedisLogged(p, w) && Enabled(p, w, Try(id, a))
    ensures RedisLogged(p, TryNext(p, w, id, a))
  {
    hide RunScript, Admits, Decide, Due, LetsIn, SpaceAfter, Answered, ReplyOf, Allows, Realistic, InOrder;
    if a.Ran? {
      TryRuns(p, w, id, a);
    }
    TrySpace(p, w, id, a);
  }

  /** What an attempt leaves of the servers. */
  lemma TrySpace(p: Params, w: World, id: int, a: Attempt)
    requires p.Valid() && id in w.flights
    ensures var (key, next) := (w.flights[id].key, TryNext(p, w, id, a));
            && next.space == RateLimiter.RunPolicy(w.space, p.configs(key), key, a).0
            && next.evals == (if a.Ran? then w.evals + [EvalOf(key, a)] else w.evals)
            && (a.NeverRan? ==> next.space == w.space)
            && next.stores == w.stores && next.local == w.local
  {
    hide RunScript, LetsIn, Purge;
  }

  lemma TryFlights(p: Params, w: World, id: int, a: Attempt)
    requires p.Valid() && id in w.flights
    requires forall k :: k in w.flights ==> w.flights[k].instance < p.instances
    ensures forall k :: k in TryNext(p, w, id, a).flights ==> TryNext(p, w, id, a).flights[k].instance < p.instances
  {
    hide RateLimiter.RunPolicy, LetsIn;
  }

  lemma TryLogged(p: Params, w: World, id: int, a: Attempt)
    requires p.Valid() && Logged(p, w) && Enabled(p, w, Try(id, a))
    ensures Logged(p, TryNext(p, w, id, a))
  {
    hide TryNext, RedisLogged, StoreAfter, SpaceAfter, InOrder;
    TryRedisLogged(p, w, id, a);
    TrySpace(p, w, id, a);
    TryFlights(p, w, id, a);
    forall i: nat | i < p.instances ensures StoreLogged(p, TryNext(p, w, id, a), i) {
      assert StoreLogged(p, w, i);
    }
  }

  lemma RecoveryLogged(p: Params, w: World, id: int, clockMs: int)
    requires p.Valid() && Logged(p, w) && Enabled(p, w, Recovery(id, clockMs))
    ensures Logged(p, RecoveryNext(p, w, id, clockMs))
  {
    hide Apply, SpaceAfter;
    var f := w.flights[id];
    var next := RecoveryNext(p, w, id, clockMs);
    var call := Call(f.key, clockMs);
    assert StoreLogged(p, w, f.instance);
    if p.fallback {
      InOrderSnoc(w.local[f.instance], call);
      assert (w.local[f.instance] + [call])[..|w.local[f.instance]|] == w.local[f.instance];
    }
    forall i: nat | i < p.instances ensures StoreLogged(p, next, i) {
      assert StoreLogged(p, w, i);
    }
  }

  lemma {:induction false} RunLogged(p: Params, steps: seq<Step>)
    requires p.Valid() && Legal(p, steps)
    ensures Logged(p, WorldAfter(p, steps))
  {
    hide TryNext, RecoveryNext;
    if steps != [] {
      var (before, step) := (steps[..|steps| - 1], steps[|steps| - 1]);
      RunLogged(p, before);
      StepLogged(p, WorldAfter(p, before), step);
    }
  }

  lemma StepLogged(p: Params, w: World, step: Step)
    requires p.Valid() && Logged(p, w) && Enabled(p, w, step)
    ensures Logged(p, StepNext(p, w, step))
  {
    hide TryNext, RecoveryNext;
    match step {
      case Arrive(id, instance, key) =>
        var next := StepNext(p, w, step);
        assert forall i: nat :: i < p.instances ==> StoreLogged(p, w, i) ==> StoreLogged(p, next, i);
      case Try(id, attempt) => TryLogged(p, w, id, attempt);
      case Recovery(id, clockMs) => RecoveryLogged(p, w, id, clockMs);
    }
  }

  /** The answer d in whole seconds, rounded up; `local` for one from the fallback. */
  function InSeconds(c: Config, d: Computation, local: bool): RateLimitDecision {
    RateLimitDecision(d.allowed, if c.TokenBucketConfig? then c.capacity else c.limit, d.remaining,
                      CeilDiv(d.resetAtMs, 1000), if d.allowed then 0 else CeilDiv(d.retryAfterMs, 1000), local, local)
  }

  /** What a request is told, over every run: from Redis, the answer due from all calls of its key
    * that Redis has run, whichever instances they came from; rounded up to seconds. */
  lemma RedisAnswersAreDue(p: Params, steps: seq<Step>, id: int, a: Attempt)
    requires p.Valid() && Legal(p, steps + [Try(id, a)])
    ensures Legal(p, steps)
    ensures var (w, next) := (WorldAfter(p, steps), WorldAfter(p, steps + [Try(id, a)]));
            && id in w.flights
            && var (key, times) := (w.flights[id].key, TimesOf(CallsOf(w.evals), w.flights[id].key));
               if a.Ran? && a.delivered then
                 next.responses == w.responses + [Response(id, key, a.nowMs, FromRedis,
                   InSeconds(p.configs(key), Decide(p.configs(key), times, a.nowMs), false))]
               else next.responses == w.responses
  {
    hide RunScript, Decide, LetsIn;
    RunSnoc(p, steps, Try(id, a));
    RunLogged(p, steps);
    TryDecides(p, WorldAfter(p, steps), id, a);
  }

  // ----- counting responses -----

  predicate Counts(r: Response, key: string, source: Source) {
    r.key == key && r.source == source && r.decision.allowed
  }

  /** When the requests of `key` were let in by `source` and told so. */
  function AllowedBy(responses: seq<Response>, key: string, source: Source): (times: seq<int>) {
    if responses == [] then []
    else
      var earlier := AllowedBy(responses[..|responses| - 1], key, source);
      var r := responses[|responses| - 1];
      if Counts(r, key, source) then earlier + [r.nowMs] else earlier
  }

  lemma AllowedBySnoc(responses: seq<Response>, r: Response, key: string, source: Source, lo: int, hi: int)
    ensures CountIn(AllowedBy(responses + [r], key, source), lo, hi) ==
            CountIn(AllowedBy(responses, key, source), lo, hi)
            + (if Counts(r, key, source) && lo <= r.nowMs < hi then 1 else 0)
  {
    assert (responses + [r])[..|responses|] == responses;
    CountInSnoc(AllowedBy(responses, key, source), r.nowMs, lo, hi);
  }

  lemma TimesOfCount(calls: seq<Call>, call: Call, key: string, lo: int, hi: int)
    ensures CountIn(TimesOf(calls + [call], key), lo, hi) ==
            CountIn(TimesOf(calls, key), lo, hi) + (if call.key == key && lo <= call.nowMs < hi then 1 else 0)
  {
    TimesOfSnoc(calls, call, key);
    CountInSnoc(TimesOf(calls, key), call.nowMs, lo, hi);
  }

  function RedisAdmitted(p: Params, w: World, key: string, lo: int, hi: int): nat
    requires p.configs(key).Valid()
  {
    CountIn(Admitted(p.configs(key), TimesOf(CallsOf(w.evals), key)), lo, hi)
  }

  function LocalAdmitted(p: Params, w: World, i: nat, key: string, lo: int, hi: int): nat
    requires AllValid(p.configs) && i < |w.local|
  {
    CountIn(LetInBy(p.ttlMs, p.configs, w.local[i], key), lo, hi)
  }

  /** Every request that Redis lets in was told so, or is accounted for as lost. */
  ghost predicate RedisBalanced(p: Params, w: World, key: string, lo: int, hi: int)
    requires p.Valid()
  {
    RedisAdmitted(p, w, key, lo, hi) ==
    CountIn(AllowedBy(w.responses, key, FromRedis), lo, hi) + CountIn(TimesOf(w.lost, key), lo, hi)
  }

  lemma EvalCounted(p: Params, evals: seq<Eval>, e: Eval, key: string, lo: int, hi: int)
    requires p.Valid()
    ensures var (c, times) := (p.configs(key), TimesOf(CallsOf(evals), key));
            CountIn(Admitted(c, TimesOf(CallsOf(evals + [e]), key)), lo, hi) ==
            CountIn(Admitted(c, times), lo, hi)
            + (if e.call.key == key && Allows(c, times, e.call.nowMs) && lo <= e.call.nowMs < hi then 1 else 0)
  {
    hide Admits, Next;
    EvalsSnoc(p.configs, evals, e);
    TimesOfSnoc(CallsOf(evals), e.call, key);
    AdmittedCountSnoc(p.configs(key), TimesOf(CallsOf(evals), key), e.call.nowMs, lo, hi);
  }

  /** What an attempt adds to the logs, in terms of the requests of its key alone. */
  lemma TryFields(p: Params, w: World, id: int, a: Attempt)
    requires p.Valid() && RedisLogged(p, w) && Enabled(p, w, Try(id, a))
    ensures var (key, next) := (w.flights[id].key, TryNext(p, w, id, a));
            if a.Ran? then
              var allowed := Allows(p.configs(key), TimesOf(CallsOf(w.evals), key), a.nowMs);
              && next.evals == w.evals + [EvalOf(key, a)]
              && next.lost == (if !a.delivered && allowed then w.lost + [Call(key, a.nowMs)] else w.lost)
              && (if a.delivered then
                    && |next.responses| == |w.responses| + 1
                    && var r := next.responses[|w.responses|];
                       && next.responses == w.responses + [r]
                       && r.key == key && r.nowMs == a.nowMs && r.source == FromRedis && r.decision.allowed == allowed
                  else next.responses == w.responses)
            else next.evals == w.evals && next.lost == w.lost && next.responses == w.responses
  {
    hide RunScript, Admits, Purge, LetsIn;
    TryDecides(p, w, id, a);
    if a.Ran? {
      TryRuns(p, w, id, a);
    }
  }

  lemma TryBalanced(p: Params, w: World, id: int, a: Attempt, key: string, lo: int, hi: int)
    requires p.Valid() && RedisLogged(p, w) && Enabled(p, w, Try(id, a)) && RedisBalanced(p, w, key, lo, hi)
    ensures RedisBalanced(p, TryNext(p, w, id, a), key, lo, hi)
  {
    hide TryNext, RedisLogged, Allows, CountIn, Admitted, AllowedBy, TimesOf;
    TryFields(p, w, id, a);
    if a.Ran? {
      var (k, next) := (w.flights[id].key, TryNext(p, w, id, a));
      EvalCounted(p, w.evals, EvalOf(k, a), key, lo, hi);
      if a.delivered {
        AllowedBySnoc(w.responses, next.responses[|w.responses|], key, FromRedis, lo, hi);
      } else {
        TimesOfCount(w.lost, Call(k, a.nowMs), key, lo, hi);
      }
    }
  }

  lemma RecoveryBalanced(p: Params, w: World, id: int, clockMs: int, key: string, lo: int, hi: int)
    requires p.Valid() && Logged(p, w) && Enabled(p, w, Recovery(id, clockMs)) && RedisBalanced(p, w, key, lo, hi)
    ensures RedisBalanced(p, RecoveryNext(p, w, id, clockMs), key, lo, hi)
  {
    var next := RecoveryNext(p, w, id, clockMs);
    AllowedBySnoc(w.responses, next.responses[|w.responses|], key, FromRedis, lo, hi);
  }

  /** Over every run and every interval of Redis time: the requests of a key that the script let in
    * are exactly those that were told so by Redis, and those whose reply got lost. */
  lemma {:induction false} NothingLetInTwice(p: Params, steps: seq<Step>, key: string, lo: int, hi: int)
    requires p.Valid() && Legal(p, steps)
    ensures RedisBalanced(p, WorldAfter(p, steps), key, lo, hi)
  {
    hide TryNext, RecoveryNext;
    if steps != [] {
      var (before, step) := (steps[..|steps| - 1], steps[|steps| - 1]);
      NothingLetInTwice(p, before, key, lo, hi);
      RunLogged(p, before);
      match step {
        case Arrive(_, _, _) =>
        case Try(id, attempt) => TryBalanced(p, WorldAfter(p, before), id, attempt, key, lo, hi);
        case Recovery(id, clockMs) => RecoveryBalanced(p, WorldAfter(p, before), id, clockMs, key, lo, hi);
      }
    }
  }

  // ----- the in-memory limiters -----

  ghost predicate LocalBalanced(p: Params, w: World, i: nat, key: string, lo: int, hi: int)
    requires p.Valid() && i < |w.local|
  {
    LocalAdmitted(p, w, i, key, lo, hi) == CountIn(AllowedBy(w.responses, key, FromLocal(i)), lo, hi)
  }

  lemma LocalCounted(p: Params, calls: seq<Call>, call: Call, key: string, lo: int, hi: int)
    requires p.Valid()
    ensures CountIn(LetInBy(p.ttlMs, p.configs, calls + [call], key), lo, hi) ==
            CountIn(LetInBy(p.ttlMs, p.configs, calls, key), lo, hi)
            + (if call.key == key && Given(p.ttlMs, p.configs, calls, call).allowed && lo <= call.nowMs < hi
               then 1 else 0)
  {
    hide Given, LetInBy;
    LetInSnoc(p.ttlMs, p.configs, calls, call, key);
    CountInSnoc(LetInBy(p.ttlMs, p.configs, calls, key), call.nowMs, lo, hi);
  }

  lemma RecoveryLogs(p: Params, w: World, id: int, clockMs: int)
    requires p.Valid() && Enabled(p, w, Recovery(id, clockMs))
    ensures var (f, next) := (w.flights[id], RecoveryNext(p, w, id, clockMs));
            && |next.responses| == |w.responses| + 1
            && next.responses == w.responses + [next.responses[|w.responses|]]
            && next.responses[|w.responses|].key == f.key && next.responses[|w.responses|].nowMs == clockMs
            && next.responses[|w.responses|].source == (if p.fallback then FromLocal(f.instance) else FromPolicy)
            && next.local ==
               if p.fallback then w.local[f.instance := w.local[f.instance] + [Call(f.key, clockMs)]] else w.local
  {
  }

  lemma RecoverGiven(p: Params, store: Store, calls: seq<Call>, key: string, clockMs: int)
    requires p.Valid() && store == StoreAfter(p.ttlMs, p.configs, calls)
    ensures Recover(true, p.ttlMs, store, p.PolicyOf(key), key, clockMs).1 ==
            LocalDecision(ToDecision(p.configs(key), Given(p.ttlMs, p.configs, calls, Call(key, clockMs))))
  {
    hide Fallback.Apply, StoreAfter, ToDecision;
  }

  /** The fallback answers from this instance's own calls. */
  lemma RecoveryFields(p: Params, w: World, id: int, clockMs: int)
    requires p.Valid() && Logged(p, w) && Enabled(p, w, Recovery(id, clockMs))
    ensures var (f, next) := (w.flights[id], RecoveryNext(p, w, id, clockMs));
            && |next.responses| == |w.responses| + 1
            && var r := next.responses[|w.responses|];
               && next.responses == w.responses + [r] && r.nowMs == clockMs
               && next.evals == w.evals && next.lost == w.lost
               && (if p.fallback then
                     r.decision == LocalDecision(ToDecision(p.configs(f.key),
                       Given(p.ttlMs, p.configs, w.local[f.instance], Call(f.key, clockMs))))
                   else r.decision.allowed == p.failOpen(f.key))
  {
    hide Fallback.Apply, SpaceAfter, Given, ToDecision, StoreAfter, RedisLogged;
    if p.fallback {
      var f := w.flights[id];
      assert StoreLogged(p, w, f.instance);
      RecoverGiven(p, w.stores[f.instance], w.local[f.instance], f.key, clockMs);
    }
  }

  /** From the fallback: the answer due from this instance's own calls of the key. */
  lemma LocalAnswersAreDue(p: Params, steps: seq<Step>, id: int, clockMs: int)
    requires p.Valid() && Legal(p, steps + [Recovery(id, clockMs)]) && p.fallback
    ensures Legal(p, steps) && id in WorldAfter(p, steps).flights
    ensures var (w, next) := (WorldAfter(p, steps), WorldAfter(p, steps + [Recovery(id, clockMs)]));
            var f := w.flights[id];
            f.instance < |w.local| && |next.responses| == |w.responses| + 1
            && (EvictionSafe(p.configs(f.key), p.ttlMs) ==>
                  next.responses[|w.responses|].decision ==
                  InSeconds(p.configs(f.key),
                            Decide(p.configs(f.key), TimesOf(w.local[f.instance], f.key), clockMs), true))
  {
    hide RecoveryNext, Decide, EvictionSafe, Given;
    RunSnoc(p, steps, Recovery(id, clockMs));
    RunLogged(p, steps);
    var w := WorldAfter(p, steps);
    RecoveryFields(p, w, id, clockMs);
    if EvictionSafe(p.configs(w.flights[id].key), p.ttlMs) {
      GivenIsDue(p, w, id, clockMs);
    }
  }

  lemma GivenIsDue(p: Params, w: World, id: int, clockMs: int)
    requires p.Valid() && Logged(p, w) && Enabled(p, w, Recovery(id, clockMs))
    requires EvictionSafe(p.configs(w.flights[id].key), p.ttlMs)
    ensures var (f, call) := (w.flights[id], Call(w.flights[id].key, clockMs));
            Given(p.ttlMs, p.configs, w.local[f.instance], call) ==
            Decide(p.configs(f.key), TimesOf(w.local[f.instance], f.key), clockMs)
  {
    hide Decide, EvictionSafe, Given, StoreAfter, RedisLogged;
    var (f, call) := (w.flights[id], Call(w.flights[id].key, clockMs));
    assert StoreLogged(p, w, f.instance);
    InOrderSnoc(w.local[f.instance], call);
    EvictionTransparent(p.ttlMs, p.configs, w.local[f.instance], call);
  }

  lemma LocalBalancedAfter(p: Params, w: World, id: int, clockMs: int, i: nat, key: string, lo: int, hi: int)
    requires p.Valid() && Logged(p, w) && Enabled(p, w, Recovery(id, clockMs)) && i < p.instances
    requires LocalBalanced(p, w, i, key, lo, hi)
    ensures LocalBalanced(p, RecoveryNext(p, w, id, clockMs), i, key, lo, hi)
  {
    hide StoreLogged, RedisLogged, RecoveryNext, Given, CountIn, LetInBy, AllowedBy, TimesOf;
    var (f, next) := (w.flights[id], RecoveryNext(p, w, id, clockMs));
    RecoveryLogs(p, w, id, clockMs);
    RecoveryFields(p, w, id, clockMs);
    AllowedBySnoc(w.responses, next.responses[|w.responses|], key, FromLocal(i), lo, hi);
    LocalCounted(p, w.local[i], Call(f.key, clockMs), key, lo, hi);
  }

  /** Over every run: the requests of a key that an instance's in-memory limiter let in are exactly
    * those that got that answer; and unless its events may be forgotten, they are what the algorithm
    * alone lets in. */
  lemma LocalLetIn(p: Params, steps: seq<Step>, i: nat, key: string, lo: int, hi: int)
    requires p.Valid() && Legal(p, steps) && i < p.instances
    ensures |WorldAfter(p, steps).local| == p.instances
    ensures LocalBalanced(p, WorldAfter(p, steps), i, key, lo, hi)
    ensures EvictionSafe(p.configs(key), p.ttlMs) ==>
              LocalAdmitted(p, WorldAfter(p, steps), i, key, lo, hi) ==
              CountIn(Admitted(p.configs(key), TimesOf(WorldAfter(p, steps).local[i], key)), lo, hi)
  {
    hide Admitted, LetInBy, CountIn, EvictionSafe, LocalBalanced;
    LocalTold(p, steps, i, key, lo, hi);
    RunLogged(p, steps);
    assert StoreLogged(p, WorldAfter(p, steps), i);
    if EvictionSafe(p.configs(key), p.ttlMs) {
      LetInWhenSafe(p.ttlMs, p.configs, WorldAfter(p, steps).local[i], key);
    }
  }

  lemma {:induction false} LocalTold(p: Params, steps: seq<Step>, i: nat, key: string, lo: int, hi: int)
    requires p.Valid() && Legal(p, steps) && i < p.instances
    ensures |WorldAfter(p, steps).local| == p.instances
    ensures LocalBalanced(p, WorldAfter(p, steps), i, key, lo, hi)
  {
    hide RecoveryNext, RunScript;
    if steps != [] {
      var (before, step) := (steps[..|steps| - 1], steps[|steps| - 1]);
      var w := WorldAfter(p, before);
      LocalTold(p, before, i, key, lo, hi);
      RunLogged(p, before);
      RunLogged(p, steps);
      match step {
        case Arrive(_, _, _) =>
        case Try(id, attempt) => LocalAfterTry(p, w, id, attempt, i, key, lo, hi);
        case Recovery(id, clockMs) => LocalBalancedAfter(p, w, id, clockMs, i, key, lo, hi);
      }
    }
  }

  lemma LocalAfterTry(p: Params, w: World, id: int, a: Attempt, i: nat, key: string, lo: int, hi: int)
    requires p.Valid() && Enabled(p, w, Try(id, a)) && i < |w.local| && LocalBalanced(p, w, i, key, lo, hi)
    ensures TryNext(p, w, id, a).local == w.local && LocalBalanced(p, TryNext(p, w, id, a), i, key, lo, hi)
  {
    hide RunScript, Admits, LetsIn;
    var next := TryNext(p, w, id, a);
    if next.responses != w.responses {
      AllowedBySnoc(w.responses, next.responses[|w.responses|], key, FromLocal(i), lo, hi);
    }
  }

  // ----- all responses -----

  predicate Sourced(p: Params, r: Response) {
    match r.source
    case FromRedis => !r.decision.degraded && !r.decision.localFallback
    case FromLocal(i) => p.fallback && i < p.instances && r.decision.degraded && r.decision.localFallback
    case FromPolicy =>
      !p.fallback && r.decision.allowed == p.failOpen(r.key) && r.decision.degraded && !r.decision.localFallback
  }

  predicate AllSourced(p: Params, responses: seq<Response>) {
    responses == [] || (AllSourced(p, responses[..|responses| - 1]) && Sourced(p, responses[|responses| - 1]))
  }

  lemma AllSourcedSnoc(p: Params, responses: seq<Response>, r: Response)
    requires AllSourced(p, responses) && Sourced(p, r)
    ensures AllSourced(p, responses + [r])
  {
    assert (responses + [r])[..|responses|] == responses;
  }

  lemma {:induction false} EverySourced(p: Params, steps: seq<Step>)
    requires p.Valid() && Legal(p, steps)
    ensures AllSourced(p, WorldAfter(p, steps).responses)
  {
    hide RunScript, Apply;
    if steps != [] {
      var (before, step) := (steps[..|steps| - 1], steps[|steps| - 1]);
      var (w, next) := (WorldAfter(p, before), WorldAfter(p, steps));
      EverySourced(p, before);
      RunLogged(p, before);
      if next.responses != w.responses {
        AllSourcedSnoc(p, w.responses, next.responses[|w.responses|]);
      }
    }
  }

  function AllowedAt(responses: seq<Response>, key: string, lo: int, hi: int): nat {
    if responses == [] then 0
    else
      var r := responses[|responses| - 1];
      AllowedAt(responses[..|responses| - 1], key, lo, hi)
      + (if r.key == key && r.decision.allowed && lo <= r.nowMs < hi then 1 else 0)
  }

  /** The allowed responses of the first n instances' in-memory limiters. */
  function LocalSum(responses: seq<Response>, key: string, n: nat, lo: int, hi: int): nat {
    if n == 0 then 0
    else LocalSum(responses, key, n - 1, lo, hi) + CountIn(AllowedBy(responses, key, FromLocal(n - 1)), lo, hi)
  }

  lemma {:induction false} LocalSumSnoc(responses: seq<Response>, r: Response, key: string, n: nat, lo: int, hi: int)
    ensures LocalSum(responses + [r], key, n, lo, hi) ==
            LocalSum(responses, key, n, lo, hi)
            + (if r.source.FromLocal? && r.source.instance < n && r.key == key && r.decision.allowed
                  && lo <= r.nowMs < hi then 1 else 0)
    decreases n
  {
    hide AllowedBy, CountIn;
    if n > 0 {
      LocalSumSnoc(responses, r, key, n - 1, lo, hi);
      AllowedBySnoc(responses, r, key, FromLocal(n - 1), lo, hi);
    }
  }

  lemma {:induction false} LocalSumEmpty(key: string, n: nat, lo: int, hi: int)
    ensures LocalSum([], key, n, lo, hi) == 0
    decreases n
  {
    if n > 0 {
      LocalSumEmpty(key, n - 1, lo, hi);
    }
  }

  lemma {:induction false} BySource(p: Params, responses: seq<Response>, key: string, lo: int, hi: int)
    requires AllSourced(p, responses)
    ensures AllowedAt(responses, key, lo, hi) ==
            CountIn(AllowedBy(responses, key, FromRedis), lo, hi)
            + CountIn(AllowedBy(responses, key, FromPolicy), lo, hi)
            + LocalSum(responses, key, p.instances, lo, hi)
    ensures !p.fallback ==> LocalSum(responses, key, p.instances, lo, hi) == 0
    ensures p.fallback || !p.failOpen(key) ==> CountIn(AllowedBy(responses, key, FromPolicy), lo, hi) == 0
  {
    if responses == [] {
      LocalSumEmpty(key, p.instances, lo, hi);
    } else {
      var (before, r) := (responses[..|responses| - 1], responses[|responses| - 1]);
      assert responses == before + [r];
      BySource(p, before, key, lo, hi);
      AllowedBySnoc(before, r, key, FromRedis, lo, hi);
      AllowedBySnoc(before, r, key, FromPolicy, lo, hi);
      LocalSumSnoc(before, r, key, p.instances, lo, hi);
    }
  }

  // ----- the limits -----

  /** The algorithm alone, on one history, lets in at most m requests in [lo, hi). */
  ghost predicate AtMost(c: Config, lo: int, hi: int, m: int)
    requires c.Valid()
  {
    forall times :: NonDecreasing(times) ==> CountIn(Admitted(c, times), lo, hi) <= m
  }

  lemma RedisWithin(p: Params, steps: seq<Step>, key: string, lo: int, hi: int, m: int)
    requires p.Valid() && Legal(p, steps) && AtMost(p.configs(key), lo, hi, m)
    ensures var w := WorldAfter(p, steps);
            CountIn(AllowedBy(w.responses, key, FromRedis), lo, hi) + CountIn(TimesOf(w.lost, key), lo, hi) <= m
  {
    var w := WorldAfter(p, steps);
    RunLogged(p, steps);
    NothingLetInTwice(p, steps, key, lo, hi);
    TimesInOrder(CallsOf(w.evals), key);
  }

  /** An instance's in-memory limiter, on any calls, lets in at most n requests in [lo, hi). */
  ghost predicate StoreAtMost(p: Params, key: string, lo: int, hi: int, n: int)
    requires p.Valid()
  {
    forall calls :: InOrder(calls) ==> CountIn(LetInBy(p.ttlMs, p.configs, calls, key), lo, hi) <= n
  }

  lemma {:induction false} LocalsWithin(p: Params, steps: seq<Step>, key: string, k: nat, lo: int, hi: int, n: int)
    requires p.Valid() && Legal(p, steps) && StoreAtMost(p, key, lo, hi, n) && k <= p.instances
    ensures LocalSum(WorldAfter(p, steps).responses, key, k, lo, hi) <= k * n
    decreases k
  {
    hide LetInBy, CountIn, AllowedBy, WorldAfter, Legal, EvictionSafe;
    var w := WorldAfter(p, steps);
    if k > 0 {
      LocalsWithin(p, steps, key, k - 1, lo, hi, n);
      RunLogged(p, steps);
      LocalLetIn(p, steps, k - 1, key, lo, hi);
      assert StoreLogged(p, w, k - 1);
      Distribute(k - 1, 1, n);
    }
  }

  /** Fail-closed without fallback: all instances together, over every interleaving of attempts,
    * failures, lost replies and retries, let in no more than the algorithm does alone; and each
    * lost reply to an admitted request makes it one less. */
  lemma FailClosedLimit(p: Params, steps: seq<Step>, key: string, lo: int, hi: int, m: int)
    requires p.Valid() && Legal(p, steps) && !p.fallback && !p.failOpen(key) && AtMost(p.configs(key), lo, hi, m)
    ensures var w := WorldAfter(p, steps);
            AllowedAt(w.responses, key, lo, hi) + CountIn(TimesOf(w.lost, key), lo, hi) <= m
  {
    EverySourced(p, steps);
    BySource(p, WorldAfter(p, steps).responses, key, lo, hi);
    RedisWithin(p, steps, key, lo, hi, m);
  }

  /** With the local fallback: besides what Redis lets in, what each instance's limiter lets in. */
  lemma FallbackLimit(p: Params, steps: seq<Step>, key: string, lo: int, hi: int, m: int, n: int)
    requires p.Valid() && Legal(p, steps) && p.fallback && AtMost(p.configs(key), lo, hi, m)
    requires StoreAtMost(p, key, lo, hi, n)
    ensures AllowedAt(WorldAfter(p, steps).responses, key, lo, hi) <= m + p.instances * n
  {
    hide StoreAtMost, AtMost;
    EverySourced(p, steps);
    BySource(p, WorldAfter(p, steps).responses, key, lo, hi);
    RedisWithin(p, steps, key, lo, hi, m);
    LocalsWithin(p, steps, key, p.instances, lo, hi, n);
  }

  /** Unless events may be forgotten, that is no more than the algorithm alone lets in. */
  lemma SafeStore(p: Params, key: string, lo: int, hi: int, m: int)
    requires p.Valid() && AtMost(p.configs(key), lo, hi, m) && EvictionSafe(p.configs(key), p.ttlMs)
    ensures StoreAtMost(p, key, lo, hi, m)
  {
    hide LetInBy, Admitted, CountIn, EvictionSafe;
    forall calls | InOrder(calls) ensures CountIn(LetInBy(p.ttlMs, p.configs, calls, key), lo, hi) <= m {
      LetInWhenSafe(p.ttlMs, p.configs, calls, key);
      TimesInOrder(calls, key);
    }
  }

  /** What one instance's limiter lets in of a sliding log, in any window length. */
  function LogOverrun(c: Config, ttlMs: int): int
    requires c.SlidingLogConfig?
  {
    if EvictionSafe(c, ttlMs) then c.limit else 2 * c.limit - 1
  }

  lemma LogStore(p: Params, key: string, from: int)
    requires p.Valid() && p.configs(key).SlidingLogConfig?
    ensures var c := p.configs(key); StoreAtMost(p, key, from, from + c.WindowMs(), LogOverrun(c, p.ttlMs))
  {
    hide LetInBy, Admitted, CountIn;
    var c := p.configs(key);
    if EvictionSafe(c, p.ttlMs) {
      LimitPerInterval(c, from);
      SafeStore(p, key, from, from + c.WindowMs(), c.limit);
    } else {
      forall calls | InOrder(calls)
        ensures CountIn(LetInBy(p.ttlMs, p.configs, calls, key), from, from + c.WindowMs()) <= 2 * c.limit - 1
      {
        AlmostTwiceTheLimit(p.ttlMs, p.configs, calls, key, from);
      }
    }
  }

  /** The bounds of the three algorithms. */
  lemma LimitPerWindow(c: Config, start: int)
    requires c.Valid() && c.FixedWindowConfig? && Aligned(c, start)
    ensures AtMost(c, start, start + c.WindowMs(), c.limit)
  {
    forall times | NonDecreasing(times)
      ensures CountIn(Admitted(c, times), start, start + c.WindowMs()) <= c.limit
    {
      AdmittedPerWindow(c, times, start);
    }
  }

  lemma LimitPerInterval(c: Config, from: int)
    requires c.Valid() && c.SlidingLogConfig?
    ensures AtMost(c, from, from + c.WindowMs(), c.limit)
  {
    forall times | NonDecreasing(times)
      ensures CountIn(Admitted(c, times), from, from + c.WindowMs()) <= c.limit
    {
      EveryIntervalWithinLimit(c, times, from);
    }
  }

  lemma CapacityAndRefill(c: Config, lo: int, hi: int)
    requires c.Valid() && c.TokenBucketConfig? && lo < hi
    ensures AtMost(c, lo, hi, (Full(c) + (hi - 1 - lo) * c.rate) / c.WindowMs())
  {
    forall times | NonDecreasing(times)
      ensures CountIn(Admitted(c, times), lo, hi) <= (Full(c) + (hi - 1 - lo) * c.rate) / c.WindowMs()
    {
      IntervalBound(c, times, lo, hi);
      QuotientAtLeast(CountIn(Admitted(c, times), lo, hi), Full(c) + (hi - 1 - lo) * c.rate, c.WindowMs());
    }
  }

  lemma QuotientAtLeast(n: int, total: int, w: int)
    requires w > 0 && n * w <= total
    ensures n <= total / w
  {
    var q := total / w;
    if q < n {
      MulMono(q + 1, n, w);
    }
  }

  /** The bound of a token bucket on [lo, hi). */
  function BucketMost(c: Config, lo: int, hi: int): int
    requires c.Valid() && c.TokenBucketConfig?
  {
    (Full(c) + (hi - 1 - lo) * c.rate) / c.WindowMs()
  }

  /** The fixed window, all instances together: `limit` a window when failing closed, and
    * (instances + 1) times that with the local fallback. */
  lemma WindowLimit(p: Params, steps: seq<Step>, key: string, start: int)
    requires p.Valid() && Legal(p, steps) && p.configs(key).FixedWindowConfig? && Aligned(p.configs(key), start)
    requires !p.fallback ==> !p.failOpen(key)
    ensures var c := p.configs(key);
            AllowedAt(WorldAfter(p, steps).responses, key, start, start + c.WindowMs()) <=
            if p.fallback then (p.instances + 1) * c.limit else c.limit
  {
    hide AtMost, StoreAtMost, WorldAfter, Legal, AllowedAt, Aligned;
    var c := p.configs(key);
    LimitPerWindow(c, start);
    if p.fallback {
      SafeStore(p, key, start, start + c.WindowMs(), c.limit);
      FallbackLimit(p, steps, key, start, start + c.WindowMs(), c.limit, c.limit);
      Distribute(p.instances, 1, c.limit);
    } else {
      FailClosedLimit(p, steps, key, start, start + c.WindowMs(), c.limit);
    }
  }

  /** The sliding log, all instances together, in any interval of window length: `limit` when failing
    * closed; with the local fallback, for each instance `limit` more, or almost twice that if its
    * limiter may forget events. */
  lemma LogLimit(p: Params, steps: seq<Step>, key: string, from: int)
    requires p.Valid() && Legal(p, steps) && p.configs(key).SlidingLogConfig?
    requires !p.fallback ==> !p.failOpen(key)
    ensures var c := p.configs(key);
            AllowedAt(WorldAfter(p, steps).responses, key, from, from + c.WindowMs()) <=
            if p.fallback then c.limit + p.instances * LogOverrun(c, p.ttlMs) else c.limit
  {
    hide AtMost, StoreAtMost, WorldAfter, Legal, AllowedAt, LogOverrun;
    var c := p.configs(key);
    LimitPerInterval(c, from);
    if p.fallback {
      LogStore(p, key, from);
      FallbackLimit(p, steps, key, from, from + c.WindowMs(), c.limit, LogOverrun(c, p.ttlMs));
    } else {
      FailClosedLimit(p, steps, key, from, from + c.WindowMs(), c.limit);
    }
  }

  /** The token bucket, all instances together, in any interval: what one bucket can pay for when
    * failing closed, and (instances + 1) times that with the local fallback. */
  lemma BucketLimit(p: Params, steps: seq<Step>, key: string, lo: int, hi: int)
    requires p.Valid() && Legal(p, steps) && p.configs(key).TokenBucketConfig? && lo < hi
    requires !p.fallback ==> !p.failOpen(key)
    ensures var c := p.configs(key);
            AllowedAt(WorldAfter(p, steps).responses, key, lo, hi) <=
            if p.fallback then (p.instances + 1) * BucketMost(c, lo, hi) else BucketMost(c, lo, hi)
  {
    hide AtMost, StoreAtMost, WorldAfter, Legal, AllowedAt, Full;
    var c := p.configs(key);
    CapacityAndRefill(c, lo, hi);
    if p.fallback {
      SafeStore(p, key, lo, hi, BucketMost(c, lo, hi));
      FallbackLimit(p, steps, key, lo, hi, BucketMost(c, lo, hi), BucketMost(c, lo, hi));
      Distribute(p.instances, 1, BucketMost(c, lo, hi));
    } else {
      FailClosedLimit(p, steps, key, lo, hi, BucketMost(c, lo, hi));
    }
  }
}
